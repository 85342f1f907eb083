/**
 * Machine words, bytes, optional and fallible results, and the bit
 * arithmetic the decoders are written in.
 */
module Base {

  /** A `uint32_t`. */
  type u32 = x: int | 0 <= x < 0x1_0000_0000

  /** A `uint8_t`. */
  type byte = x: int | 0 <= x < 0x100

  datatype Option<T> = None | Some(value: T)

  datatype Result<T, E> = Ok(value: T) | Err(error: E)

  /** `w >> n` on a non-negative value, as `n` single-bit shifts. */
  function Shr(w: nat, n: nat): nat
  {
    if n == 0 then w else Shr(w / 2, n - 1)
  }

  /** Bit `k` of `w`, as 0 or 1: `(w >> k) & 1`. */
  function Bit(w: nat, k: nat): nat
  {
    Shr(w, k) % 2
  }

  /** Shifting twice is shifting by the sum. */
  lemma {:induction false} ShrShr(w: nat, a: nat, b: nat)
    ensures Shr(Shr(w, a), b) == Shr(w, a + b)
  {
    if a > 0 {
      ShrShr(w / 2, a - 1, b);
    }
  }

  /** One more shift by `k` bits is a division by `2^k`, for the step widths the decoders use. */
  lemma ShrStep(w: nat, n: nat)
    ensures Shr(w, n + 1) == Shr(w, n) / 2
    ensures Shr(w, n + 2) == Shr(w, n) / 4
    ensures Shr(w, n + 3) == Shr(w, n) / 8
  {
    var x := Shr(w, n);
    ShrShr(w, n, 1);
    ShrShr(w, n, 2);
    ShrShr(w, n, 3);
    assert Shr(x, 2) == Shr(x / 2, 1) == x / 2 / 2;
    assert Shr(x, 3) == Shr(x / 2, 2) == Shr(x / 2 / 2, 1) == x / 2 / 2 / 2;
  }

  /** Bit `k + 1` of `w` is the second-lowest bit of `w >> k`. */
  lemma BitsOfShr(w: nat, k: nat)
    ensures Bit(w, k + 1) == (Shr(w, k) / 2) % 2
  {
    ShrStep(w, k);
  }

  lemma MulBound(m: int, k: int)
    requires m > 0
    ensures k >= 1 ==> m * k >= m
    ensures k <= -1 ==> m * k <= -m
  {
  }

  /** A value below `m` plus a multiple of `m` splits back into its two parts. */
  lemma Pack(lo: nat, hi: nat, m: nat)
    requires 0 < m && lo < m
    ensures (lo + m * hi) / m == hi && (lo + m * hi) % m == lo
  {
    var w := lo + m * hi;
    var q, r := w / m, w % m;
    assert m * q + r == w;
    assert m * (q - hi) == lo - r;
    MulBound(m, q - hi);
  }

  /** The field of width `k` at position `m` (`(w / m) % k`) of a word laid out as `lo`, `x`, `rest`. */
  lemma FieldOf(w: nat, m: nat, k: nat, lo: nat, x: nat, rest: nat)
    requires 0 < m && 0 < k && lo < m && x < k
    requires w == lo + m * (x + k * rest)
    ensures w / m % k == x
  {
    Pack(lo, x + k * rest, m);
    Pack(x, rest, k);
  }

  /** Concatenation regroups. */
  lemma Assoc<T>(a: seq<T>, b: seq<T>, c: seq<T>)
    ensures a + b + c == a + (b + c)
  {
  }

  /** A prefix one longer is the prefix and the next element. */
  lemma TakeStep<T>(t: seq<T>, i: nat)
    requires i < |t|
    ensures t[..i + 1] == t[..i] + [t[i]]
  {
  }

  /** A prefix of `x` stays a prefix of anything appended to `x`. */
  lemma PrefixKept<T>(p: seq<T>, x: seq<T>, y: seq<T>)
    requires |p| <= |x| && x[..|p|] == p
    ensures |p| <= |x + y| && (x + y)[..|p|] == p
  {
    assert forall i :: 0 <= i < |p| ==> (x + y)[i] == x[i];
  }

  /** A sequence is its elements before `i`, the element at `i`, and the rest. */
  lemma SplitAround<T>(s: seq<T>, i: nat)
    requires i < |s|
    ensures s == s[..i] + [s[i]] + s[i + 1..]
  {
  }
}
