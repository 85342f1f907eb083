/**
 * The section helpers of the program dumper: a container file is a run of
 * sections, each closed by the four-byte marker 0xba5eba11 (little-endian);
 * names inside sections are stored with every byte complemented.
 */
module PgmDump {
  import opened Base
  import Operands

  /** The section terminator. */
  const SectionMarker: nat := 0xba5eba11

  /** The marker as it appears in the file, lowest byte first. */
  const MarkerBytes: seq<byte> := [0x11, 0xba, 0x5e, 0xba]

  /** The 32-bit little-endian word at byte offset `p`. */
  function Le32(b: seq<byte>, p: nat): nat
    requires p + 4 <= |b|
  {
    b[p] as nat + 0x100 * (b[p + 1] as nat + 0x100 * (b[p + 2] as nat + 0x100 * b[p + 3] as nat))
  }

  /** A marker starts at byte offset `p`. */
  predicate MarkerAt(b: seq<byte>, p: nat)
  {
    p + 4 <= |b| && Le32(b, p) == SectionMarker
  }

  /** A little-endian word determines its four bytes. */
  lemma Le32Bytes(b: seq<byte>, p: nat)
    requires p + 4 <= |b|
    ensures Le32(b, p) % 0x100 == b[p]
    ensures Le32(b, p) / 0x100 % 0x100 == b[p + 1]
    ensures Le32(b, p) / 0x100 / 0x100 % 0x100 == b[p + 2]
    ensures Le32(b, p) / 0x100 / 0x100 / 0x100 == b[p + 3]
  {
    var w := Le32(b, p);
    var r2: nat := b[p + 2] as nat + 0x100 * b[p + 3] as nat;
    var r1: nat := b[p + 1] as nat + 0x100 * r2;
    Pack(b[p], r1, 0x100);
    Pack(b[p + 1], r2, 0x100);
    Pack(b[p + 2], b[p + 3], 0x100);
  }

  /** A marker is the byte string 11 ba 5e ba, and nothing else is. */
  lemma {:induction false} MarkerIsBytes(b: seq<byte>, p: nat)
    requires p + 4 <= |b|
    ensures MarkerAt(b, p) <==> b[p..p + 4] == MarkerBytes
  {
    Le32Bytes(b, p);
    if b[p..p + 4] == MarkerBytes {
      assert b[p] == 0x11 && b[p + 1] == 0xba && b[p + 2] == 0x5e && b[p + 3] == 0xba by {
        assert b[p..p + 4][0] == b[p] && b[p..p + 4][1] == b[p + 1];
        assert b[p..p + 4][2] == b[p + 2] && b[p..p + 4][3] == b[p + 3];
      }
    }
    if MarkerAt(b, p) {
      assert b[p..p + 4] == [b[p], b[p + 1], b[p + 2], b[p + 3]];
    }
  }

  /** `find_sect_end`: the first offset at which a marker starts, if there is one. */
  method FindSectEnd(buf: seq<byte>) returns (r: Option<nat>)
    ensures r.Some? ==> MarkerAt(buf, r.value)
    ensures r.Some? ==> forall q: nat :: q < r.value ==> !MarkerAt(buf, q)
    ensures r.None? <==> forall q: nat :: !MarkerAt(buf, q)
  {
    var p := 0;
    while p + 3 < |buf|
      invariant forall q: nat :: q < p ==> !MarkerAt(buf, q)
    {
      var d := buf[p] as nat + 0x100 * (buf[p + 1] as nat + 0x100 * (buf[p + 2] as nat + 0x100 * buf[p + 3] as nat));
      if d == SectionMarker {
        assert MarkerAt(buf, p);
        return Some(p);
      }
      p := p + 1;
    }
    return None;
  }

  /**
   * A section is found exactly where it ends: when the bytes before a
   * marker hold no 0x11 byte, the first marker is that one.
   */
  lemma {:induction false} FirstMarkerEndsSection(s: seq<byte>, rest: seq<byte>)
    requires forall i :: 0 <= i < |s| ==> s[i] != 0x11
    ensures MarkerAt(s + MarkerBytes + rest, |s|)
    ensures forall q: nat :: q < |s| ==> !MarkerAt(s + MarkerBytes + rest, q)
  {
    var b := s + MarkerBytes + rest;
    assert b[|s|..|s| + 4] == MarkerBytes;
    MarkerIsBytes(b, |s|);
    forall q: nat | q < |s|
      ensures !MarkerAt(b, q)
    {
      if q + 4 <= |b| {
        MarkerIsBytes(b, q);
        assert b[q..q + 4][0] == b[q] == s[q];
      }
    }
  }

  /** The reader's position in a container file: `state->buf` as an offset, and `state->sz`. */
  class SectionCursor {
    const data: seq<byte>
    var pos: nat
    var sz: int

    ghost predicate Valid()
      reads this
    {
      0 <= sz && pos + sz <= |data|
    }

    /** The bytes not yet read. */
    function Remaining(): seq<byte>
      reads this
      requires Valid()
    {
      data[pos..pos + sz]
    }

    constructor (file: seq<byte>)
      ensures Valid() && data == file && pos == 0 && sz == |file|
      ensures Remaining() == file
    {
      data := file;
      pos := 0;
      sz := |file|;
    }

    /**
     * `next_sect`: returns a copy of the bytes before the first marker and
     * its length, and moves past the marker. The source never checks for a
     * missing marker, so one must be present.
     */
    method NextSect() returns (sect: seq<byte>, sectSize: nat)
      requires Valid() && exists q: nat :: MarkerAt(Remaining(), q)
      modifies this
      ensures Valid()
      ensures MarkerAt(old(Remaining()), sectSize)
      ensures forall q: nat :: q < sectSize ==> !MarkerAt(old(Remaining()), q)
      ensures sect == old(Remaining())[..sectSize]
      ensures pos == old(pos) + sectSize + 4 && sz == old(sz) - (sectSize + 4)
      ensures Remaining() == old(Remaining())[sectSize + 4..]
    {
      var end := FindSectEnd(Remaining());
      match end
      case None =>
        assert false;
      case Some(offset) =>
        sectSize := offset;
        sect := Remaining()[..sectSize];
        sz := sz - (sectSize + 4);
        pos := pos + sectSize + 4;
    }
  }

  /** All ones in the low `n` bits. */
  function AllOnes(n: nat): nat
  {
    if n == 0 then 0 else 2 * AllOnes(n - 1) + 1
  }

  /** `b ^ 0xff` on a byte: the complement within eight bits. */
  function Flip(b: byte): byte
  {
    0xff - b
  }

  /** Subtracting from an all-ones value flips every bit below it: the subtraction is an exclusive or. */
  lemma {:induction false} ComplementBits(n: nat, b: nat, k: nat)
    requires b <= AllOnes(n) && k < n
    ensures Bit(AllOnes(n) - b, k) == 1 - Bit(b, k)
  {
    if k > 0 {
      assert AllOnes(n) - b == 2 * (AllOnes(n - 1) - b / 2) + (1 - b % 2);
      ComplementBits(n - 1, b / 2, k - 1);
    }
  }

  /** `Flip` is the exclusive or with 0xff: each of the eight bits is inverted. */
  lemma FlipIsXor(b: byte, k: nat)
    requires k < 8
    ensures Bit(Flip(b), k) == 1 - Bit(b, k)
  {
    assert AllOnes(8) == 0xff;
    ComplementBits(8, b, k);
  }

  /** A byte string with the bytes of `[start, start + sz)` complemented; nothing when `sz <= 0`. */
  function CleanRange(b: seq<byte>, start: nat, sz: int): (c: seq<byte>)
    ensures |c| == |b|
  {
    seq(|b|, i requires 0 <= i < |b| => if start <= i < start + sz then Flip(b[i]) else b[i])
  }

  /** Cleaning a range twice gives back the original bytes. */
  lemma CleanTwice(b: seq<byte>, start: nat, sz: int)
    ensures CleanRange(CleanRange(b, start, sz), start, sz) == b
  {
  }

  /** Cleaning changes exactly the bytes of its range. */
  lemma CleanChangesRange(b: seq<byte>, start: nat, sz: int, i: nat)
    requires i < |b|
    ensures CleanRange(b, start, sz)[i] != b[i] <==> start <= i < start + sz
  {
  }

  /** `clean_ascii`: complements `sz` bytes from `start` in place. */
  method CleanAscii(buf: array<byte>, start: nat, sz: int)
    requires sz <= 0 || start + sz <= buf.Length
    modifies buf
    ensures buf[..] == CleanRange(old(buf[..]), start, sz)
  {
    var end := start + sz;
    var p := start;
    while p < end
      invariant start <= p && (p <= end || p == start)
      invariant forall j :: 0 <= j < buf.Length ==> buf[j] == (if start <= j < p then Flip(old(buf[j])) else old(buf[j]))
    {
      buf[p] := Flip(buf[p]);
      p := p + 1;
    }
    assert buf[..] == CleanRange(old(buf[..]), start, sz);
  }

  /** `isascii(c)`. */
  predicate IsAscii(c: byte)
  {
    c < 0x80
  }

  /** `iscntrl(c)` in the C locale: below 0x20, or DEL. */
  predicate IsCntrl(c: byte)
  {
    c < 0x20 || c == 0x7f
  }

  /** `is_ok_ascii(c)`: an ASCII character that is a tab or not a control character. */
  predicate IsOkAscii(c: byte)
  {
    IsAscii(c) && (c == 0x09 || !IsCntrl(c))
  }

  /** What `dump_ascii` prints for a NUL: a line of 35 dashes between two line starts. */
  const Separator: string := "\n\t-----------------------------------\n\t"

  /** What `dump_ascii` prints for one stored byte, after undoing the complement. */
  function AsciiGlyph(b: byte): string
  {
    var c := Flip(b);
    if c == 0x0a then "\n\t"
    else if c == 0 then Separator
    else if IsOkAscii(c) then [c as char]
    else "?"
  }

  /** The glyphs of a run of stored bytes, in order. */
  function Glyphs(bs: seq<byte>): string
  {
    if bs == [] then "" else Glyphs(bs[..|bs| - 1]) + AsciiGlyph(bs[|bs| - 1])
  }

  lemma GlyphsStep(bs: seq<byte>, i: nat)
    requires i < |bs|
    ensures Glyphs(bs[..i + 1]) == Glyphs(bs[..i]) + AsciiGlyph(bs[i])
  {
    assert bs[..i + 1][..i] == bs[..i];
  }

  /** `dump_ascii`: a leading tab, one glyph per byte, a closing newline. */
  method DumpAscii(buf: seq<byte>) returns (out: string)
    ensures out == "\t" + Glyphs(buf) + "\n"
  {
    out := "\t";
    var i := 0;
    while i < |buf|
      invariant 0 <= i <= |buf|
      invariant out == "\t" + Glyphs(buf[..i])
    {
      var c := Flip(buf[i]);
      var g: string;
      if c == 0x0a {
        g := "\n\t";
      } else if c == 0 {
        g := Separator;
      } else if IsOkAscii(c) {
        g := [c as char];
      } else {
        g := "?";
      }
      assert g == AsciiGlyph(buf[i]);
      GlyphsStep(buf, i);
      Assoc("\t", Glyphs(buf[..i]), g);
      out := out + g;
      i := i + 1;
    }
    assert buf[..i] == buf;
    out := out + "\n";
  }

  /** The characters a dump can contain: newline, tab, and the printable ASCII range. */
  predicate Printable(ch: char)
  {
    ch == '\n' || ch == '\t' || ' ' <= ch <= '~'
  }

  /** Whatever the bytes, a dump contains no control character but newline and tab. */
  lemma {:induction false} GlyphsPrintable(bs: seq<byte>)
    ensures forall i :: 0 <= i < |Glyphs(bs)| ==> Printable(Glyphs(bs)[i])
  {
    if bs != [] {
      var init := bs[..|bs| - 1];
      GlyphsPrintable(init);
      var g := AsciiGlyph(bs[|bs| - 1]);
      assert forall i :: 0 <= i < |g| ==> Printable(g[i]);
      forall i | 0 <= i < |Glyphs(bs)|
        ensures Printable(Glyphs(bs)[i])
      {
        if i < |Glyphs(init)| {
          assert Glyphs(bs)[i] == Glyphs(init)[i];
        } else {
          assert Glyphs(bs)[i] == g[i - |Glyphs(init)|];
        }
      }
    }
  }

  /** Complements every byte, as names are stored. */
  function Obfuscate(t: seq<byte>): (s: seq<byte>)
    ensures |s| == |t|
  {
    seq(|t|, i requires 0 <= i < |t| => Flip(t[i]))
  }

  /** A name of ordinary characters (no NUL, no newline, nothing unprintable but tab), stored complemented, dumps as itself. */
  lemma {:induction false} PlainNameDumps(t: seq<byte>)
    requires forall i :: 0 <= i < |t| ==> IsOkAscii(t[i])
    ensures Glyphs(Obfuscate(t)) == seq(|t|, i requires 0 <= i < |t| => t[i] as char)
  {
    if t != [] {
      var init := t[..|t| - 1];
      PlainNameDumps(init);
      assert Obfuscate(t)[..|t| - 1] == Obfuscate(init);
      var last := t[|t| - 1];
      assert Flip(Obfuscate(t)[|t| - 1]) == last;
      assert AsciiGlyph(Obfuscate(t)[|t| - 1]) == [last as char];
      assert seq(|t|, i requires 0 <= i < |t| => t[i] as char)
        == seq(|init|, i requires 0 <= i < |init| => init[i] as char) + [last as char];
    }
  }

  /** A stored newline and a stored NUL print as a line break and as the separator line. */
  lemma BreakGlyphs()
    ensures AsciiGlyph(Flip(0x0a)) == "\n\t"
    ensures AsciiGlyph(Flip(0)) == Separator && |Separator| == 39
    ensures AsciiGlyph(Flip(0x01)) == "?" && AsciiGlyph(Flip(0x7f)) == "?" && AsciiGlyph(Flip(0x80)) == "?"
    ensures AsciiGlyph(Flip(0x09)) == "\t"
  {
  }

  /** The type word: bits 8..15 of `type_info` must be 0x8b (vector) or 0x14 (float). */
  predicate ValidType(typeInfo: nat)
  {
    var t := typeInfo / 0x100 % 0x100;
    t == 0x8b || t == 0x14
  }

  /** Read from a section, the type word is valid exactly when its second byte is 0x8b or 0x14. */
  lemma ValidTypeByte(sect: seq<byte>)
    requires |sect| >= 4
    ensures ValidType(Le32(sect, 0)) <==> sect[1] == 0x8b || sect[1] == 0x14
  {
    Le32Bytes(sect, 0);
  }

  /** `check_extension`: the path ends in the extension. The source reads before the path when it is shorter. */
  predicate CheckExtension(path: string, ext: string)
    requires |ext| <= |path|
  {
    path[|path| - |ext|..] == ext
  }

  /** The check holds exactly when the path is some stem followed by the extension. */
  lemma ExtensionIsSuffix(path: string, ext: string)
    requires |ext| <= |path|
    ensures CheckExtension(path, ext) <==> exists stem :: path == stem + ext
  {
    if CheckExtension(path, ext) {
      assert path == path[..|path| - |ext|] + ext;
    }
    if exists stem :: path == stem + ext {
      var stem :| path == stem + ext;
      assert path[|path| - |ext|..] == ext;
    }
  }

  /** A path with the extension carries each of its characters at the matching place from the end. */
  lemma SuffixChar(path: string, ext: string, k: nat)
    requires |ext| <= |path| && k < |ext|
    ensures CheckExtension(path, ext) ==> path[|path| - |ext| + k] == ext[k]
  {
    if CheckExtension(path, ext) {
      assert path[|path| - |ext|..][k] == ext[k];
    }
  }

  /** The path ends in the extension, the path being at least as long. */
  predicate HasExtension(path: string, ext: string)
  {
    |ext| <= |path| && CheckExtension(path, ext)
  }

  /** What the dumper makes of its input: a capture file, or a bare shader for one of the two disassemblers, with the shader kind it passes on. */
  datatype InputKind = RdCapture | A2xxShader(stage: Operands.ShaderKind) | A3xxShader(stage: Operands.ShaderKind)

  /** The extensions the dumper tests, in the order it tests them, with what each selects. */
  const InputTable: seq<(string, InputKind)> := [
    (".rd", RdCapture),
    (".vo", A2xxShader(Operands.VertexShader)), (".fo", A2xxShader(Operands.FragmentShader)),
    (".vo3", A3xxShader(Operands.VertexShader)), (".fo3", A3xxShader(Operands.FragmentShader)), (".co3", A3xxShader(Operands.ComputeShader))
  ]

  /** A refused input: no known extension, or a path shorter than an extension the next test compares against. */
  datatype InputError = UnknownExtension | PathShorterThan(ext: string)

  /**
   * The extension tests of the dumper's entry point, in order. A path
   * shorter than the extension being tested is refused there, since the
   * source compares bytes before the path's start in that case.
   */
  function ClassifyInput(path: string): (r: Result<InputKind, InputError>)
    ensures r.Ok? ==> exists i :: 0 <= i < |InputTable| && InputTable[i].1 == r.value && HasExtension(path, InputTable[i].0)
    ensures r == Err(UnknownExtension) ==> forall i :: 0 <= i < |InputTable| ==> !HasExtension(path, InputTable[i].0)
    ensures r.Err? && r.error.PathShorterThan? ==> |path| < |r.error.ext|
  {
    if |path| < 3 then Err(PathShorterThan(".rd"))
    else if CheckExtension(path, ".rd") then assert HasExtension(path, InputTable[0].0); Ok(RdCapture)
    else if CheckExtension(path, ".vo") then assert HasExtension(path, InputTable[1].0); Ok(A2xxShader(Operands.VertexShader))
    else if CheckExtension(path, ".fo") then assert HasExtension(path, InputTable[2].0); Ok(A2xxShader(Operands.FragmentShader))
    else if |path| < 4 then Err(PathShorterThan(".vo3"))
    else if CheckExtension(path, ".vo3") then assert HasExtension(path, InputTable[3].0); Ok(A3xxShader(Operands.VertexShader))
    else if CheckExtension(path, ".fo3") then assert HasExtension(path, InputTable[4].0); Ok(A3xxShader(Operands.FragmentShader))
    else if CheckExtension(path, ".co3") then assert HasExtension(path, InputTable[5].0); Ok(A3xxShader(Operands.ComputeShader))
    else Err(UnknownExtension)
  }

  /** A path matches at most one of the extensions, so the order of the tests does not matter. */
  lemma ExtensionsExclusive(path: string, i: nat, j: nat)
    requires i < j < |InputTable|
    ensures !(HasExtension(path, InputTable[i].0) && HasExtension(path, InputTable[j].0))
  {
    var a, b := InputTable[i].0, InputTable[j].0;
    if |a| <= |path| && |b| <= |path| {
      SuffixChar(path, a, |a| - 1);
      SuffixChar(path, a, |a| - 2);
      SuffixChar(path, a, |a| - 3);
      SuffixChar(path, b, |b| - 1);
      SuffixChar(path, b, |b| - 2);
      SuffixChar(path, b, |b| - 3);
    }
  }

  /** A file named `<stem><ext>`, for any stem, including the empty one, and any extension of the table, is read as that extension says. */
  lemma ClassifyByExtension(stem: string, i: nat)
    requires i < |InputTable|
    ensures ClassifyInput(stem + InputTable[i].0) == Ok(InputTable[i].1)
  {
    var ext := InputTable[i].0;
    var path := stem + ext;
    assert path[|path| - |ext|..] == ext;
    forall j | 0 <= j < |InputTable| && j != i
      ensures !HasExtension(path, InputTable[j].0)
    {
      if j < i { ExtensionsExclusive(path, j, i); } else { ExtensionsExclusive(path, i, j); }
    }
    assert HasExtension(path, ext);
  }

  /** The byte offset of `v2.unknown10`: the word after the ten fixed words of a uniform record. */
  const UniformV2Field: nat := 40

  /** `is_uniform_v2`: the record has the second layout when that word is zero. */
  predicate IsUniformV2(u: seq<byte>)
    requires |u| >= UniformV2Field + 4
  {
    Le32(u, UniformV2Field) == 0
  }

  /** The second layout is recognised by four zero bytes at offset 40. */
  lemma UniformV2Bytes(u: seq<byte>)
    requires |u| >= UniformV2Field + 4
    ensures IsUniformV2(u) <==> u[40..44] == [0, 0, 0, 0]
  {
    if u[40..44] == [0, 0, 0, 0] {
      assert u[40] == u[40..44][0] && u[41] == u[40..44][1] && u[42] == u[40..44][2] && u[43] == u[40..44][3];
    }
    if IsUniformV2(u) {
      assert u[40..44] == [u[40], u[41], u[42], u[43]];
    }
  }
}
