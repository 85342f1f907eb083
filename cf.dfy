/**
 * The control-flow program at the head of a shader (`parse_cf`) and the
 * header line printed for each of its clauses (`print_cf`).
 *
 * Every three-word group holds two clauses. The number of groups is not
 * stored: it is the first group's first non-zero address, because the
 * instruction slots start right after the control-flow program and each
 * group occupies one slot's worth of words.
 */
module ControlFlow {
  import opened Base
  import opened Numerals
  import opened OpTables
  import opened Layout

  /**
   * `struct cf`: address, count, opcode, sequence bits, and the offset of the
   * group's first word for the first clause of a group (`dwords`, NULL for
   * the second).
   */
  datatype Cf = Cf(addr: nat, cnt: nat, op: nat, sequence: nat, words: Option<nat>)

  /** Every field within its width. */
  predicate CfFits(c: Cf)
  {
    c.addr < 0x1000 && c.cnt < 0x10 && c.op < 0x100 && c.sequence < 0x1_0000
  }

  /** Clause A of the group at word `p`: addr dw0[0:12), cnt dw0[12:16), sequence dw0[16:32), op dw1[8:16). */
  function ClauseA(words: seq<u32>, p: nat): (c: Cf)
    requires p + 3 <= |words|
    ensures CfFits(c)
  {
    Cf(words[p] % 0x1000, words[p] / 0x1000 % 0x10, words[p + 1] / 0x100 % 0x100, words[p] / 0x1_0000 % 0x1_0000, Some(p))
  }

  /** Clause B of the group at word `p`: addr dw1[16:28), cnt dw1[28:32), op dw2[24:32), sequence dw2[0:16). */
  function ClauseB(words: seq<u32>, p: nat): (c: Cf)
    requires p + 3 <= |words|
    ensures CfFits(c)
  {
    Cf(words[p + 1] / 0x1_0000 % 0x1000, words[p + 1] / 0x1000_0000 % 0x10, words[p + 2] / 0x100_0000 % 0x100,
       words[p + 2] % 0x1_0000, None)
  }

  /** The address that tells the number of groups: clause A's if non-zero, else clause B's. */
  function FirstAddress(words: seq<u32>): nat
    requires |words| >= 3
  {
    var addr := words[0] % 0x1000;
    if addr != 0 then addr else words[1] / 0x1_0000 % 0x1000
  }

  /** The number of groups `parse_cf` reads: at least one, since its loop is a do-while. */
  function GroupCount(words: seq<u32>): (n: nat)
    requires |words| >= 3
    ensures 1 <= n < 0x1000
  {
    var off := FirstAddress(words);
    if off == 0 then 1 else off
  }

  /** The clauses of the first `n` groups, two per group, in order. */
  function Clauses(words: seq<u32>, n: nat): (cs: seq<Cf>)
    requires 3 * n <= |words|
    ensures |cs| == 2 * n
  {
    if n == 0 then [] else Clauses(words, n - 1) + [ClauseA(words, 3 * (n - 1)), ClauseB(words, 3 * (n - 1))]
  }

  /** Reading past the buffer, or more clauses than the table holds. */
  datatype ParseError = Truncated | Overflow

  /** What `parse_cf` fills in, given the buffer and the capacity of the clause table. */
  function ParsedClauses(words: seq<u32>, capacity: nat): Result<seq<Cf>, ParseError>
  {
    if |words| < 3 then Err(Truncated)
    else
      var n := GroupCount(words);
      if 3 * n > |words| then Err(Truncated)
      else if 2 * n > capacity then Err(Overflow)
      else Ok(Clauses(words, n))
  }

  /** The two stores of one group: entries `idx` and `idx + 1` of the table, nothing else. */
  method StoreGroup(cfs: array<Cf>, idx: nat, a: Cf, b: Cf)
    requires idx + 2 <= cfs.Length
    modifies cfs
    ensures cfs[..idx + 2] == old(cfs[..idx]) + [a, b]
    ensures forall j :: idx + 2 <= j < cfs.Length ==> cfs[j] == old(cfs[j])
  {
    cfs[idx] := a;
    cfs[idx + 1] := b;
  }

  /**
   * `parse_cf`: the do-while over groups, writing two entries of `cfs` per
   * group. The buffer and capacity checks the source leaves out come first,
   * so a failing parse writes nothing.
   */
  method ParseCf(words: seq<u32>, cfs: array<Cf>) returns (r: Result<nat, ParseError>)
    modifies cfs
    ensures ParsedClauses(words, cfs.Length).Err? ==> r == Err(ParsedClauses(words, cfs.Length).error)
    ensures ParsedClauses(words, cfs.Length).Ok? ==> r == Ok(|ParsedClauses(words, cfs.Length).value|)
    ensures r.Ok? ==> cfs[..r.value] == ParsedClauses(words, cfs.Length).value
    ensures r.Ok? ==> forall j :: r.value <= j < cfs.Length ==> cfs[j] == old(cfs[j])
    ensures r.Err? ==> cfs[..] == old(cfs[..])
  {
    if |words| < 3 || 3 * GroupCount(words) > |words| {
      return Err(Truncated);
    }
    if 2 * GroupCount(words) > cfs.Length {
      return Err(Overflow);
    }
    ghost var n := GroupCount(words);
    ghost var total := FirstAddress(words);
    var idx := 0;
    var off: int := 0;
    var p := 0;
    ghost var k := 0;
    while true
      invariant 0 <= k < n
      invariant idx == 2 * k && p == 3 * k
      invariant off == (if k == 0 then 0 else total - k)
      invariant k > 0 ==> off > 0
      invariant cfs[..idx] == Clauses(words, k)
      invariant forall j :: idx <= j < cfs.Length ==> cfs[j] == old(cfs[j])
      decreases n - k
    {
      var addr := words[p] % 0x1000;
      var cnt := words[p] / 0x1000 % 0x10;
      var seqn1 := words[p] / 0x1_0000 % 0x1_0000;
      var op := words[p + 1] / 0x100 % 0x100;
      var addr2 := words[p + 1] / 0x1_0000 % 0x1000;
      var cnt2 := words[p + 1] / 0x1000_0000 % 0x10;
      var op2 := words[p + 2] / 0x100_0000 % 0x100;
      var seqn2 := words[p + 2] % 0x1_0000;

      if off == 0 {
        off := if addr != 0 then addr else addr2;
      }
      assert k == 0 ==> off == total;

      StoreGroup(cfs, idx, Cf(addr, cnt, op, seqn1, Some(p)), Cf(addr2, cnt2, op2, seqn2, None));
      idx := idx + 2;
      assert cfs[..idx] == Clauses(words, k + 1);

      p := p + 3;
      k := k + 1;
      off := off - 1;
      if off <= 0 {
        assert k == n;
        break;
      }
    }
    return Ok(idx);
  }

  /** A parse yields two clauses for each of max(1, N) groups, N being the first non-zero address. */
  lemma ParsedCount(words: seq<u32>, capacity: nat)
    requires ParsedClauses(words, capacity).Ok?
    ensures var n := if FirstAddress(words) == 0 then 1 else FirstAddress(words);
      |ParsedClauses(words, capacity).value| == 2 * n && 3 * n <= |words| && 2 * n <= capacity
  {
  }

  /** Clauses 2k and 2k+1 come from group k. */
  lemma {:induction false} ClausesAt(words: seq<u32>, n: nat, k: nat)
    requires 3 * n <= |words| && k < n
    ensures Clauses(words, n)[2 * k] == ClauseA(words, 3 * k)
    ensures Clauses(words, n)[2 * k + 1] == ClauseB(words, 3 * k)
  {
    if k < n - 1 {
      ClausesAt(words, n - 1, k);
    }
  }

  /** Words after the control-flow program (the instruction slots) do not change what is parsed. */
  lemma {:induction false} ClausesIgnoreTail(words: seq<u32>, extra: seq<u32>, n: nat)
    requires 3 * n <= |words|
    ensures Clauses(words + extra, n) == Clauses(words, n)
  {
    if n > 0 {
      ClausesIgnoreTail(words, extra, n - 1);
      var p := 3 * (n - 1);
      assert (words + extra)[p] == words[p] && (words + extra)[p + 1] == words[p + 1] && (words + extra)[p + 2] == words[p + 2];
    }
  }

  /** Only the first group decides the count: changing any later word leaves it alone. */
  lemma CountFromFirstGroup(words: seq<u32>, other: seq<u32>)
    requires |words| >= 3 && |other| >= 3 && words[..2] == other[..2]
    ensures GroupCount(words) == GroupCount(other)
  {
    assert words[0] == words[..2][0] && words[1] == words[..2][1];
    assert other[0] == other[..2][0] && other[1] == other[..2][1];
  }

  /** A buffer whose first clause has address 3 parses as exactly three groups, six clauses. */
  lemma ThreeGroupFixture(words: seq<u32>)
    requires |words| >= 9 && words[0] % 0x1000 == 3
    ensures ParsedClauses(words, 64).Ok? && |ParsedClauses(words, 64).value| == 6
  {
  }

  /** The three words of a group holding clauses `a` and `b`, with the bits the parser ignores cleared. */
  function EncodeGroup(a: Cf, b: Cf): seq<u32>
    requires CfFits(a) && CfFits(b)
  {
    [a.addr + 0x1000 * a.cnt + 0x1_0000 * a.sequence,
     0x100 * a.op + 0x1_0000 * b.addr + 0x1000_0000 * b.cnt,
     b.sequence + 0x100_0000 * b.op]
  }

  lemma Word0Fields(w: nat, addr: nat, cnt: nat, sequence: nat)
    requires addr < 0x1000 && cnt < 0x10 && sequence < 0x1_0000
    requires w == addr + 0x1000 * cnt + 0x1_0000 * sequence
    ensures w % 0x1000 == addr && w / 0x1000 % 0x10 == cnt && w / 0x1_0000 % 0x1_0000 == sequence
  {
    Pack(addr, cnt + 0x10 * sequence, 0x1000);
    FieldOf(w, 0x1000, 0x10, addr, cnt, sequence);
    FieldOf(w, 0x1_0000, 0x1_0000, addr + 0x1000 * cnt, sequence, 0);
  }

  lemma Word1Fields(w: nat, op: nat, addr: nat, cnt: nat)
    requires op < 0x100 && addr < 0x1000 && cnt < 0x10
    requires w == 0x100 * op + 0x1_0000 * addr + 0x1000_0000 * cnt
    ensures w / 0x100 % 0x100 == op && w / 0x1_0000 % 0x1000 == addr && w / 0x1000_0000 % 0x10 == cnt
  {
    FieldOf(w, 0x100, 0x100, 0, op, addr + 0x1000 * cnt);
    FieldOf(w, 0x1_0000, 0x1000, 0x100 * op, addr, cnt);
    FieldOf(w, 0x1000_0000, 0x10, 0x100 * op + 0x1_0000 * addr, cnt, 0);
  }

  lemma Word2Fields(w: nat, sequence: nat, op: nat)
    requires sequence < 0x1_0000 && op < 0x100
    requires w == sequence + 0x100_0000 * op
    ensures w % 0x1_0000 == sequence && w / 0x100_0000 % 0x100 == op
  {
    Pack(sequence, op, 0x1_0000);
    FieldOf(w, 0x100_0000, 0x100, sequence, op, 0);
  }

  /** The parser reads back both clauses of an encoded group. */
  lemma {:induction false} DecodeGroup(words: seq<u32>, p: nat, a: Cf, b: Cf)
    requires CfFits(a) && CfFits(b) && a.words == Some(p) && b.words.None?
    requires p + 3 <= |words| && words[p..p + 3] == EncodeGroup(a, b)
    ensures ClauseA(words, p) == a && ClauseB(words, p) == b
  {
    var g := EncodeGroup(a, b);
    assert words[p] == g[0] && words[p + 1] == g[1] && words[p + 2] == g[2];
    Word0Fields(words[p], a.addr, a.cnt, a.sequence);
    Word1Fields(words[p + 1], a.op, b.addr, b.cnt);
    Word2Fields(words[p + 2], b.sequence, b.op);
  }

  /** A well-formed control-flow program: group k holds clause A (pointing at word 3k) and clause B. */
  predicate ProgramFits(groups: seq<(Cf, Cf)>)
  {
    forall k :: 0 <= k < |groups| ==>
      CfFits(groups[k].0) && CfFits(groups[k].1) && groups[k].0.words == Some(3 * k) && groups[k].1.words.None?
  }

  function EncodeProgram(groups: seq<(Cf, Cf)>): (words: seq<u32>)
    requires ProgramFits(groups)
    ensures |words| == 3 * |groups|
  {
    if groups == [] then []
    else EncodeProgram(groups[..|groups| - 1]) + EncodeGroup(groups[|groups| - 1].0, groups[|groups| - 1].1)
  }

  function Flatten(groups: seq<(Cf, Cf)>): (cs: seq<Cf>)
    ensures |cs| == 2 * |groups|
  {
    if groups == [] then [] else Flatten(groups[..|groups| - 1]) + [groups[|groups| - 1].0, groups[|groups| - 1].1]
  }

  lemma {:induction false} ClausesOfEncoding(groups: seq<(Cf, Cf)>, extra: seq<u32>)
    requires ProgramFits(groups)
    ensures Clauses(EncodeProgram(groups) + extra, |groups|) == Flatten(groups)
  {
    if groups != [] {
      var n := |groups|;
      var init := groups[..n - 1];
      assert ProgramFits(init) by {
        forall k | 0 <= k < |init| ensures CfFits(init[k].0) && CfFits(init[k].1) && init[k].0.words == Some(3 * k) && init[k].1.words.None? {
          assert init[k] == groups[k];
        }
      }
      var last := EncodeGroup(groups[n - 1].0, groups[n - 1].1);
      var words := EncodeProgram(groups) + extra;
      assert words == EncodeProgram(init) + (last + extra);
      ClausesOfEncoding(init, last + extra);
      var p := 3 * (n - 1);
      assert words[p..p + 3] == last;
      DecodeGroup(words, p, groups[n - 1].0, groups[n - 1].1);
    }
  }

  /** The number of groups a program's first group announces. */
  function AnnouncedGroups(a: Cf, b: Cf): nat
  {
    var off := if a.addr != 0 then a.addr else b.addr;
    if off == 0 then 1 else off
  }

  /**
   * Parsing an encoded program gives its clauses back, whatever follows it,
   * when its first group announces its length and the table is big enough.
   */
  lemma {:induction false} ParseEncodedProgram(groups: seq<(Cf, Cf)>, extra: seq<u32>, capacity: nat)
    requires ProgramFits(groups) && |groups| > 0
    requires AnnouncedGroups(groups[0].0, groups[0].1) == |groups|
    requires 2 * |groups| <= capacity
    ensures ParsedClauses(EncodeProgram(groups) + extra, capacity) == Ok(Flatten(groups))
  {
    var words := EncodeProgram(groups) + extra;
    ClausesOfEncoding(groups, extra);
    ClausesAt(words, |groups|, 0);
    assert Flatten(groups)[0] == groups[0].0 && Flatten(groups)[1] == groups[0].1 by {
      FlattenAt(groups, 0);
    }
    assert ClauseA(words, 0).addr == words[0] % 0x1000;
    assert ClauseB(words, 0).addr == words[1] / 0x1_0000 % 0x1000;
  }

  lemma {:induction false} FlattenAt(groups: seq<(Cf, Cf)>, k: nat)
    requires k < |groups|
    ensures Flatten(groups)[2 * k] == groups[k].0 && Flatten(groups)[2 * k + 1] == groups[k].1
  {
    if k < |groups| - 1 {
      FlattenAt(groups[..|groups| - 1], k);
    }
  }

  /** Opcode 0xff: `cf_instructions` has only 0xff entries. */
  datatype CfError = OpOutOfTable(op: nat)

  /** `<prefix><n in hex>)`, the shape of every field of the fallback header. */
  function HexField(prefix: string, n: nat): string
  {
    prefix + Hex(n) + ")"
  }

  /** The numeric fallback for an opcode without a format: `CF(0x<op>) ADDR(0x<addr>) CNT(0x<cnt>)`. */
  function FallbackText(op: nat, addr: nat, cnt: nat): string
  {
    HexField("CF(0x", op) + HexField(" ADDR(0x", addr) + HexField(" CNT(0x", cnt)
  }

  /** The header `print_cf` prints for a clause (without its newline). */
  function CfText(level: nat, c: Cf): (r: Result<string, CfError>)
    requires level < 15
    ensures r.Err? <==> c.op >= 0xff
  {
    if c.op >= 0xff then Err(OpOutOfTable(c.op))
    else
      Ok(Indent(level) + match CfOp(c.op)
        case Some(entry) => Format(entry.fmt, [c.addr, c.cnt])
        case None => FallbackText(c.op, c.addr, c.cnt))
  }

  lemma FormatTwo(l1: string, l2: string, l3: string, args: seq<nat>)
    requires |args| == 2
    ensures HexArgCount([Lit(l1), HexArg, Lit(l2), HexArg, Lit(l3)]) == 2
    ensures Format([Lit(l1), HexArg, Lit(l2), HexArg, Lit(l3)], args) == l1 + (Numerals.Hex(args[0]) + (l2 + (Numerals.Hex(args[1]) + l3)))
  {
    var f := [Lit(l1), HexArg, Lit(l2), HexArg, Lit(l3)];
    assert f[1..] == [HexArg, Lit(l2), HexArg, Lit(l3)];
    assert f[2..] == [Lit(l2), HexArg, Lit(l3)];
    assert f[3..] == [HexArg, Lit(l3)];
    assert f[4..] == [Lit(l3)];
    assert f[1..][1..] == f[2..] && f[2..][1..] == f[3..] && f[3..][1..] == f[4..] && f[4..][1..] == [];
    assert HexArgCount(f[4..]) == 0;
    assert HexArgCount(f[3..]) == 1;
    assert HexArgCount(f[2..]) == 1;
    assert HexArgCount(f[1..]) == 2;
    assert args[1..][1..] == [];
    assert Format(f[4..], []) == l3;
    assert Format(f[3..], args[1..]) == Numerals.Hex(args[1]) + l3;
    assert Format(f[2..], args[1..]) == l2 + (Numerals.Hex(args[1]) + l3);
    assert Format(f[1..], args) == Numerals.Hex(args[0]) + (l2 + (Numerals.Hex(args[1]) + l3));
  }

  lemma FormatOne(l1: string, l2: string, args: seq<nat>)
    requires |args| == 2
    ensures HexArgCount([Lit(l1), HexArg, Lit(l2)]) == 1
    ensures Format([Lit(l1), HexArg, Lit(l2)], args) == l1 + (Numerals.Hex(args[0]) + l2)
  {
    var f := [Lit(l1), HexArg, Lit(l2)];
    assert f[1..] == [HexArg, Lit(l2)];
    assert f[2..] == [Lit(l2)];
    assert f[1..][1..] == f[2..] && f[2..][1..] == [];
    assert HexArgCount(f[2..]) == 0;
    assert HexArgCount(f[1..]) == 1;
    assert Format(f[2..], args[1..]) == l2;
    assert Format(f[1..], args) == Numerals.Hex(args[0]) + l2;
  }

  /** The table formats: NOP ignores both fields, EXEC and EXEC_END print both, ALLOC prints the address as a size. */
  lemma TableHeaders(level: nat, c: Cf)
    requires level < 15
    ensures c.op == 0x00 ==> CfText(level, c) == Ok(Indent(level) + "NOP")
    ensures c.op == 0x10 ==> CfText(level, c) == Ok(Indent(level) + ("EXEC ADDR(0x" + (Hex(c.addr) + (") CNT(0x" + (Hex(c.cnt) + ")")))))
    ensures c.op == 0x20 ==> CfText(level, c) == Ok(Indent(level) + ("EXEC_END ADDR(0x" + (Hex(c.addr) + (") CNT(0x" + (Hex(c.cnt) + ")")))))
    ensures c.op == 0xc2 ==> CfText(level, c) == Ok(Indent(level) + ("ALLOC COORD SIZE(0x" + (Hex(c.addr) + ")")))
    ensures c.op == 0xc4 ==> CfText(level, c) == Ok(Indent(level) + ("ALLOC PARAM/PIXEL SIZE(0x" + (Hex(c.addr) + ")")))
  {
    var args := [c.addr, c.cnt];
    assert Format([Lit("NOP")], args) == "NOP";
    FormatTwo("EXEC ADDR(0x", ") CNT(0x", ")", args);
    FormatTwo("EXEC_END ADDR(0x", ") CNT(0x", ")", args);
    FormatOne("ALLOC COORD SIZE(0x", ")", args);
    FormatOne("ALLOC PARAM/PIXEL SIZE(0x", ")", args);
  }

  /** A hex field followed by anything determines its number and what follows. */
  lemma HexFieldSplit(prefix: string, n1: nat, r1: string, n2: nat, r2: string)
    requires HexField(prefix, n1) + r1 == HexField(prefix, n2) + r2
    ensures n1 == n2 && r1 == r2
  {
    var t1 := HexField(prefix, n1) + r1;
    var t2 := HexField(prefix, n2) + r2;
    Assoc(prefix, Hex(n1), ")");
    Assoc(prefix, Hex(n1) + ")", r1);
    Assoc(prefix, Hex(n2), ")");
    Assoc(prefix, Hex(n2) + ")", r2);
    assert t1 == prefix + (Hex(n1) + [')'] + r1);
    assert t2 == prefix + (Hex(n2) + [')'] + r2);
    assert Hex(n1) + [')'] + r1 == t1[|prefix|..] == t2[|prefix|..] == Hex(n2) + [')'] + r2;
    SplitAfterDigits(Hex(n1), r1, Hex(n2), r2, ')');
    DigitsInjective(n1, n2, 16);
  }

  /** The fallback header determines the opcode, the address and the count. */
  lemma FallbackInjective(op1: nat, addr1: nat, cnt1: nat, op2: nat, addr2: nat, cnt2: nat)
    requires FallbackText(op1, addr1, cnt1) == FallbackText(op2, addr2, cnt2)
    ensures op1 == op2 && addr1 == addr2 && cnt1 == cnt2
  {
    var c1, c2 := HexField(" CNT(0x", cnt1), HexField(" CNT(0x", cnt2);
    var a1, a2 := HexField(" ADDR(0x", addr1) + c1, HexField(" ADDR(0x", addr2) + c2;
    Assoc(HexField("CF(0x", op1), HexField(" ADDR(0x", addr1), c1);
    Assoc(HexField("CF(0x", op2), HexField(" ADDR(0x", addr2), c2);
    HexFieldSplit("CF(0x", op1, a1, op2, a2);
    HexFieldSplit(" ADDR(0x", addr1, c1, addr2, c2);
    assert c1 + [] == c2 + [];
    HexFieldSplit(" CNT(0x", cnt1, [], cnt2, []);
  }
}
