/**
 * ALU operand rendering: source registers with their modifiers and
 * swizzle, destination registers with their write mask, and the comment
 * that names a fixed-function export.
 */
module Operands {
  import opened Base
  import opened Numerals

  /** `chan_names`; the last four only appear in FETCH destinations. */
  const ChanNames: string := "xyzw01?_"

  /** The position of a character in `chan_names` (anything else counts as 0). */
  function ChanCode(c: char): nat
  {
    if c == 'y' then 1 else if c == 'z' then 2 else if c == 'w' then 3
    else if c == '0' then 4 else if c == '1' then 5 else if c == '?' then 6 else if c == '_' then 7
    else 0
  }

  lemma ChanCodeOf(k: nat)
    requires k < 8
    ensures ChanCode(ChanNames[k]) == k
  {
  }

  /** A source operand as the ALU slot encodes it: register, bank select, swizzle, negate, abs. */
  datatype SrcOperand = SrcOperand(reg: nat, isReg: bool, swiz: nat, negate: bool, abs: bool)

  /** Channel `i` of a source swizzle: `chan_names[((swiz >> 2i) + i) & 3]`. */
  function SwizzleChar(swiz: nat, i: nat): char
  {
    ChanNames[(Shr(swiz, 2 * i) + i) % 4]
  }

  function SwizzleText(swiz: nat): string
  {
    [SwizzleChar(swiz, 0), SwizzleChar(swiz, 1), SwizzleChar(swiz, 2), SwizzleChar(swiz, 3)]
  }

  lemma SwizzleTextAt(swiz: nat, i: nat)
    requires i < 4
    ensures SwizzleText(swiz)[i] == SwizzleChar(swiz, i)
  {
  }

  /** The text `print_srcreg` prints for an operand. */
  function SrcText(op: SrcOperand): string
  {
    (if op.negate then "-" else "")
    + (if op.abs then "|" else "")
    + [if op.isReg then 'R' else 'C'] + Dec(op.reg)
    + (if op.swiz != 0 then "." + SwizzleText(op.swiz) else "")
    + (if op.abs then "|" else "")
  }

  /** The swizzle loop of `print_srcreg`: two bits per channel, shifted out as it goes. */
  method PrintSwizzle(swiz: nat) returns (t: string)
    ensures t == SwizzleText(swiz)
  {
    t := "";
    var sw := swiz;
    var i := 0;
    while i < 4
      invariant 0 <= i <= 4
      invariant sw == Shr(swiz, 2 * i)
      invariant t == SwizzleText(swiz)[..i]
    {
      ShrStep(swiz, 2 * i);
      SwizzleTextAt(swiz, i);
      TakeStep(SwizzleText(swiz), i);
      t := t + [ChanNames[(sw + i) % 4]];
      sw := sw / 4;
      i := i + 1;
    }
  }

  /** `print_srcreg`: sign, abs bar, bank letter and decimal register, the swizzle when it is not zero, closing bar. */
  method PrintSrcReg(num: nat, isReg: bool, swiz: nat, negate: bool, abs: bool) returns (s: string)
    ensures s == SrcText(SrcOperand(num, isReg, swiz, negate, abs))
  {
    ghost var neg := if negate then "-" else "";
    ghost var bar := if abs then "|" else "";
    s := "";
    if negate {
      s := s + "-";
    }
    if abs {
      s := s + "|";
    }
    assert s == neg + bar;
    s := s + [if isReg then 'R' else 'C'] + Dec(num);
    ghost var pre := s;
    ghost var mid := if swiz != 0 then "." + SwizzleText(swiz) else "";
    if swiz != 0 {
      var channels := PrintSwizzle(swiz);
      s := s + "." + channels;
      Assoc(pre, ".", channels);
    }
    assert s == pre + mid;
    if abs {
      s := s + "|";
    }
    assert s == pre + mid + bar;
  }

  /** The swizzle a four-letter text denotes: channel `i` contributes `(index - i) mod 4` at bits 2i. */
  function SwizzleValue(t: string): nat
    requires |t| == 4
  {
    (ChanCode(t[0]) + 4) % 4
    + 4 * ((ChanCode(t[1]) + 3) % 4)
    + 16 * ((ChanCode(t[2]) + 2) % 4)
    + 64 * ((ChanCode(t[3]) + 1) % 4)
  }

  /** Channel `i` of the printed swizzle gives back bits 2i..2i+1 of the field. */
  lemma SwizzleCharRecovers(swiz: nat, i: nat)
    requires i < 4
    ensures (ChanCode(SwizzleChar(swiz, i)) + 4 - i) % 4 == Shr(swiz, 2 * i) % 4
  {
    ChanCodeOf((Shr(swiz, 2 * i) + i) % 4);
  }

  lemma ModSplit256(x: nat)
    ensures x % 256 == x % 4 + 4 * (x / 4 % 64)
  {
  }

  lemma ModSplit64(x: nat)
    ensures x % 64 == x % 4 + 4 * (x / 4 % 16)
  {
  }

  lemma ModSplit16(x: nat)
    ensures x % 16 == x % 4 + 4 * (x / 4 % 4)
  {
  }

  lemma Base4Digits(x: nat)
    ensures x % 256 == x % 4 + 4 * (x / 4 % 4) + 16 * (x / 4 / 4 % 4) + 64 * (x / 4 / 4 / 4 % 4)
  {
    ModSplit256(x);
    ModSplit64(x / 4);
    ModSplit16(x / 4 / 4);
  }

  /** The printed swizzle determines the low eight bits of the field. */
  lemma SwizzleRecovers(swiz: nat)
    ensures SwizzleValue(SwizzleText(swiz)) == swiz % 256
  {
    var t := SwizzleText(swiz);
    ShrStep(swiz, 0);
    ShrStep(swiz, 2);
    ShrStep(swiz, 4);
    assert Shr(swiz, 0) == swiz;
    SwizzleCharRecovers(swiz, 0);
    SwizzleCharRecovers(swiz, 1);
    SwizzleCharRecovers(swiz, 2);
    SwizzleCharRecovers(swiz, 3);
    Base4Digits(swiz);
  }

  /** A non-zero eight-bit swizzle never prints as the identity "xyzw". */
  lemma NoIdentitySwizzle(swiz: nat)
    requires 0 < swiz < 256
    ensures SwizzleText(swiz) != "xyzw"
  {
    SwizzleRecovers(swiz);
    assert SwizzleValue("xyzw") == 0;
  }

  /** Printed numbers hold digits only. */
  lemma NoDotInNumber(n: nat)
    ensures '.' !in Dec(n) && '|' !in Dec(n)
  {
    var d := Dec(n);
    forall i | 0 <= i < |d| ensures d[i] != '.' && d[i] != '|' {
      assert IsDigitChar(d[i]);
    }
  }

  /**
   * How the operand text reads: a leading '-' exactly when negated, '|' at
   * the end exactly when absolute, the bank letter after the modifiers, and
   * a '.' exactly when a swizzle follows.
   */
  lemma SrcTextShape(op: SrcOperand)
    ensures var t := SrcText(op);
      && |t| >= 2
      && (t[0] == '-' <==> op.negate)
      && (t[|t| - 1] == '|' <==> op.abs)
      && t[(if op.negate then 1 else 0) + (if op.abs then 1 else 0)] == (if op.isReg then 'R' else 'C')
      && ('.' in t <==> op.swiz != 0)
  {
    var neg := if op.negate then "-" else "";
    var bar := if op.abs then "|" else "";
    var d := Dec(op.reg);
    var sw := if op.swiz != 0 then "." + SwizzleText(op.swiz) else "";
    var body := [if op.isReg then 'R' else 'C'] + d + sw;
    Assoc(neg + bar + [if op.isReg then 'R' else 'C'], d, sw);
    Assoc(neg + bar, [if op.isReg then 'R' else 'C'], d + sw);
    Assoc([if op.isReg then 'R' else 'C'], d, sw);
    assert SrcText(op) == neg + bar + body + bar;
    BodyShape(op.isReg, op.reg, op.swiz);
    FramedText(neg, bar, body);
  }

  /** The bank letter, register number and swizzle of an operand: no '|' at the end, a '.' just when swizzled. */
  lemma BodyShape(isReg: bool, reg: nat, swiz: nat)
    ensures var sw := if swiz != 0 then "." + SwizzleText(swiz) else "";
      var body := [if isReg then 'R' else 'C'] + Dec(reg) + sw;
      && |body| >= 2 && body[0] == (if isReg then 'R' else 'C') && body[|body| - 1] != '|'
      && ('.' in body <==> swiz != 0)
  {
    var d := Dec(reg);
    var sw := if swiz != 0 then "." + SwizzleText(swiz) else "";
    var body := [if isReg then 'R' else 'C'] + d + sw;
    NoDotInNumber(reg);
    if swiz != 0 {
      assert body[|body| - 1] == SwizzleChar(swiz, 3);
      assert body[|body| - 5] == '.';
    } else {
      assert body[|body| - 1] == d[|d| - 1];
      assert d[|d| - 1] in d;
      assert forall i :: 0 <= i < |body| ==> body[i] == '.' ==> i > 0 && d[i - 1] == '.';
    }
  }

  /** A body between optional modifiers: where each modifier shows and where the body starts. */
  lemma FramedText(neg: string, bar: string, body: string)
    requires neg == "" || neg == "-"
    requires bar == "" || bar == "|"
    requires |body| >= 2 && body[0] != '-' && body[0] != '|' && body[|body| - 1] != '|'
    ensures var t := neg + bar + body + bar;
      && |t| >= 2
      && (t[0] == '-' <==> neg == "-")
      && (t[|t| - 1] == '|' <==> bar == "|")
      && t[|neg| + |bar|] == body[0]
      && ('.' in t <==> '.' in body)
  {
    var t := neg + bar + body + bar;
    assert t[|neg| + |bar|] == body[0];
    assert '.' in body ==> '.' in t by {
      if '.' in body {
        var i :| 0 <= i < |body| && body[i] == '.';
        assert t[|neg| + |bar| + i] == '.';
      }
    }
  }

  /** Channel `i` of a destination write mask: the channel letter if bit `i` is set, else '_'. */
  function MaskChar(mask: nat, i: nat): char
    requires i < 4
  {
    if Bit(mask, i) == 1 then ChanNames[i] else '_'
  }

  function MaskText(mask: nat): string
  {
    [MaskChar(mask, 0), MaskChar(mask, 1), MaskChar(mask, 2), MaskChar(mask, 3)]
  }

  /** The text `print_dstreg` prints: `export<n>` or `R<n>`, then the mask unless it is exactly 0xf. */
  function DstText(reg: nat, mask: nat, isExport: bool): string
  {
    (if isExport then "export" else "R") + Dec(reg) + (if mask != 0xf then "." + MaskText(mask) else "")
  }

  /** `print_dstreg`: the mask loop consumes one bit per channel. */
  method PrintDstReg(num: nat, mask: nat, dstExp: bool) returns (s: string)
    ensures s == DstText(num, mask, dstExp)
  {
    s := (if dstExp then "export" else "R") + Dec(num);
    if mask != 0xf {
      s := s + ".";
      ghost var head := s;
      var m := mask;
      var i := 0;
      while i < 4
        invariant 0 <= i <= 4
        invariant m == Shr(mask, i)
        invariant s == head + MaskText(mask)[..i]
      {
        ShrStep(mask, i);
        s := s + [if m % 2 == 1 then ChanNames[i] else '_'];
        m := m / 2;
        i := i + 1;
      }
    }
  }

  /** The write mask a four-character mask text denotes. */
  function MaskValue(t: string): nat
    requires |t| == 4
  {
    (if t[0] != '_' then 1 else 0) + (if t[1] != '_' then 2 else 0)
    + (if t[2] != '_' then 4 else 0) + (if t[3] != '_' then 8 else 0)
  }

  lemma HalveMod16(x: nat)
    ensures x % 16 == x % 2 + 2 * (x / 2 % 8)
  {
  }

  lemma HalveMod8(x: nat)
    ensures x % 8 == x % 2 + 2 * (x / 2 % 4)
  {
  }

  lemma HalveMod4(x: nat)
    ensures x % 4 == x % 2 + 2 * (x / 2 % 2)
  {
  }

  lemma Base2Digits(x: nat)
    ensures x % 16 == x % 2 + 2 * (x / 2 % 2) + 4 * (x / 2 / 2 % 2) + 8 * (x / 2 / 2 / 2 % 2)
  {
    HalveMod16(x);
    HalveMod8(x / 2);
    HalveMod4(x / 2 / 2);
  }

  /** The printed mask determines the low four bits of the field. */
  lemma MaskRecovers(mask: nat)
    ensures MaskValue(MaskText(mask)) == mask % 16
  {
    ShrStep(mask, 0);
    ShrStep(mask, 1);
    ShrStep(mask, 2);
    assert Shr(mask, 0) == mask;
    Base2Digits(mask);
  }

  /** The destination text carries a channel suffix exactly when the mask is not 0xf. */
  lemma DstSuffix(reg: nat, mask: nat, isExport: bool)
    ensures '.' in DstText(reg, mask, isExport) <==> mask != 0xf
  {
    var d := Dec(reg);
    var name := (if isExport then "export" else "R") + d;
    assert '.' !in name by {
      forall i | 0 <= i < |name| ensures name[i] != '.' {
        if i >= |name| - |d| {
          assert IsDigitChar(d[i - (|name| - |d|)]);
        }
      }
    }
    if mask != 0xf {
      assert DstText(reg, mask, isExport)[|name|] == '.';
    } else {
      assert DstText(reg, mask, isExport) == name;
    }
  }

  /** `enum shader_t`: the kind the dumper picks from the file name and passes to the disassembler. */
  datatype ShaderKind = VertexShader | FragmentShader | ComputeShader

  /** The fixed-function output a destination register stands for, when exported. */
  function ExportName(reg: nat, kind: ShaderKind): Option<string>
  {
    match kind
    case VertexShader => if reg == 62 then Some("gl_Position") else if reg == 63 then Some("gl_PointSize") else None
    case FragmentShader => if reg == 0 then Some("gl_FragColor") else None
    case ComputeShader => None
  }

  /** `print_export_comment`. */
  function ExportComment(reg: nat, kind: ShaderKind): (s: string)
    ensures s != "" <==> (kind == VertexShader && reg in {62, 63}) || (kind == FragmentShader && reg == 0)
    ensures kind == VertexShader && reg == 62 ==> s == "\t; gl_Position"
    ensures kind == VertexShader && reg == 63 ==> s == "\t; gl_PointSize"
    ensures kind == FragmentShader && reg == 0 ==> s == "\t; gl_FragColor"
  {
    match ExportName(reg, kind)
    case Some(name) => "\t; " + name
    case None => ""
  }
}
