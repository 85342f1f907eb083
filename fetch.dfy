/**
 * The FETCH decoder (`disasm_fetch`): fixed fields of a three-word slot,
 * then one of two tails, VERTEX or everything else.
 */
module Fetch {
  import opened Base
  import opened Numerals
  import opened OpTables
  import opened Operands
  import opened Layout

  /** The fields only one kind of fetch reads. */
  datatype FetchSource =
    | VertexSource(chan: nat, signed: bool, format: nat, stride: nat)
    | SampleSource(swiz: nat)

  /** A decoded FETCH slot. */
  datatype FetchInstr = FetchInstr(opc: nat, srcReg: nat, dstReg: nat, constIdx: nat, dstSwiz: nat, src: FetchSource)

  /** Every field within its width, and the VERTEX tail exactly for the VERTEX opcode. */
  predicate WellFormed(f: FetchInstr)
  {
    && f.opc < 0x20 && f.srcReg < 0x40 && f.dstReg < 0x40 && f.constIdx < 0x10 && f.dstSwiz < 0x1000
    && (f.src.VertexSource? <==> f.opc == FetchVertex)
    && match f.src
       case VertexSource(chan, _, format, stride) => chan < 4 && format < 0x40 && stride < 0x100
       case SampleSource(swiz) => swiz < 0x40
  }

  /**
   * The fields `disasm_fetch` extracts: opcode dw0[0:5), source register
   * dw0[5:11), destination register dw0[12:18), constant dw0[20:24),
   * destination swizzle dw1[0:12); for VERTEX the source channel dw0[25:27),
   * sign dw1 bit 12, format dw1[16:22) and stride dw2[0:8); otherwise the
   * source swizzle dw0[26:32).
   */
  function DecodeFetch(w0: u32, w1: u32, w2: u32): (f: FetchInstr)
    ensures WellFormed(f)
  {
    var opc := w0 % 0x20;
    FetchInstr(opc, w0 / 0x20 % 0x40, w0 / 0x1000 % 0x40, w0 / 0x10_0000 % 0x10, w1 % 0x1000,
      if opc == FetchVertex
      then VertexSource(w0 / 0x200_0000 % 4, w1 / 0x1000 % 2 == 1, w1 / 0x1_0000 % 0x40, w2 % 0x100)
      else SampleSource(w0 / 0x400_0000 % 0x40))
  }

  /** The three words of a slot holding `f`, with every bit the decoder ignores cleared. */
  function EncodeFetch(f: FetchInstr): (w: (u32, u32, u32))
    requires WellFormed(f)
  {
    var common := f.opc + 0x20 * f.srcReg + 0x1000 * f.dstReg + 0x10_0000 * f.constIdx;
    match f.src
    case VertexSource(chan, signed, format, stride) =>
      (common + 0x200_0000 * chan, f.dstSwiz + 0x1000 * (if signed then 1 else 0) + 0x1_0000 * format, stride)
    case SampleSource(swiz) =>
      (common + 0x400_0000 * swiz, f.dstSwiz, 0)
  }

  /** The first word of a VERTEX slot splits back into its fields. */
  lemma VertexWord0(w: nat, op: nat, sr: nat, dr: nat, ci: nat, ch: nat)
    requires op < 0x20 && sr < 0x40 && dr < 0x40 && ci < 0x10 && ch < 4
    requires w == op + 0x20 * sr + 0x1000 * dr + 0x10_0000 * ci + 0x200_0000 * ch
    ensures w % 0x20 == op && w / 0x20 % 0x40 == sr && w / 0x1000 % 0x40 == dr
    ensures w / 0x10_0000 % 0x10 == ci && w / 0x200_0000 % 4 == ch
  {
    Pack(op, sr + 0x80 * dr + 0x8000 * ci + 0x10_0000 * ch, 0x20);
    FieldOf(w, 0x20, 0x40, op, sr, 2 * dr + 0x200 * ci + 0x4000 * ch);
    FieldOf(w, 0x1000, 0x40, op + 0x20 * sr, dr, 4 * ci + 0x80 * ch);
    FieldOf(w, 0x10_0000, 0x10, op + 0x20 * sr + 0x1000 * dr, ci, 2 * ch);
    FieldOf(w, 0x200_0000, 4, op + 0x20 * sr + 0x1000 * dr + 0x10_0000 * ci, ch, 0);
  }

  /** The first word of any other slot splits back into its fields. */
  lemma SampleWord0(w: nat, op: nat, sr: nat, dr: nat, ci: nat, sw: nat)
    requires op < 0x20 && sr < 0x40 && dr < 0x40 && ci < 0x10 && sw < 0x40
    requires w == op + 0x20 * sr + 0x1000 * dr + 0x10_0000 * ci + 0x400_0000 * sw
    ensures w % 0x20 == op && w / 0x20 % 0x40 == sr && w / 0x1000 % 0x40 == dr
    ensures w / 0x10_0000 % 0x10 == ci && w / 0x400_0000 % 0x40 == sw
  {
    Pack(op, sr + 0x80 * dr + 0x8000 * ci + 0x20_0000 * sw, 0x20);
    FieldOf(w, 0x20, 0x40, op, sr, 2 * dr + 0x200 * ci + 0x8000 * sw);
    FieldOf(w, 0x1000, 0x40, op + 0x20 * sr, dr, 4 * ci + 0x100 * sw);
    FieldOf(w, 0x10_0000, 0x10, op + 0x20 * sr + 0x1000 * dr, ci, 4 * sw);
    FieldOf(w, 0x400_0000, 0x40, op + 0x20 * sr + 0x1000 * dr + 0x10_0000 * ci, sw, 0);
  }

  /** The second word of a VERTEX slot splits back into swizzle, sign and format. */
  lemma VertexWord1(w: nat, swz: nat, sg: nat, fm: nat)
    requires swz < 0x1000 && sg < 2 && fm < 0x40
    requires w == swz + 0x1000 * sg + 0x1_0000 * fm
    ensures w % 0x1000 == swz && w / 0x1000 % 2 == sg && w / 0x1_0000 % 0x40 == fm
  {
    Pack(swz, sg + 0x10 * fm, 0x1000);
    FieldOf(w, 0x1000, 2, swz, sg, 8 * fm);
    FieldOf(w, 0x1_0000, 0x40, swz + 0x1000 * sg, fm, 0);
  }

  /** Decoding an encoded slot gives the instruction back. */
  lemma DecodeEncodeFetch(f: FetchInstr)
    requires WellFormed(f)
    ensures var (w0, w1, w2) := EncodeFetch(f); DecodeFetch(w0, w1, w2) == f
  {
    var (w0, w1, w2) := EncodeFetch(f);
    match f.src
    case VertexSource(ch, signed, fm, stride) =>
      VertexWord0(w0, f.opc, f.srcReg, f.dstReg, f.constIdx, ch);
      VertexWord1(w1, f.dstSwiz, if signed then 1 else 0, fm);
    case SampleSource(sw) =>
      SampleWord0(w0, f.opc, f.srcReg, f.dstReg, f.constIdx, sw);
  }

  /** Destination channel `i`: `chan_names[(dst_swiz >> 3i) & 7]`. */
  function DstChar(dstSwiz: nat, i: nat): char
  {
    ChanNames[Shr(dstSwiz, 3 * i) % 8]
  }

  function DstSwizzleText(dstSwiz: nat): string
  {
    [DstChar(dstSwiz, 0), DstChar(dstSwiz, 1), DstChar(dstSwiz, 2), DstChar(dstSwiz, 3)]
  }

  /** Source channel `i` of a non-VERTEX fetch: `chan_names[(src_swiz >> 2i) & 3]`. */
  function SampleChar(swiz: nat, i: nat): char
  {
    ChanNames[Shr(swiz, 2 * i) % 4]
  }

  function SampleSwizzleText(swiz: nat): string
  {
    [SampleChar(swiz, 0), SampleChar(swiz, 1), SampleChar(swiz, 2)]
  }

  /** The field a four-character destination swizzle denotes, three bits per channel. */
  function DstSwizzleValue(t: string): nat
    requires |t| == 4
  {
    ChanCode(t[0]) + 8 * ChanCode(t[1]) + 64 * ChanCode(t[2]) + 512 * ChanCode(t[3])
  }

  lemma ModSplit4096(x: nat)
    ensures x % 0x1000 == x % 8 + 8 * (x / 8 % 0x200)
  {
    var q := x / 8;
    assert q == 0x200 * (q / 0x200) + q % 0x200;
    Pack(x % 8 + 8 * (q % 0x200), q / 0x200, 8 * 0x200);
  }

  lemma ModSplit512(x: nat)
    ensures x % 0x200 == x % 8 + 8 * (x / 8 % 64)
  {
    var q := x / 8;
    assert q == 64 * (q / 64) + q % 64;
    Pack(x % 8 + 8 * (q % 64), q / 64, 8 * 64);
  }

  lemma ModSplit64(x: nat)
    ensures x % 64 == x % 8 + 8 * (x / 8 % 8)
  {
    var q := x / 8;
    assert q == 8 * (q / 8) + q % 8;
    Pack(x % 8 + 8 * (q % 8), q / 8, 8 * 8);
  }

  lemma Base8Digits(x: nat)
    ensures x % 0x1000 == x % 8 + 8 * (x / 8 % 8) + 64 * (x / 8 / 8 % 8) + 512 * (x / 8 / 8 / 8 % 8)
  {
    ModSplit4096(x);
    ModSplit512(x / 8);
    ModSplit64(x / 8 / 8);
  }

  /** The printed destination swizzle determines the twelve-bit field. */
  lemma DstSwizzleRecovers(dstSwiz: nat)
    ensures DstSwizzleValue(DstSwizzleText(dstSwiz)) == dstSwiz % 0x1000
  {
    ShrStep(dstSwiz, 0);
    ShrStep(dstSwiz, 3);
    ShrStep(dstSwiz, 6);
    assert Shr(dstSwiz, 0) == dstSwiz;
    ChanCodeOf(dstSwiz % 8);
    ChanCodeOf(dstSwiz / 8 % 8);
    ChanCodeOf(dstSwiz / 8 / 8 % 8);
    ChanCodeOf(dstSwiz / 8 / 8 / 8 % 8);
    Base8Digits(dstSwiz);
  }

  /** Fetch opcode 0x1f: `fetch_instructions` has only 0x1f entries. */
  datatype FetchError = OpcodeOutOfTable

  function FetchMnemonic(opc: nat): string
    requires opc < 0x1f
  {
    match FetchOpName(opc)
    case Some(name) => name
    case None => "OP(" + Dec(opc) + ")"
  }

  function FormatName(e: Encoding, format: nat): string
  {
    match FetchTypeName(e, format)
    case Some(name) => name
    case None => "TYPE(0x" + Hex(format) + ")"
  }

  /** What follows " = R<src>." for a VERTEX fetch. */
  function VertexTail(e: Encoding, chan: nat, signed: bool, format: nat, stride: nat): string
  {
    [ChanNames[chan % 4]] + " " + FormatName(e, format) + " " + (if signed then "SIGNED" else "UNSIGNED")
    + " STRIDE(" + Dec(stride) + ")"
  }

  function SourceText(e: Encoding, srcReg: nat, src: FetchSource): string
  {
    " = R" + Dec(srcReg) + "."
    + match src
      case VertexSource(chan, signed, format, stride) => VertexTail(e, chan, signed, format, stride)
      case SampleSource(swiz) => SampleSwizzleText(swiz)
  }

  /** The text before the destination swizzle. */
  function FetchHead(level: nat, sync: bool, opc: nat, dstReg: nat): string
    requires level < 15 && opc < 0x1f
  {
    Indent(level) + "   " + SyncMark(sync) + "FETCH:\t" + FetchMnemonic(opc) + "\tR" + Dec(dstReg) + "."
  }

  /** The line `disasm_fetch` prints for a decoded slot (without its newline). */
  function FetchLine(e: Encoding, level: nat, sync: bool, f: FetchInstr): (r: Result<string, FetchError>)
    requires level < 15
    ensures r.Err? <==> f.opc >= 0x1f
    ensures r.Ok? ==> var t := " CONST(" + Dec(f.constIdx) + ")"; |t| <= |r.value| && r.value[|r.value| - |t|..] == t
  {
    if f.opc >= 0x1f then Err(OpcodeOutOfTable)
    else
      Ok(FetchHead(level, sync, f.opc, f.dstReg) + DstSwizzleText(f.dstSwiz)
         + SourceText(e, f.srcReg, f.src) + (" CONST(" + Dec(f.constIdx) + ")"))
  }

  /** The destination swizzle loop: three bits per channel. */
  method PrintDstSwizzle(dstSwiz: nat) returns (s: string)
    ensures s == DstSwizzleText(dstSwiz)
  {
    s := "";
    var sw := dstSwiz;
    var i := 0;
    while i < 4
      invariant 0 <= i <= 4
      invariant sw == Shr(dstSwiz, 3 * i)
      invariant s == DstSwizzleText(dstSwiz)[..i]
    {
      ShrStep(dstSwiz, 3 * i);
      s := s + [ChanNames[sw % 8]];
      sw := sw / 8;
      i := i + 1;
    }
  }

  /** The source swizzle loop of a non-VERTEX fetch: two bits per channel, three channels. */
  method PrintSampleSwizzle(swiz: nat) returns (s: string)
    ensures s == SampleSwizzleText(swiz)
  {
    s := "";
    var sw := swiz;
    var i := 0;
    while i < 3
      invariant 0 <= i <= 3
      invariant sw == Shr(swiz, 2 * i)
      invariant s == SampleSwizzleText(swiz)[..i]
    {
      ShrStep(swiz, 2 * i);
      s := s + [ChanNames[sw % 4]];
      sw := sw / 4;
      i := i + 1;
    }
  }

  /** `disasm_fetch`: extracts the fields, then prints channel by channel. */
  method DisasmFetch(e: Encoding, w0: u32, w1: u32, w2: u32, level: nat, sync: bool) returns (r: Result<string, FetchError>)
    requires level < 15
    ensures r == FetchLine(e, level, sync, DecodeFetch(w0, w1, w2))
  {
    var srcConst := w0 / 0x10_0000 % 0x10;
    var srcReg := w0 / 0x20 % 0x40;
    var dstReg := w0 / 0x1000 % 0x40;
    var fetchOpc := w0 % 0x20;
    var dstSwiz := w1 % 0x1000;
    if fetchOpc >= 0x1f {
      return Err(OpcodeOutOfTable);
    }
    var s := Indent(level) + "   " + SyncMark(sync) + "FETCH:\t" + FetchMnemonic(fetchOpc) + "\tR" + Dec(dstReg) + ".";
    var dst := PrintDstSwizzle(dstSwiz);
    s := s + dst;
    var tail := " = R" + Dec(srcReg) + ".";
    if fetchOpc == FetchVertex {
      var srcSwiz := w0 / 0x200_0000 % 4;
      var sign := w1 / 0x1000 % 2;
      var format := w1 / 0x1_0000 % 0x40;
      var stride := w2 % 0x100;
      var fields := [ChanNames[srcSwiz % 4]] + " " + FormatName(e, format)
        + " " + (if sign == 1 then "SIGNED" else "UNSIGNED") + " STRIDE(" + Dec(stride) + ")";
      tail := tail + fields;
    } else {
      var srcSwiz := w0 / 0x400_0000 % 0x40;
      var chans := PrintSampleSwizzle(srcSwiz);
      tail := tail + chans;
    }
    s := s + tail + (" CONST(" + Dec(srcConst) + ")");
    return Ok(s);
  }

  /** Every opcode but 0x1f prints; VERTEX and SAMPLE print their names, the rest `OP(<opcode>)`. */
  lemma FetchMnemonics(opc: nat)
    requires opc < 0x1f
    ensures opc == FetchVertex ==> FetchMnemonic(opc) == "VERTEX"
    ensures opc == FetchSample ==> FetchMnemonic(opc) == "SAMPLE"
    ensures opc != FetchVertex && opc != FetchSample ==>
      var t := FetchMnemonic(opc);
      |t| >= 4 && t[..3] == "OP(" && t[|t| - 1] == ')' && Value(t[3..|t| - 1], 10) == opc
  {
    if opc != FetchVertex && opc != FetchSample {
      var t := FetchMnemonic(opc);
      assert t[3..|t| - 1] == Dec(opc);
      ValueOfDigits(opc, 10);
    }
  }

  /** An unnamed format prints as `TYPE(0x<format>)`, from which the format can be read back. */
  lemma FormatFallbackRecovers(e: Encoding, format: nat)
    requires FetchTypeName(e, format).None?
    ensures var t := FormatName(e, format);
      |t| >= 8 && t[..7] == "TYPE(0x" && t[|t| - 1] == ')' && Value(t[7..|t| - 1], 16) == format
  {
    var t := FormatName(e, format);
    assert t[7..|t| - 1] == Hex(format);
    ValueOfDigits(format, 16);
  }

  lemma SmallDecimals()
    ensures Dec(0) == "0" && Dec(2) == "2" && Dec(4) == "4" && Dec(12) == "12"
  {
    assert Dec(12) == Dec(1) + [DigitChar(2)];
  }

  lemma SwizzleXyz1()
    ensures DstSwizzleText(2696) == "xyz1"
  {
    assert Shr(2696, 0) == 2696;
    ShrStep(2696, 0);
    ShrStep(2696, 3);
    ShrStep(2696, 6);
    assert Shr(2696, 3) == 337 && Shr(2696, 6) == 42 && Shr(2696, 9) == 5;
    assert DstChar(2696, 0) == 'x' && DstChar(2696, 1) == 'y';
    assert DstChar(2696, 2) == 'z' && DstChar(2696, 3) == '1';
  }

  lemma ExampleHead()
    ensures FetchHead(0, false, FetchVertex, 2) == "\t      FETCH:\tVERTEX\tR2."
  {
    SmallDecimals();
  }

  lemma ExampleTail(e: Encoding, fmt: nat)
    requires FetchTypeName(e, fmt) == Some("FMT_32_32_32_FLOAT")
    ensures VertexTail(e, 0, true, fmt, 12) == "x" + " " + "FMT_32_32_32_FLOAT" + " " + "SIGNED" + " STRIDE(12)"
  {
    SmallDecimals();
    assert [ChanNames[0 % 4]] == "x";
    assert FormatName(e, fmt) == "FMT_32_32_32_FLOAT";
    var x := [ChanNames[0 % 4]] + " " + FormatName(e, fmt) + " " + "SIGNED";
    Assoc(x + " STRIDE(", Dec(12), ")");
    Assoc(x, " STRIDE(", Dec(12) + ")");
    Assoc(" STRIDE(", Dec(12), ")");
    assert " STRIDE(" + Dec(12) + ")" == " STRIDE(12)";
  }

  lemma ExampleSource(e: Encoding, fmt: nat)
    requires FetchTypeName(e, fmt) == Some("FMT_32_32_32_FLOAT")
    ensures SourceText(e, 0, VertexSource(0, true, fmt, 12))
      == " = R0." + ("x" + " " + "FMT_32_32_32_FLOAT" + " " + "SIGNED" + " STRIDE(12)")
  {
    SmallDecimals();
    ExampleTail(e, fmt);
    assert " = R" + Dec(0) + "." == " = R0.";
  }

  /** A VERTEX fetch from R0.x into R2.xyz1 of a signed three-float element with stride 12 and constant 4. */
  lemma VertexFetchExample(e: Encoding, fmt: nat)
    requires FetchTypeName(e, fmt) == Some("FMT_32_32_32_FLOAT")
    ensures FetchLine(e, 0, false, FetchInstr(FetchVertex, 0, 2, 4, 2696, VertexSource(0, true, fmt, 12)))
      == Ok("\t      FETCH:\tVERTEX\tR2." + "xyz1"
            + (" = R0." + ("x" + " " + "FMT_32_32_32_FLOAT" + " " + "SIGNED" + " STRIDE(12)")) + " CONST(4)")
  {
    ExampleHead();
    ExampleSource(e, fmt);
    SwizzleXyz1();
    SmallDecimals();
    assert " CONST(" + Dec(4) + ")" == " CONST(4)";
  }
}
