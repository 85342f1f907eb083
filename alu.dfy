/**
 * The ALU decoder (`disasm_alu`): one slot holds a vector operation and, on
 * the condition below, a fused scalar operation whose only source is the
 * slot's third source field.
 *
 * The bit layout of the slot (`instr_alu_t`) is not part of this model, so
 * the decoder starts from the already-extracted fields.
 */
module Alu {
  import opened Base
  import opened Numerals
  import opened OpTables
  import opened Operands
  import opened Layout

  /** The opcode fields index tables of 0x20 and 0x40 entries. */
  type VectorOpc = x: nat | x < 0x20
  type ScalarOpc = x: nat | x < 0x40

  /** The fields of an ALU slot that the decoder reads. */
  datatype AluFields = AluFields(
    vectorOpc: VectorOpc,
    scalarOpc: ScalarOpc,
    predSelect: nat,
    vectorDest: nat,
    vectorWriteMask: nat,
    scalarDest: nat,
    scalarWriteMask: nat,
    exportData: bool,
    src1: SrcOperand,
    src2: SrcOperand,
    src3: SrcOperand)

  datatype DstOperand = DstOperand(reg: nat, mask: nat, isExport: bool)

  /** The vector half: mnemonic, condition (true for EQ, false for NE), destination, sources in print order, comment. */
  datatype VectorInstr = VectorInstr(name: string, cond: Option<bool>, dst: DstOperand, srcs: seq<SrcOperand>, comment: string)

  datatype ScalarInstr = ScalarInstr(name: string, dst: DstOperand, src: SrcOperand, comment: string)

  datatype AluInstr = AluInstr(vector: VectorInstr, scalar: Option<ScalarInstr>)

  /** A vector opcode without a table entry: the source would print a null name. */
  datatype AluError = UnnamedVectorOp(opc: nat)

  /** `pred_select`: bit 1 makes the operation conditional, bit 0 picks EQ over NE. */
  function Condition(predSelect: nat): (c: Option<bool>)
    ensures c.Some? <==> Bit(predSelect, 1) == 1
    ensures c.Some? ==> (c.value <==> Bit(predSelect, 0) == 1)
  {
    if Bit(predSelect, 1) == 1 then Some(Bit(predSelect, 0) == 1) else None
  }

  /** The sources a vector operation prints: src3 first for three sources, src2 last for more than one. */
  function VectorSources(numSrcs: nat, f: AluFields): seq<SrcOperand>
  {
    (if numSrcs == 3 then [f.src3] else []) + [f.src1] + (if numSrcs > 1 then [f.src2] else [])
  }

  /** Whether the slot carries a scalar operation. */
  predicate HasScalar(f: AluFields)
  {
    f.scalarWriteMask != 0 || f.vectorWriteMask == 0
  }

  /** The scalar mnemonic, or `OP(<opcode in decimal>)` for an opcode without a name. */
  function ScalarMnemonic(e: Encoding, opc: nat): string
  {
    match ScalarName(e, opc)
    case Some(name) => name
    case None => "OP(" + Dec(opc) + ")"
  }

  /** An unnamed scalar opcode can be read back from its fallback mnemonic. */
  lemma ScalarFallbackRecovers(e: Encoding, opc: nat)
    requires ScalarName(e, opc).None?
    ensures var t := ScalarMnemonic(e, opc);
      |t| >= 5 && t[..3] == "OP(" && t[|t| - 1] == ')' && Value(t[3..|t| - 1], 10) == opc
  {
    var t := ScalarMnemonic(e, opc);
    assert t[3..|t| - 1] == Dec(opc);
    ValueOfDigits(opc, 10);
  }

  function ExportNote(isExport: bool, reg: nat, kind: ShaderKind): string
  {
    if isExport then ExportComment(reg, kind) else ""
  }

  /** Decodes the fields of a slot into its vector and optional scalar operation. */
  function DecodeAlu(e: Encoding, kind: ShaderKind, f: AluFields): (r: Result<AluInstr, AluError>)
    ensures r.Err? <==> VectorOp(e, f.vectorOpc).None?
    ensures r.Ok? ==> r.value.vector.name == VectorOp(e, f.vectorOpc).value.name
    ensures r.Ok? ==> (r.value.scalar.Some? <==> HasScalar(f))
  {
    match VectorOp(e, f.vectorOpc)
    case None => Err(UnnamedVectorOp(f.vectorOpc))
    case Some(entry) =>
      var vector := VectorInstr(
        entry.name, Condition(f.predSelect),
        DstOperand(f.vectorDest, f.vectorWriteMask, f.exportData),
        VectorSources(entry.numSrcs, f),
        ExportNote(f.exportData, f.vectorDest, kind));
      var scalar :=
        if HasScalar(f) then
          Some(ScalarInstr(
            ScalarMnemonic(e, f.scalarOpc),
            DstOperand(f.scalarDest, f.scalarWriteMask, f.exportData),
            f.src3,
            ExportNote(f.exportData, f.scalarDest, kind)))
        else None;
      Ok(AluInstr(vector, scalar))
  }

  /**
   * The operands a decoded slot prints: as many vector sources as the
   * table gives the operation, src3 leading only for three, src2 closing
   * for two or three, and the scalar operation reading src3.
   */
  lemma DecodeAluOperands(e: Encoding, kind: ShaderKind, f: AluFields)
    requires DecodeAlu(e, kind, f).Ok?
    ensures var a := DecodeAlu(e, kind, f).value;
      && var n := VectorOp(e, f.vectorOpc).value.numSrcs;
      && 1 <= n <= 3
      && |a.vector.srcs| == n
      && a.vector.srcs[0] == (if n == 3 then f.src3 else f.src1)
      && (n > 1 ==> a.vector.srcs[n - 1] == f.src2)
      && (n == 3 <==> a.vector.name in {"MULADDv", "DOT2ADDv"})
      && (a.scalar.Some? ==> a.scalar.value.src == f.src3)
  {
    var i :| 0 <= i < |e.vectorOpcodes| && i < |VectorEntries| && e.vectorOpcodes[i] == f.vectorOpc
      && VectorEntries[i] == VectorOp(e, f.vectorOpc).value;
    VectorArities(i);
  }

  /** With distinct opcode values, every named scalar opcode prints its own mnemonic. */
  lemma ScalarMnemonicRegistered(e: Encoding, i: nat)
    requires Distinct(e.scalarOpcodes) && i < |e.scalarOpcodes| && i < |ScalarNames|
    ensures ScalarMnemonic(e, e.scalarOpcodes[i]) == ScalarNames[i]
  {
    LookupDistinct(e.scalarOpcodes, ScalarNames, i);
  }

  function CondSuffix(cond: Option<bool>): string
  {
    match cond
    case None => ""
    case Some(eq) => if eq then "EQ" else "NE"
  }

  /** The sources separated by ", ". */
  function SourceList(srcs: seq<SrcOperand>): string
  {
    if |srcs| == 0 then ""
    else if |srcs| == 1 then SrcText(srcs[0])
    else SrcText(srcs[0]) + ", " + SourceList(srcs[1..])
  }

  function VectorLine(level: nat, sync: bool, v: VectorInstr): string
    requires level < 15
  {
    Indent(level) + "   " + SyncMark(sync) + "ALU:\t" + v.name + CondSuffix(v.cond) + "\t"
    + DstText(v.dst.reg, v.dst.mask, v.dst.isExport) + " = " + SourceList(v.srcs) + v.comment
  }

  function ScalarLine(level: nat, s: ScalarInstr): string
    requires level < 15
  {
    Indent(level) + "\t    \t" + s.name + "\t"
    + DstText(s.dst.reg, s.dst.mask, s.dst.isExport) + " = " + SrcText(s.src) + s.comment
  }

  /** The lines `disasm_alu` prints for a slot (each ends in a newline there). */
  function DisasmAlu(e: Encoding, kind: ShaderKind, level: nat, sync: bool, f: AluFields): (r: Result<seq<string>, AluError>)
    requires level < 15
    ensures r.Err? <==> VectorOp(e, f.vectorOpc).None?
    ensures r.Ok? ==> |r.value| == (if HasScalar(f) then 2 else 1)
  {
    match DecodeAlu(e, kind, f)
    case Err(err) => Err(err)
    case Ok(a) =>
      Ok([VectorLine(level, sync, a.vector)] + (if a.scalar.Some? then [ScalarLine(level, a.scalar.value)] else []))
  }

  /** The fields of `ADDv R0 = C0, R1`: full write mask, no swizzles, no predicate and no scalar half. */
  function AddvFields(opc: VectorOpc): AluFields
  {
    AluFields(opc, 0, 0, 0, 0xf, 0, 0, false,
              SrcOperand(0, false, 0, false, false), SrcOperand(1, true, 0, false, false),
              SrcOperand(0, false, 0, false, false))
  }

  lemma AddvDecode(e: Encoding, opc: VectorOpc)
    requires VectorOp(e, opc) == Some(VectorEntry("ADDv", 2))
    ensures DecodeAlu(e, VertexShader, AddvFields(opc))
      == Ok(AluInstr(VectorInstr("ADDv", None, DstOperand(0, 0xf, false),
                                 [SrcOperand(0, false, 0, false, false), SrcOperand(1, true, 0, false, false)], ""), None))
  {
    var f := AddvFields(opc);
    assert Bit(0, 1) == 0;
    assert VectorSources(2, f) == [f.src1, f.src2];
  }

  lemma AddvOperands()
    ensures DstText(0, 0xf, false) == "R0"
    ensures SourceList([SrcOperand(0, false, 0, false, false), SrcOperand(1, true, 0, false, false)]) == "C0, R1"
  {
    assert Dec(0) == "0" && Dec(1) == "1";
    assert SrcText(SrcOperand(0, false, 0, false, false)) == "C0";
    assert SrcText(SrcOperand(1, true, 0, false, false)) == "R1";
  }

  lemma AddvText()
    ensures VectorLine(0, false, VectorInstr("ADDv", None, DstOperand(0, 0xf, false),
                                             [SrcOperand(0, false, 0, false, false), SrcOperand(1, true, 0, false, false)], ""))
      == "\t      ALU:\tADDv\tR0 = C0, R1"
  {
    AddvOperands();
    assert Indent(0) == "\t";
    var head := Indent(0) + "   " + SyncMark(false) + "ALU:\t";
    assert head == "\t      ALU:\t";
    assert head + "ADDv" + "" + "\t" + "R0" + " = " + "C0, R1" + "" == "\t      ALU:\tADDv\tR0 = C0, R1";
  }

  /** A two-source vector operation without a scalar half prints one line: mnemonic, destination, sources. */
  lemma AddvExample(e: Encoding, opc: VectorOpc)
    requires VectorOp(e, opc) == Some(VectorEntry("ADDv", 2))
    ensures DisasmAlu(e, VertexShader, 0, false, AddvFields(opc)) == Ok(["\t      ALU:\tADDv\tR0 = C0, R1"])
  {
    AddvDecode(e, opc);
    AddvText();
    var line := "\t      ALU:\tADDv\tR0 = C0, R1";
    assert [line] + [] == [line];
  }

  /**
   * The first line opens with the indent, the sync mark and the vector
   * mnemonic of the table; the second, present exactly when the slot has a
   * scalar operation, with the indent and the scalar mnemonic.
   */
  lemma AluLineHeads(e: Encoding, kind: ShaderKind, level: nat, sync: bool, f: AluFields)
    requires level < 15 && DisasmAlu(e, kind, level, sync, f).Ok?
    ensures var lines := DisasmAlu(e, kind, level, sync, f).value;
      && var head := Indent(level) + "   " + SyncMark(sync) + "ALU:\t" + VectorOp(e, f.vectorOpc).value.name;
      && |head| <= |lines[0]| && lines[0][..|head|] == head
      && (|lines| == 2 ==>
            var shead := Indent(level) + "\t    \t" + ScalarMnemonic(e, f.scalarOpc) + "\t";
            |shead| <= |lines[1]| && lines[1][..|shead|] == shead)
  {
    var a := DecodeAlu(e, kind, f).value;
    var v := a.vector;
    var head := Indent(level) + "   " + SyncMark(sync) + "ALU:\t" + v.name;
    var t1 := head + CondSuffix(v.cond);
    var t2 := t1 + "\t";
    var t3 := t2 + DstText(v.dst.reg, v.dst.mask, v.dst.isExport);
    var t4 := t3 + " = ";
    var t5 := t4 + SourceList(v.srcs);
    PrefixKept(head, head, CondSuffix(v.cond));
    PrefixKept(head, t1, "\t");
    PrefixKept(head, t2, DstText(v.dst.reg, v.dst.mask, v.dst.isExport));
    PrefixKept(head, t3, " = ");
    PrefixKept(head, t4, SourceList(v.srcs));
    PrefixKept(head, t5, v.comment);
    if a.scalar.Some? {
      var sc := a.scalar.value;
      var shead := Indent(level) + "\t    \t" + sc.name + "\t";
      var u1 := shead + DstText(sc.dst.reg, sc.dst.mask, sc.dst.isExport);
      var u2 := u1 + " = ";
      var u3 := u2 + SrcText(sc.src);
      PrefixKept(shead, shead, DstText(sc.dst.reg, sc.dst.mask, sc.dst.isExport));
      PrefixKept(shead, u1, " = ");
      PrefixKept(shead, u2, SrcText(sc.src));
      PrefixKept(shead, u3, sc.comment);
    }
  }
}
