/**
 * The static opcode tables of the a2xx disassembler: vector and scalar ALU
 * operations, fetch operations, vertex fetch formats and control-flow
 * operations.
 *
 * The names, arities and order of the vector, scalar and format entries are
 * those of the tables; the numeric values of their enumerators come from
 * headers that are not part of this model, so an `Encoding` supplies them.
 * The fetch and control-flow tables are keyed by literal values and are
 * given outright.
 */
module OpTables {
  import opened Base
  import Numerals

  datatype VectorEntry = VectorEntry(name: string, numSrcs: nat)

  /** `vector_instructions`, in declaration order. */
  const VectorEntries: seq<VectorEntry> := [
    VectorEntry("ADDv", 2), VectorEntry("MULv", 2), VectorEntry("MAXv", 2), VectorEntry("MINv", 2),
    VectorEntry("SETEv", 2), VectorEntry("SETGTv", 2), VectorEntry("SETGTEv", 2), VectorEntry("SETNEv", 2),
    VectorEntry("FRACv", 1), VectorEntry("TRUNCv", 1), VectorEntry("FLOORv", 1), VectorEntry("MULADDv", 3),
    VectorEntry("CNDEv", 2), VectorEntry("CNDGTEv", 2), VectorEntry("CNDGTv", 2), VectorEntry("DOT4v", 2),
    VectorEntry("DOT3v", 2), VectorEntry("DOT2ADDv", 3), VectorEntry("CUBEv", 2), VectorEntry("MAX4v", 1),
    VectorEntry("PRED_SETE_PUSHv", 2), VectorEntry("PRED_SETNE_PUSHv", 2),
    VectorEntry("PRED_SETGT_PUSHv", 2), VectorEntry("PRED_SETGTE_PUSHv", 2),
    VectorEntry("KILLEv", 2), VectorEntry("KILLGTv", 2), VectorEntry("KILLGTEv", 2), VectorEntry("KILLNEv", 2),
    VectorEntry("DSTv", 2), VectorEntry("MOVAv", 1)
  ]

  /** `scalar_instructions`, in declaration order (every entry has one source, which the decoder never reads). */
  const ScalarNames: seq<string> := [
    "ADDs", "ADD_PREVs", "MULs", "MUL_PREVs", "MUL_PREV2s", "MAXs", "MINs", "SETEs", "SETGTs",
    "SETGTEs", "SETNEs", "FRACs", "TRUNCs", "FLOORs", "EXP_IEEE", "LOG_CLAMP", "LOG_IEEE",
    "RECIP_CLAMP", "RECIP_FF", "RECIP_IEEE", "RECIPSQ_CLAMP", "RECIPSQ_FF", "RECIPSQ_IEEE",
    "MOVAs", "MOVA_FLOORs", "SUBs", "SUB_PREVs", "PRED_SETEs", "PRED_SETNEs", "PRED_SETGTs",
    "PRED_SETGTEs", "PRED_SET_INVs", "PRED_SET_POPs", "PRED_SET_CLRs", "PRED_SET_RESTOREs",
    "KILLEs", "KILLGTs", "KILLGTEs", "KILLNEs", "KILLONEs", "SQRT_IEEE", "MUL_CONST_0",
    "MUL_CONST_1", "ADD_CONST_0", "ADD_CONST_1", "SUB_CONST_0", "SUB_CONST_1", "SIN", "COS",
    "RETAIN_PREV"
  ]

  /** `fetch_types`, in declaration order. */
  const FetchTypeNames: seq<string> := [
    "FMT_1_REVERSE", "FMT_32_FLOAT", "FMT_32_32_FLOAT", "FMT_32_32_32_FLOAT",
    "FMT_32_32_32_32_FLOAT", "FMT_16", "FMT_16_16", "FMT_16_16_16_16", "FMT_8", "FMT_8_8",
    "FMT_8_8_8_8", "FMT_32", "FMT_32_32", "FMT_32_32_32_32"
  ]

  /**
   * The numeric value of each enumerator named in the tables above:
   * `vectorOpcodes[i]` is the value of `VectorEntries[i].name`, and so on.
   */
  datatype Encoding = Encoding(vectorOpcodes: seq<nat>, scalarOpcodes: seq<nat>, fetchTypes: seq<nat>)

  predicate Distinct(keys: seq<nat>)
  {
    forall i, j :: 0 <= i < j < |keys| ==> keys[i] != keys[j]
  }

  /**
   * The entry a designated-initializer table holds at index `k`: the last
   * initializer for `k` wins, and an index nobody initialized is empty.
   */
  function Lookup<T>(keys: seq<nat>, vals: seq<T>, k: nat): (r: Option<T>)
    ensures r.Some? ==> exists i ::
      && 0 <= i < |keys| && i < |vals| && keys[i] == k && vals[i] == r.value
      && forall j :: i < j < |keys| && j < |vals| ==> keys[j] != k
    ensures r.None? ==> forall i :: 0 <= i < |keys| && i < |vals| ==> keys[i] != k
  {
    if |keys| == 0 then None
    else
      var i := |keys| - 1;
      if i < |vals| && keys[i] == k then Some(vals[i]) else Lookup(keys[..i], vals, k)
  }

  /** With distinct enumerator values, every initializer is the one that is read back. */
  lemma {:induction false} LookupDistinct<T>(keys: seq<nat>, vals: seq<T>, i: nat)
    requires Distinct(keys) && i < |keys| && i < |vals|
    ensures Lookup(keys, vals, keys[i]) == Some(vals[i])
  {
    var last := |keys| - 1;
    if i < last {
      assert keys[last] != keys[i];
      assert keys[..last][i] == keys[i];
      LookupDistinct(keys[..last], vals, i);
    }
  }

  function VectorOp(e: Encoding, opc: nat): Option<VectorEntry>
  {
    Lookup(e.vectorOpcodes, VectorEntries, opc)
  }

  function ScalarName(e: Encoding, opc: nat): Option<string>
  {
    Lookup(e.scalarOpcodes, ScalarNames, opc)
  }

  function FetchTypeName(e: Encoding, fmt: nat): Option<string>
  {
    Lookup(e.fetchTypes, FetchTypeNames, fmt)
  }

  /** Every vector operation takes one, two or three sources. */
  lemma VectorArities(i: nat)
    requires i < |VectorEntries|
    ensures 1 <= VectorEntries[i].numSrcs <= 3
    ensures VectorEntries[i].numSrcs == 3 <==> VectorEntries[i].name in {"MULADDv", "DOT2ADDv"}
  {
  }

  /** `VERTEX` and `SAMPLE` of `enum fetch_opc`, the two entries of the 0x1f-slot `fetch_instructions`. */
  const FetchVertex: nat := 0x00
  const FetchSample: nat := 0x01

  function FetchOpName(opc: nat): (r: Option<string>)
    requires opc < 0x1f
    ensures r.Some? <==> opc == FetchVertex || opc == FetchSample
  {
    if opc == FetchVertex then Some("VERTEX")
    else if opc == FetchSample then Some("SAMPLE")
    else None
  }

  /** A printf format string, cut at its `%x` conversions. */
  datatype FmtPiece = Lit(text: string) | HexArg

  function HexArgCount(fmt: seq<FmtPiece>): nat
  {
    if fmt == [] then 0 else (if fmt[0].HexArg? then 1 else 0) + HexArgCount(fmt[1..])
  }

  /** `printf(fmt, args...)`; arguments beyond the conversions are ignored. */
  function Format(fmt: seq<FmtPiece>, args: seq<nat>): string
    requires HexArgCount(fmt) <= |args|
  {
    if fmt == [] then ""
    else match fmt[0]
      case Lit(t) => t + Format(fmt[1..], args)
      case HexArg => Numerals.Hex(args[0]) + Format(fmt[1..], args[1..])
  }

  /** An entry of `cf_instructions`: whether the clause executes ALU/FETCH slots, and its format. */
  datatype CfEntry = CfEntry(exec: bool, fmt: seq<FmtPiece>)

  /** `cf_instructions`, which has 0xff slots; an absent entry has no format and no exec flag. */
  function CfOp(op: nat): (r: Option<CfEntry>)
    requires op < 0xff
    ensures r.Some? ==> HexArgCount(r.value.fmt) <= 2
  {
    if op == 0x00 then Some(CfEntry(false, [Lit("NOP")]))
    else if op == 0x10 then Some(CfEntry(true, [Lit("EXEC ADDR(0x"), HexArg, Lit(") CNT(0x"), HexArg, Lit(")")]))
    else if op == 0x20 then Some(CfEntry(true, [Lit("EXEC_END ADDR(0x"), HexArg, Lit(") CNT(0x"), HexArg, Lit(")")]))
    else if op == 0xc2 then Some(CfEntry(false, [Lit("ALLOC COORD SIZE(0x"), HexArg, Lit(")")]))
    else if op == 0xc4 then Some(CfEntry(false, [Lit("ALLOC PARAM/PIXEL SIZE(0x"), HexArg, Lit(")")]))
    else None
  }

  /** `cf_instructions[op].exec`. */
  predicate IsExec(op: nat)
    requires op < 0xff
  {
    CfOp(op).Some? && CfOp(op).value.exec
  }

  /** Only EXEC and EXEC_END carry instruction slots. */
  lemma ExecOps(op: nat)
    requires op < 0xff
    ensures IsExec(op) <==> op == 0x10 || op == 0x20
  {
  }
}
