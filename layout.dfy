/**
 * The pieces every disassembly line starts with: the indentation for the
 * nesting level and the sync marker of an instruction slot.
 */
module Layout {

  /** `levels[level]`: one to nine tabs, then a fixed "x" for levels 9 to 14 (the table has 15 entries). */
  function Indent(level: nat): string
    requires level < 15
  {
    if level < 9 then seq(level + 1, _ => '\t') else "x"
  }

  /** The three characters after the first three spaces of an ALU or FETCH line: "(S)" for a sync slot. */
  function SyncMark(sync: bool): string
  {
    if sync then "(S)" else "   "
  }
}
