/**
 * The dispatcher (`disasm`): visits the parsed clauses in order, emits a
 * header for each and, for the clauses that execute instructions, one slot
 * per count, whose kind and sync flag come from two bits of the clause's
 * sequence field. The rendering of the event stream into text lines is a
 * separate function over the same words.
 */
module Dispatch {
  import opened Base
  import opened OpTables
  import opened Operands
  import opened ControlFlow
  import opened Alu
  import opened Fetch

  /** The size of the clause table (`static struct cf cfs[64]`). */
  const ClauseCapacity: nat := 64

  datatype SlotKind = FetchSlot | AluSlot

  /** What the dispatcher does, in order: print a clause header, or decode the slot at a word offset. */
  datatype Event = Header(cf: Cf) | Slot(kind: SlotKind, offset: nat, sync: bool)

  /** Slot `i` of a clause: at word 3(addr + i), FETCH when sequence bit 2i is set, sync from bit 2i+1. */
  function SlotEvent(c: Cf, i: nat): Event
  {
    Slot(if Bit(c.sequence, 2 * i) == 1 then FetchSlot else AluSlot, 3 * (c.addr + i), Bit(c.sequence, 2 * i + 1) == 1)
  }

  /** The first `n` slots of a clause. */
  function SlotEvents(c: Cf, n: nat): (es: seq<Event>)
    ensures |es| == n
    ensures forall i :: 0 <= i < n ==> es[i] == SlotEvent(c, i)
  {
    if n == 0 then [] else SlotEvents(c, n - 1) + [SlotEvent(c, n - 1)]
  }

  /** A clause's events: its header, then its slots if its opcode executes instructions. */
  function ClauseEvents(c: Cf): seq<Event>
    requires c.op < 0xff
  {
    [Header(c)] + (if IsExec(c.op) then SlotEvents(c, c.cnt) else [])
  }

  /** Why `disasm` cannot finish: the parse fails, or a clause's opcode lies past the table. */
  datatype DispatchError = ParseFailed(error: ParseError) | ClauseOpOutOfTable(op: nat)

  /** The events of a run of clauses, failing at the first opcode past the table. */
  function Events(cs: seq<Cf>): Result<seq<Event>, DispatchError>
  {
    if cs == [] then Ok([])
    else if cs[0].op >= 0xff then Err(ClauseOpOutOfTable(cs[0].op))
    else match Events(cs[1..])
      case Err(e) => Err(e)
      case Ok(rest) => Ok(ClauseEvents(cs[0]) + rest)
  }

  /** `disasm`, as its sequence of events. */
  function DisasmEvents(words: seq<u32>): Result<seq<Event>, DispatchError>
  {
    match ParsedClauses(words, ClauseCapacity)
    case Err(e) => Err(ParseFailed(e))
    case Ok(cs) => Events(cs)
  }

  function Prepend(es: seq<Event>, r: Result<seq<Event>, DispatchError>): Result<seq<Event>, DispatchError>
  {
    match r
    case Err(e) => Err(e)
    case Ok(rest) => Ok(es + rest)
  }

  lemma PrependAssoc(a: seq<Event>, b: seq<Event>, r: Result<seq<Event>, DispatchError>)
    ensures Prepend(a, Prepend(b, r)) == Prepend(a + b, r)
  {
    if r.Ok? {
      assert a + (b + r.value) == (a + b) + r.value;
    }
  }

  /** The slot loop of one clause: two sequence bits per slot, shifted out as it goes. */
  method ClauseSlots(c: Cf) returns (es: seq<Event>)
    ensures es == SlotEvents(c, c.cnt)
  {
    es := [];
    var sequence := c.sequence;
    var i := 0;
    while i < c.cnt
      invariant 0 <= i <= c.cnt
      invariant sequence == Shr(c.sequence, 2 * i)
      invariant es == SlotEvents(c, i)
    {
      BitsOfShr(c.sequence, 2 * i);
      ShrStep(c.sequence, 2 * i);
      var aluOff := (c.addr + i) * 3;
      if sequence % 2 == 1 {
        es := es + [Slot(FetchSlot, aluOff, sequence / 2 % 2 == 1)];
      } else {
        es := es + [Slot(AluSlot, aluOff, sequence / 2 % 2 == 1)];
      }
      sequence := sequence / 4;
      i := i + 1;
    }
  }

  /** `disasm`: parse into the 64-entry table, then visit the clauses in order. */
  method Disasm(words: seq<u32>) returns (r: Result<seq<Event>, DispatchError>)
    ensures r == DisasmEvents(words)
  {
    var cfs := new Cf[ClauseCapacity](_ => Cf(0, 0, 0, 0, None));
    var parsed := ParseCf(words, cfs);
    if parsed.Err? {
      return Err(ParseFailed(parsed.error));
    }
    var maxIdx := parsed.value;
    ghost var cs := cfs[..maxIdx];
    var idx := 0;
    var events: seq<Event> := [];
    if Events(cs).Ok? {
      assert events + Events(cs).value == Events(cs).value;
    }
    while idx < maxIdx
      invariant 0 <= idx <= maxIdx <= cfs.Length
      invariant cfs[..maxIdx] == cs
      invariant Events(cs) == Prepend(events, Events(cs[idx..]))
    {
      var cf := cfs[idx];
      assert cs[idx..][0] == cf && cs[idx..][1..] == cs[idx + 1..];
      idx := idx + 1;
      if cf.op >= 0xff {
        return Err(ClauseOpOutOfTable(cf.op));
      }
      var clause := [Header(cf)];
      if IsExec(cf.op) {
        var slots := ClauseSlots(cf);
        clause := clause + slots;
      }
      assert clause == ClauseEvents(cf);
      assert Events(cs[idx - 1..]) == Prepend(clause, Events(cs[idx..]));
      PrependAssoc(events, clause, Events(cs[idx..]));
      events := events + clause;
    }
    assert cs[idx..] == [];
    assert events + [] == events;
    return Ok(events);
  }

  /** The headers among a run of events. */
  function Headers(es: seq<Event>): seq<Cf>
  {
    if es == [] then [] else (if es[0].Header? then [es[0].cf] else []) + Headers(es[1..])
  }

  lemma {:induction false} HeadersConcat(a: seq<Event>, b: seq<Event>)
    ensures Headers(a + b) == Headers(a) + Headers(b)
  {
    if a == [] {
      assert a + b == b;
    } else {
      assert (a + b)[0] == a[0] && (a + b)[1..] == a[1..] + b;
      HeadersConcat(a[1..], b);
      Assoc(if a[0].Header? then [a[0].cf] else [], Headers(a[1..]), Headers(b));
    }
  }

  lemma {:induction false} NoHeadersInSlots(c: Cf, n: nat)
    ensures Headers(SlotEvents(c, n)) == []
  {
    if n > 0 {
      HeadersConcat(SlotEvents(c, n - 1), [SlotEvent(c, n - 1)]);
      NoHeadersInSlots(c, n - 1);
    }
  }

  /** Every clause gets exactly one header, in clause order. */
  lemma {:induction false} HeadersInOrder(cs: seq<Cf>)
    requires Events(cs).Ok?
    ensures Headers(Events(cs).value) == cs
  {
    if cs != [] {
      var c := cs[0];
      var slots := if IsExec(c.op) then SlotEvents(c, c.cnt) else [];
      NoHeadersInSlots(c, c.cnt);
      HeadersConcat([Header(c)], slots);
      HeadersConcat(ClauseEvents(c), Events(cs[1..]).value);
      HeadersInOrder(cs[1..]);
      assert Headers([Header(c)]) == [c];
    }
  }

  /** A clause that does not execute instructions contributes its header and nothing else. */
  lemma NonExecClause(c: Cf)
    requires c.op < 0xff && c.op != 0x10 && c.op != 0x20
    ensures ClauseEvents(c) == [Header(c)]
  {
    ExecOps(c.op);
  }

  /** The sequence field that encodes a list of (FETCH?, sync?) slots, two bits each, slot 0 lowest. */
  function PackSequence(slots: seq<(bool, bool)>): nat
  {
    if slots == [] then 0
    else (if slots[0].0 then 1 else 0) + 2 * (if slots[0].1 then 1 else 0) + 4 * PackSequence(slots[1..])
  }

  /** Slot `i` of a packed sequence reads back the kind and sync flag it was packed from. */
  lemma {:induction false} PackSequenceBits(slots: seq<(bool, bool)>, i: nat)
    requires i < |slots|
    ensures Bit(PackSequence(slots), 2 * i) == (if slots[i].0 then 1 else 0)
    ensures Bit(PackSequence(slots), 2 * i + 1) == (if slots[i].1 then 1 else 0)
  {
    var s := PackSequence(slots);
    ShrStep(s, 0);
    assert Shr(s, 0) == s;
    if i > 0 {
      PackSequenceBits(slots[1..], i - 1);
      var rest := PackSequence(slots[1..]);
      assert s / 4 == rest;
      ShrShr(s, 2, 2 * (i - 1));
      ShrShr(s, 2, 2 * (i - 1) + 1);
      assert Shr(s, 2) == rest;
    }
  }

  /** Dispatching a clause whose sequence packs a list of slots replays that list. */
  lemma DispatchReplaysSlots(addr: nat, op: nat, slots: seq<(bool, bool)>, words: Option<nat>, i: nat)
    requires i < |slots|
    ensures var c := Cf(addr, |slots|, op, PackSequence(slots), words);
      SlotEvents(c, c.cnt)[i] == Slot(if slots[i].0 then FetchSlot else AluSlot, 3 * (addr + i), slots[i].1)
  {
    PackSequenceBits(slots, i);
  }

  /** An EXEC clause of two slots with sequence 0b0100: an ALU slot, then a FETCH slot, neither synced. */
  lemma ExecExample(addr: nat, words: Option<nat>)
    ensures var c := Cf(addr, 2, 0x10, 4, words);
      ClauseEvents(c) == [Header(c), Slot(AluSlot, 3 * addr, false), Slot(FetchSlot, 3 * (addr + 1), false)]
  {
    var c := Cf(addr, 2, 0x10, 4, words);
    assert Shr(4, 0) == 4;
    ShrStep(4, 0);
    ShrStep(4, 2);
    assert Bit(4, 2) == 1;
    assert SlotEvents(c, 2) == [SlotEvent(c, 0), SlotEvent(c, 1)];
  }

  /** Why the listing stops: a header past the table, a slot past the end of the buffer, or a slot its decoder cannot print. */
  datatype RenderError = HeaderOutOfTable(op: nat) | SlotOutOfRange(offset: nat) | FetchFailed(f: FetchError) | AluFailed(a: AluError)

  /**
   * Whether an event cannot be printed: a header whose opcode lies past the
   * table, a slot whose three words run past the buffer, a FETCH slot with
   * opcode 0x1f, or an ALU slot whose vector opcode has no name.
   */
  predicate EventFails(e: Encoding, layout: (u32, u32, u32) -> AluFields, words: seq<u32>, ev: Event)
  {
    match ev
    case Header(c) => c.op >= 0xff
    case Slot(slotKind, off, _) =>
      || off + 3 > |words|
      || (slotKind == FetchSlot && words[off] % 0x20 == 0x1f)
      || (slotKind == AluSlot && VectorOp(e, layout(words[off], words[off + 1], words[off + 2]).vectorOpc).None?)
  }

  /** The lines of an instruction slot whose three words lie inside the buffer. */
  function SlotLines(e: Encoding, kind: ShaderKind, level: nat, layout: (u32, u32, u32) -> AluFields,
                     words: seq<u32>, slotKind: SlotKind, off: nat, sync: bool): (r: Result<seq<string>, RenderError>)
    requires level < 15 && off + 3 <= |words|
    ensures r.Err? <==> EventFails(e, layout, words, Slot(slotKind, off, sync))
    ensures r.Ok? ==> |r.value| == (if slotKind == AluSlot && HasScalar(layout(words[off], words[off + 1], words[off + 2])) then 2 else 1)
    ensures r.Ok? && slotKind == FetchSlot ==> FetchLine(e, level, sync, DecodeFetch(words[off], words[off + 1], words[off + 2])) == Ok(r.value[0])
    ensures r.Ok? && slotKind == AluSlot ==> DisasmAlu(e, kind, level, sync, layout(words[off], words[off + 1], words[off + 2])) == Ok(r.value)
  {
    if slotKind == FetchSlot then
      var f := DecodeFetch(words[off], words[off + 1], words[off + 2]);
      assert f.opc == words[off] % 0x20;
      var line := FetchLine(e, level, sync, f);
      if line.Err? then Err(FetchFailed(line.error)) else Ok([line.value])
    else
      var lines := DisasmAlu(e, kind, level, sync, layout(words[off], words[off + 1], words[off + 2]));
      if lines.Err? then Err(AluFailed(lines.error)) else Ok(lines.value)
  }

  /** The lines printed for one event: the clause header, the FETCH line, or the one or two ALU lines. */
  function EventLines(e: Encoding, kind: ShaderKind, level: nat, layout: (u32, u32, u32) -> AluFields,
                      words: seq<u32>, ev: Event): (r: Result<seq<string>, RenderError>)
    requires level < 15
    ensures r.Err? <==> EventFails(e, layout, words, ev)
    ensures r.Ok? && ev.Header? ==> r.value == [CfText(level, ev.cf).value]
    ensures r.Ok? ==> 1 <= |r.value| <= 2
  {
    match ev
    case Header(c) =>
      if c.op >= 0xff then Err(HeaderOutOfTable(c.op)) else Ok([CfText(level, c).value])
    case Slot(slotKind, off, sync) =>
      if off + 3 > |words| then Err(SlotOutOfRange(off)) else SlotLines(e, kind, level, layout, words, slotKind, off, sync)
  }

  predicate HeadersInTable(es: seq<Event>)
  {
    forall i :: 0 <= i < |es| && es[i].Header? ==> es[i].cf.op < 0xff
  }

  /** The lines of two runs printed one after the other; the first failure wins. */
  function Join(a: Result<seq<string>, RenderError>, b: Result<seq<string>, RenderError>): Result<seq<string>, RenderError>
  {
    match a
    case Err(err) => Err(err)
    case Ok(la) =>
      match b
      case Err(err) => Err(err)
      case Ok(lb) => Ok(la + lb)
  }

  /** The text of a run of events, stopping at the first event that cannot be printed. */
  function Listing(e: Encoding, kind: ShaderKind, level: nat, layout: (u32, u32, u32) -> AluFields,
                   words: seq<u32>, es: seq<Event>): (r: Result<seq<string>, RenderError>)
    requires level < 15
    ensures r.Ok? <==> forall i :: 0 <= i < |es| ==> !EventFails(e, layout, words, es[i])
    ensures r.Ok? ==> |es| <= |r.value| <= 2 * |es|
  {
    if es == [] then Ok([])
    else
      var r := Join(EventLines(e, kind, level, layout, words, es[0]), Listing(e, kind, level, layout, words, es[1..]));
      assert forall i :: 1 <= i < |es| ==> es[i] == es[1..][i - 1];
      r
  }

  /** A listing that does not print completely reports the error of its first event that cannot be printed. */
  lemma {:induction false} ListingFirstError(e: Encoding, kind: ShaderKind, level: nat, layout: (u32, u32, u32) -> AluFields,
                                             words: seq<u32>, es: seq<Event>, i: nat)
    requires level < 15 && i < |es| && EventFails(e, layout, words, es[i])
    requires forall j :: 0 <= j < i ==> !EventFails(e, layout, words, es[j])
    ensures EventLines(e, kind, level, layout, words, es[i]).Err?
    ensures Listing(e, kind, level, layout, words, es) == Err(EventLines(e, kind, level, layout, words, es[i]).error)
  {
    if i > 0 {
      assert forall j :: 0 <= j < i - 1 ==> es[1..][j] == es[j + 1];
      ListingFirstError(e, kind, level, layout, words, es[1..], i - 1);
    }
  }

  /** A complete listing of two runs of events is the lines of the first, then those of the second. */
  lemma {:induction false} ListingSplit(e: Encoding, kind: ShaderKind, level: nat, layout: (u32, u32, u32) -> AluFields,
                                        words: seq<u32>, a: seq<Event>, b: seq<Event>)
    requires level < 15 && Listing(e, kind, level, layout, words, a + b).Ok?
    ensures Listing(e, kind, level, layout, words, a).Ok? && Listing(e, kind, level, layout, words, b).Ok?
    ensures Listing(e, kind, level, layout, words, a + b).value
         == Listing(e, kind, level, layout, words, a).value + Listing(e, kind, level, layout, words, b).value
  {
    if a == [] {
      assert a + b == b;
    } else {
      assert (a + b)[0] == a[0] && (a + b)[1..] == a[1..] + b;
      ListingSplit(e, kind, level, layout, words, a[1..], b);
      var x := EventLines(e, kind, level, layout, words, a[0]).value;
      var y := Listing(e, kind, level, layout, words, a[1..]).value;
      var z := Listing(e, kind, level, layout, words, b).value;
      assert Listing(e, kind, level, layout, words, a + b).value == x + (y + z);
      assert Listing(e, kind, level, layout, words, a).value == x + y;
      Assoc(x, y, z);
    }
  }

  /** In a complete listing, the lines of the first `i` events come first, then the lines of event `i`. */
  lemma ListingPrefix(e: Encoding, kind: ShaderKind, level: nat, layout: (u32, u32, u32) -> AluFields,
                      words: seq<u32>, es: seq<Event>, i: nat)
    requires level < 15 && i < |es| && Listing(e, kind, level, layout, words, es).Ok?
    ensures Listing(e, kind, level, layout, words, es[..i]).Ok?
    ensures EventLines(e, kind, level, layout, words, es[i]).Ok?
    ensures Listing(e, kind, level, layout, words, es[..i + 1]).Ok?
    ensures Listing(e, kind, level, layout, words, es[..i + 1]).value
         == Listing(e, kind, level, layout, words, es[..i]).value + EventLines(e, kind, level, layout, words, es[i]).value
    ensures var front := Listing(e, kind, level, layout, words, es[..i + 1]).value;
      var lines := Listing(e, kind, level, layout, words, es).value;
      |front| <= |lines| && lines[..|front|] == front
  {
    var a, b, c := es[..i], [es[i]], es[i + 1..];
    TakeStep(es, i);
    SplitAround(es, i);
    ListingSplit(e, kind, level, layout, words, a + b, c);
    ListingSplit(e, kind, level, layout, words, a, b);
    assert b[0] == es[i] && b[1..] == [];
    var ev := EventLines(e, kind, level, layout, words, es[i]).value;
    assert Listing(e, kind, level, layout, words, b).value == ev + [];
    assert ev + [] == ev;
    var front := Listing(e, kind, level, layout, words, a + b).value;
    PrefixKept(front, front, Listing(e, kind, level, layout, words, c).value);
  }

  /** The header of event `i` is the line right after the lines of the events before it. */
  lemma HeaderLine(e: Encoding, kind: ShaderKind, level: nat, layout: (u32, u32, u32) -> AluFields,
                   words: seq<u32>, es: seq<Event>, i: nat)
    requires level < 15 && i < |es| && es[i].Header? && Listing(e, kind, level, layout, words, es).Ok?
    ensures es[i].cf.op < 0xff && Listing(e, kind, level, layout, words, es[..i]).Ok?
    ensures var p := |Listing(e, kind, level, layout, words, es[..i]).value|;
      && var lines := Listing(e, kind, level, layout, words, es).value;
      && p < |lines| && lines[p] == CfText(level, es[i].cf).value
  {
    ListingPrefix(e, kind, level, layout, words, es, i);
    var pre := Listing(e, kind, level, layout, words, es[..i]).value;
    var ev := EventLines(e, kind, level, layout, words, es[i]).value;
    var lines := Listing(e, kind, level, layout, words, es).value;
    assert (pre + ev)[|pre|] == ev[0];
    assert lines[|pre|] == lines[..|pre + ev|][|pre|];
  }

  /** Later events start later: every event prints at least one line. */
  lemma LinesBeforeGrow(e: Encoding, kind: ShaderKind, level: nat, layout: (u32, u32, u32) -> AluFields,
                        words: seq<u32>, es: seq<Event>, i: nat, j: nat)
    requires level < 15 && i < j <= |es| && Listing(e, kind, level, layout, words, es).Ok?
    ensures Listing(e, kind, level, layout, words, es[..i]).Ok? && Listing(e, kind, level, layout, words, es[..j]).Ok?
    ensures |Listing(e, kind, level, layout, words, es[..i]).value| < |Listing(e, kind, level, layout, words, es[..j]).value|
  {
    assert forall k :: 0 <= k < j ==> es[..j][k] == es[k];
    assert es[..j] == es[..i] + es[i..j];
    ListingSplit(e, kind, level, layout, words, es[..i], es[i..j]);
  }

  /** The events `disasm` produces never carry an opcode past the table. */
  lemma {:induction false} EventsInTable(cs: seq<Cf>)
    requires Events(cs).Ok?
    ensures HeadersInTable(Events(cs).value)
  {
    if cs != [] {
      EventsInTable(cs[1..]);
      var c := cs[0];
      var head: seq<Event> := ClauseEvents(c);
      var rest: seq<Event> := Events(cs[1..]).value;
      forall i | 0 <= i < |head + rest|
        ensures (head + rest)[i].Header? ==> (head + rest)[i].cf.op < 0xff
      {
        if i >= |head| {
          assert (head + rest)[i] == rest[i - |head|];
        } else if i > 0 {
          assert head[i] == SlotEvent(c, i - 1);
        }
      }
    }
  }

  /** Why the whole listing stops: the dispatcher fails, or an event cannot be printed. */
  datatype ListingError = DispatchFailed(d: DispatchError) | RenderFailed(re: RenderError)

  /**
   * The whole text `disasm` prints for a buffer. It fails in rendering
   * exactly when some slot runs past the buffer or its decoder rejects it,
   * and otherwise prints one or two lines per event.
   */
  function DisasmListing(e: Encoding, kind: ShaderKind, level: nat, layout: (u32, u32, u32) -> AluFields,
                         words: seq<u32>): (r: Result<seq<string>, ListingError>)
    requires level < 15
    ensures r.Err? && r.error.DispatchFailed? <==> DisasmEvents(words).Err?
    ensures DisasmEvents(words).Err? ==> r.error.d == DisasmEvents(words).error
    ensures DisasmEvents(words).Ok? ==>
      var es := DisasmEvents(words).value;
      && (r.Err? <==> exists i :: 0 <= i < |es| && es[i].Slot? && EventFails(e, layout, words, es[i]))
      && (r.Ok? ==> |es| <= |r.value| <= 2 * |es|)
  {
    match DisasmEvents(words)
    case Err(err) => Err(DispatchFailed(err))
    case Ok(es) =>
      EventsInTable(ParsedClauses(words, ClauseCapacity).value);
      match Listing(e, kind, level, layout, words, es)
      case Err(err) => Err(RenderFailed(err))
      case Ok(lines) => Ok(lines)
  }

  /** In the listing of a buffer, the header of clause event `i` follows the lines of the events before it. */
  lemma DisasmHeaderLine(e: Encoding, kind: ShaderKind, level: nat, layout: (u32, u32, u32) -> AluFields,
                         words: seq<u32>, i: nat)
    requires level < 15 && DisasmListing(e, kind, level, layout, words).Ok?
    requires i < |DisasmEvents(words).value| && DisasmEvents(words).value[i].Header?
    ensures var es := DisasmEvents(words).value;
      && es[i].cf.op < 0xff && Listing(e, kind, level, layout, words, es[..i]).Ok?
      && var p := |Listing(e, kind, level, layout, words, es[..i]).value|;
      && var lines := DisasmListing(e, kind, level, layout, words).value;
      && p < |lines| && lines[p] == CfText(level, es[i].cf).value
  {
    HeaderLine(e, kind, level, layout, words, DisasmEvents(words).value, i);
  }

  /** A listing that prints completely read only slots inside the buffer. */
  lemma ListingInRange(e: Encoding, kind: ShaderKind, level: nat, layout: (u32, u32, u32) -> AluFields,
                       words: seq<u32>, es: seq<Event>)
    requires level < 15
    requires Listing(e, kind, level, layout, words, es).Ok?
    ensures forall i :: 0 <= i < |es| && es[i].Slot? ==> es[i].offset + 3 <= |words|
  {
    forall i | 0 <= i < |es| && es[i].Slot? ensures es[i].offset + 3 <= |words| {
      assert !EventFails(e, layout, words, es[i]);
    }
  }
}
