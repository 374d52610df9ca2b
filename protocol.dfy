/** The decoder of src/stormaudio_isp_telnet/telnet_client.py as pure
    functions: the evaluators of one buffered line (`_eval__line` and its
    continuations), the chain of evaluators tried on the head line, the loop
    that runs the chain until it needs more input, and the reassembly of
    received chunks into lines. The imperative client in module TelnetClient
    is proved to compute exactly these functions. */
module Protocol {
  import opened Wrappers
  import opened Strings
  import opened Numbers
  import opened LineReader
  import opened Devices

  /** `ReadLinesResult`, an `IntFlag` of four bits. */
  datatype Flags = Flags(complete: bool, stateUpdated: bool, incomplete: bool, ignored: bool) {
    /** `self | other`. */
    function Union(other: Flags): Flags {
      Flags(complete || other.complete, stateUpdated || other.stateUpdated,
            incomplete || other.incomplete, ignored || other.ignored)
    }
  }

  const NONE: Flags := Flags(false, false, false, false)
  const COMPLETE: Flags := Flags(true, false, false, false)
  const COMPLETE_UPDATED: Flags := Flags(true, true, false, false)
  const INCOMPLETE: Flags := Flags(false, false, true, false)
  const IGNORED: Flags := Flags(false, false, false, true)

  /** The results an evaluator of one line can return. */
  predicate IsOutcome(f: Flags) {
    f == IGNORED || f == INCOMPLETE || f == COMPLETE || f == COMPLETE_UPDATED
  }

  /** What an evaluator did: return flags, or raise (a failed `int`,
      `Decimal` or enumeration conversion, or an index out of range). A raise
      leaves the evaluator at once and ends the read loop. */
  datatype Step = Done(flags: Flags) | Raised

  /** The single-bracket fields: `ssp.<name>.[<value>]`. */
  datatype Field = Brand | Model | Volume | PresetId | InputId | InputZone2Id

  /** The multi-line listings: `start`, then `list` lines, then `end`. */
  datatype BlockKind = InputBlock | ZoneBlock | PresetBlock

  /** An evaluator the read loop tries on the head line. */
  datatype Matcher = Keepalive | Power | ProcState | Mute | Single(field: Field) | Listing(kind: BlockKind)

  /** The path of a single-bracket field. */
  function FieldPath(f: Field): seq<string> {
    match f
    case Brand => ["ssp", "brand"]
    case Model => ["ssp", "model"]
    case Volume => ["ssp", "vol"]
    case PresetId => ["ssp", "preset"]
    case InputId => ["ssp", "input"]
    case InputZone2Id => ["ssp", "inputZone2"]
  }

  /** The path an evaluator expects at the start of its line. */
  function Prefix(m: Matcher): seq<Token> {
    match m
    case Keepalive => Words(["ssp", "keepalive"])
    case Power => Words(["ssp", "power"])
    case ProcState => Words(["ssp", "procstate"])
    case Mute => Words(["ssp", "mute"])
    case Single(f) => Words(FieldPath(f))
    case Listing(InputBlock) => Words(["ssp", "input", "start"])
    case Listing(ZoneBlock) => Words(["ssp", "zones", "start"])
    case Listing(PresetBlock) => Words(["ssp", "preset", "start"])
  }

  /** The path of a listing's record lines. */
  function ListPrefix(k: BlockKind): seq<Token> {
    match k
    case InputBlock => Words(["ssp", "input", "list"])
    case ZoneBlock => Words(["ssp", "zones", "list"])
    case PresetBlock => Words(["ssp", "preset", "list"])
  }

  /** The path of a listing's closing line. */
  function EndPrefix(k: BlockKind): seq<Token> {
    match k
    case InputBlock => Words(["ssp", "input", "end"])
    case ZoneBlock => Words(["ssp", "zones", "end"])
    case PresetBlock => Words(["ssp", "preset", "end"])
  }

  /** The evaluators in the order the read loop tries them. */
  const Registry: seq<Matcher> := [
    Keepalive, Single(Brand), Single(Model), Power, ProcState, Single(Volume), Mute,
    Listing(InputBlock), Listing(ZoneBlock), Listing(PresetBlock),
    Single(PresetId), Single(InputId), Single(InputZone2Id)]

  /** The command the client sends when a preset change completes. */
  const ZonesRequest: string := "ssp.zones.list"

  /** What the evaluators read and write: the line buffer, the device state
      and the keepalive flag. */
  datatype Session = Session(buf: LinesState, dev: Device, keepalive: bool)

  /** `pop_next_token_if_equal('on')`, then `'off'`: which of the two words
      is at the cursor, if either. */
  function OnOff(tokens: seq<Token>, pos: nat): (r: Option<bool>)
    ensures r == Some(true) <==> TokenAt(tokens, pos) == Some(Word("on"))
    ensures r == Some(false) <==> TokenAt(tokens, pos) == Some(Word("off"))
  {
    if TokenAt(tokens, pos) == Some(Word("on")) then Some(true)
    else if TokenAt(tokens, pos) == Some(Word("off")) then Some(false)
    else None
  }

  /** `_eval_processor_state`'s mapping of the device's code: "1" means the
      processor is starting up when the last power command was "on", and
      shutting down otherwise. */
  function NextProcessorState(code: string, power: Option<PowerCommand>): (r: Option<ProcessorState>)
    ensures r.Some? <==> code == "0" || code == "1" || code == "2"
  {
    if code == "0" then Some(ProcessorState.Off)
    else if code == "1" then
      Some(if power == Some(PowerCommand.On) then ProcessorState.Initializing else ProcessorState.ShuttingDown)
    else if code == "2" then Some(ProcessorState.On)
    else None
  }

  /** The conversion and assignment of a single-bracket field (the
      `convert_fn` and `set_fn` the read loop passes): `None` when the
      conversion raises. */
  function SetField(f: Field, dev: Device, text: string): (r: Option<Device>)
    ensures f == Brand ==> r == Some(dev.(brand := Some(Strip(text, Quote))))
    ensures f == Model ==> r == Some(dev.(model := Some(Strip(text, Quote))))
    ensures f == Volume ==> (r.Some? <==> ParseDecimal(text).Some?)
    ensures f == Volume && r.Some? ==> r.value == dev.(volumeDb := ParseDecimal(text))
    ensures f == PresetId || f == InputId || f == InputZone2Id ==> (r.Some? <==> ParseInt(text).Some?)
    ensures f == PresetId && r.Some? ==> r.value == dev.(presetId := ParseInt(text))
    ensures f == InputId && r.Some? ==> r.value == dev.(inputId := ParseInt(text))
    ensures f == InputZone2Id && r.Some? ==> r.value == dev.(inputZone2Id := ParseInt(text))
  {
    match f
    case Brand => Some(dev.(brand := Some(Strip(text, Quote))))
    case Model => Some(dev.(model := Some(Strip(text, Quote))))
    case Volume =>
      (match ParseDecimal(text)
       case Some(v) => Some(dev.(volumeDb := Some(v)))
       case None => None)
    case PresetId =>
      (match ParseInt(text)
       case Some(n) => Some(dev.(presetId := Some(n)))
       case None => None)
    case InputId =>
      (match ParseInt(text)
       case Some(n) => Some(dev.(inputId := Some(n)))
       case None => None)
    case InputZone2Id =>
      (match ParseInt(text)
       case Some(n) => Some(dev.(inputZone2Id := Some(n)))
       case None => None)
  }

  /** The device's own rendering of a field's value reads back: a quoted
      brand or model name loses its quotes, and an integral volume or an id
      written by `str` converts to itself. */
  lemma SetFieldReadBack(dev: Device, name: string, volume: Decimal, n: int)
    requires PlainName(name) && volume.exponent == 0
    ensures SetField(Brand, dev, Quoted(name)) == Some(dev.(brand := Some(name)))
    ensures SetField(Model, dev, Quoted(name)) == Some(dev.(model := Some(name)))
    ensures SetField(Volume, dev, IntToString(volume.coefficient)) == Some(dev.(volumeDb := Some(volume)))
    ensures SetField(PresetId, dev, IntToString(n)) == Some(dev.(presetId := Some(n)))
  {
    UnquoteQuoted(name);
    IntegralDecimal(volume, IntToString(volume.coefficient));
    IntRoundTrip(n);
  }

  /** The buffer after an evaluator read ahead from `buf`: same lines, same
      commit point, and no more unread lines than before. */
  predicate ReadOn(buf: LinesState, after: LinesState)
    requires buf.Valid()
  {
    after.Valid() && after.lines == buf.lines && after.saved == buf.saved
    && |after.Unread()| <= |buf.Unread()|
  }

  /** The loop of `_eval_inputs`, `_eval_zones` and `_eval_presets`: read
      lines until the closing line, collecting one record per `list` line.
      Yields the step, the buffer and the records collected so far (the
      collection is stored by the caller, and only on the closing line). */
  function Block<R>(list: seq<Token>, end: seq<Token>, parse: seq<string> -> Option<R>,
                    buf: LinesState, acc: seq<R>): (r: (Step, LinesState, seq<R>))
    requires buf.Valid()
    ensures ReadOn(buf, r.1)
    ensures r.0 == Raised || r.0 == Done(IGNORED) || r.0 == Done(INCOMPLETE) || r.0 == Done(COMPLETE_UPDATED)
    ensures r.0 == Done(INCOMPLETE) ==> !r.1.HasNext()
    decreases |buf.Unread()|
  {
    if !buf.HasNext() then (Done(INCOMPLETE), buf, acc)
    else
      var tokens := buf.Head().tokens;
      var b := buf.Advance();
      if TokensAt(tokens, 0, list) then
        match TokenAt(tokens, |list|)
        case Some(Args(items)) =>
          (match parse(items)
           case None => (Raised, b, acc)
           case Some(rec) => Block(list, end, parse, b, acc + [rec]))
        case _ => (Done(IGNORED), b, acc)
      else if TokensAt(tokens, 0, end) then (Done(COMPLETE_UPDATED), b, acc)
      else (Done(IGNORED), b, acc)
  }

  /** One listing evaluator: run its block and, on the closing line, replace
      the collection. */
  function ListingStep(k: BlockKind, s: Session): (r: (Step, Session))
    requires s.buf.Valid()
    ensures ReadOn(s.buf, r.1.buf) && r.1.keepalive == s.keepalive
    ensures r.0 != Done(COMPLETE_UPDATED) ==> r.1.dev == s.dev
    ensures r.0 == Done(COMPLETE_UPDATED) ==> r.1.dev == match k
      case InputBlock => s.dev.(inputs := r.1.dev.inputs)
      case ZoneBlock => s.dev.(zones := r.1.dev.zones)
      case PresetBlock => s.dev.(presets := r.1.dev.presets)
  {
    match k
    case InputBlock =>
      var (step, b, recs) := Block(ListPrefix(k), EndPrefix(k), ParseInput, s.buf, []);
      (step, s.(buf := b, dev := if step == Done(COMPLETE_UPDATED) then s.dev.(inputs := Some(recs)) else s.dev))
    case ZoneBlock =>
      var (step, b, recs) := Block(ListPrefix(k), EndPrefix(k), ParseZone, s.buf, []);
      (step, s.(buf := b, dev := if step == Done(COMPLETE_UPDATED) then s.dev.(zones := Some(recs)) else s.dev))
    case PresetBlock =>
      var (step, b, recs) := Block(ListPrefix(k), EndPrefix(k), ParsePreset, s.buf, []);
      (step, s.(buf := b, dev := if step == Done(COMPLETE_UPDATED) then s.dev.(presets := Some(recs)) else s.dev))
  }

  /** The continuation an evaluator runs once its prefix matched, with the
      cursor at `pos` in the line's `tokens`, and `s.buf` just past that line. */
  function Continue(m: Matcher, tokens: seq<Token>, pos: nat, s: Session): (r: (Step, Session))
    requires s.buf.Valid()
    ensures ReadOn(s.buf, r.1.buf)
    ensures !m.Listing? ==> r.1.buf == s.buf
    ensures r.0.Done? ==> IsOutcome(r.0.flags)
    ensures (r.0.Raised? || !r.0.flags.stateUpdated) ==> r.1.dev == s.dev
    ensures m != Keepalive ==> r.1.keepalive == s.keepalive
  {
    match m
    case Keepalive => (Done(COMPLETE), s.(keepalive := true))
    case Power =>
      (match OnOff(tokens, pos)
       case Some(on) =>
         (Done(COMPLETE_UPDATED), s.(dev := s.dev.(powerCommand := Some(if on then PowerCommand.On else PowerCommand.Off))))
       case None => (Done(IGNORED), s))
    case Mute =>
      (match OnOff(tokens, pos)
       case Some(on) => (Done(COMPLETE_UPDATED), s.(dev := s.dev.(mute := Some(on))))
       case None => (Done(IGNORED), s))
    case ProcState => ProcStateStep(tokens, pos, s)
    case Single(f) => SingleStep(f, tokens, pos, s)
    case Listing(k) =>
      ListingStep(k, s)
  }

  /** The continuation of `ssp.procstate`: the argument list's first item
      decides the processor state, given the last power command. */
  function ProcStateStep(tokens: seq<Token>, pos: nat, s: Session): (r: (Step, Session))
    ensures r.1.buf == s.buf && r.1.keepalive == s.keepalive
    ensures r.0.Done? ==> r.0.flags == COMPLETE_UPDATED || r.0.flags == IGNORED
    ensures r.0.Raised? <==> TokenAt(tokens, pos) == Some(Args([]))
    ensures (r.0.Raised? || !r.0.flags.stateUpdated) ==> r.1.dev == s.dev
  {
    match TokenAt(tokens, pos)
    case Some(Args(items)) =>
      if items == [] then (Raised, s)
      else
        (match NextProcessorState(items[0], s.dev.powerCommand)
         case Some(p) => (Done(COMPLETE_UPDATED), s.(dev := s.dev.(processorState := Some(p))))
         case None => (Done(IGNORED), s))
    case _ => (Done(IGNORED), s)
  }

  /** The continuation of a one-field line: the argument list's first item
      is converted and stored in the field. */
  function SingleStep(f: Field, tokens: seq<Token>, pos: nat, s: Session): (r: (Step, Session))
    ensures r.1.buf == s.buf && r.1.keepalive == s.keepalive
    ensures r.0.Done? ==> r.0.flags == COMPLETE_UPDATED || r.0.flags == IGNORED
    ensures r.0.Raised? <==> match TokenAt(tokens, pos)
      case Some(Args(items)) => items == [] || SetField(f, s.dev, items[0]).None?
      case _ => false
    ensures (r.0.Raised? || !r.0.flags.stateUpdated) ==> r.1.dev == s.dev
  {
    match TokenAt(tokens, pos)
    case Some(Args(items)) =>
      if items == [] then (Raised, s)
      else
        (match SetField(f, s.dev, items[0])
         case Some(d) => (Done(COMPLETE_UPDATED), s.(dev := d))
         case None => (Raised, s))
    case _ => (Done(IGNORED), s)
  }

  /** `_eval__line`: read the next line; if it starts with the evaluator's
      prefix, run the continuation and then commit the buffer when the result
      has COMPLETE and roll it back otherwise; if not, roll back and return
      IGNORED; with no line to read, return INCOMPLETE. A raise propagates
      without rolling back. */
  function Evaluate(m: Matcher, s: Session): (r: (Step, Session))
    requires s.buf.Valid()
    ensures r.1.buf.Valid()
  {
    if !s.buf.HasNext() then (Done(INCOMPLETE), s)
    else
      var tokens := s.buf.Head().tokens;
      var read := s.(buf := s.buf.Advance());
      if !TokensAt(tokens, 0, Prefix(m)) then (Done(IGNORED), read.(buf := read.buf.Reset()))
      else
        var (step, t) := Continue(m, tokens, |Prefix(m)|, read);
        match step
        case Raised => (Raised, t)
        case Done(f) => (step, t.(buf := if f.complete then t.buf.Consume() else t.buf.Reset()))
  }

  /** On a buffer with nothing read since the last commit, an evaluator either
      commits at least one line or leaves the buffer exactly as it was, and
      only a result with STATE_UPDATED changes the device state. */
  lemma EvaluateOnSettled(m: Matcher, s: Session)
    requires s.buf.Valid() && s.buf.Settled()
    ensures var (step, t) := Evaluate(m, s);
      && (step.Done? ==> IsOutcome(step.flags) && t.buf.Settled())
      && (step.Done? && step.flags.complete ==> |t.buf.Pending()| < |s.buf.Pending()|)
      && (step.Done? && !step.flags.complete ==> t.buf == s.buf)
      && ((step.Raised? || !step.flags.stateUpdated) ==> t.dev == s.dev)
  {
  }

  /** A session whose next line has the given tokens, with nothing read
      since the last commit. */
  predicate HeadIs(s: Session, tokens: seq<Token>) {
    s.buf.Valid() && s.buf.Settled() && s.buf.HasNext() && s.buf.Head().tokens == tokens
  }

  /** The buffer once its head line has been read and committed. */
  function Committed(s: Session): Session
    requires s.buf.Valid() && s.buf.HasNext()
  {
    s.(buf := s.buf.Advance().Consume())
  }

  /** `_eval__line` without a line to read returns INCOMPLETE and touches
      nothing; on a line that does not start with the evaluator's path it
      returns IGNORED and, the read being rolled back, touches nothing either. */
  lemma EvaluateUnmatched(m: Matcher, s: Session)
    requires s.buf.Valid() && s.buf.Settled()
    ensures !s.buf.HasNext() ==> Evaluate(m, s) == (Done(INCOMPLETE), s)
    ensures s.buf.HasNext() && !TokensAt(s.buf.Head().tokens, 0, Prefix(m)) ==> Evaluate(m, s) == (Done(IGNORED), s)
  {
    if s.buf.HasNext() {
      assert s.buf.Advance().Reset() == s.buf;
    }
  }

  /** `_eval_keepalive`: a line starting with `ssp.keepalive` sets the
      keepalive flag, returns COMPLETE (without STATE_UPDATED) and commits
      the line; the device state is untouched. */
  lemma KeepaliveLine(s: Session, tokens: seq<Token>)
    requires HeadIs(s, tokens) && TokensAt(tokens, 0, Prefix(Keepalive))
    ensures Evaluate(Keepalive, s) == (Done(COMPLETE), Committed(s).(keepalive := true))
  {
  }

  /** `_eval_mute` and `_eval_power_command`: "on" and "off" set the mute
      flag or the power command and commit the line; any other token, or
      none, is IGNORED and changes nothing. */
  lemma SwitchLine(m: Matcher, s: Session, tokens: seq<Token>)
    requires m == Mute || m == Power
    requires HeadIs(s, tokens) && TokensAt(tokens, 0, Prefix(m))
    ensures var w := TokenAt(tokens, 2); var r := Evaluate(m, s);
      && (w == Some(Word("on")) ==> r == (Done(COMPLETE_UPDATED), Committed(s).(dev :=
            if m == Mute then s.dev.(mute := Some(true)) else s.dev.(powerCommand := Some(PowerCommand.On)))))
      && (w == Some(Word("off")) ==> r == (Done(COMPLETE_UPDATED), Committed(s).(dev :=
            if m == Mute then s.dev.(mute := Some(false)) else s.dev.(powerCommand := Some(PowerCommand.Off)))))
      && (w != Some(Word("on")) && w != Some(Word("off")) ==> r == (Done(IGNORED), s))
  {
    assert s.buf.Advance().Reset() == s.buf;
  }

  /** `SwitchLine` for a line whose word is "on" (`on`) or "off" (not `on`). */
  lemma SwitchedLine(m: Matcher, s: Session, tokens: seq<Token>, on: bool)
    requires m == Mute || m == Power
    requires HeadIs(s, tokens) && TokensAt(tokens, 0, Prefix(m))
    requires TokenAt(tokens, 2) == Some(Word(if on then "on" else "off"))
    ensures Evaluate(m, s) == (Done(COMPLETE_UPDATED), Committed(s).(dev :=
      if m == Mute then s.dev.(mute := Some(on))
      else s.dev.(powerCommand := Some(if on then PowerCommand.On else PowerCommand.Off))))
  {
    SwitchLine(m, s, tokens);
  }

  /** `_eval_processor_state`: on an argument list, "0" means off, "2" on,
      and "1" initializing exactly when the last power command was "on" and
      shutting down otherwise; any other code, or a token that is not a list,
      is IGNORED and changes nothing; an empty list raises. */
  lemma ProcessorStateLine(s: Session, tokens: seq<Token>)
    requires HeadIs(s, tokens) && TokensAt(tokens, 0, Prefix(ProcState))
    ensures var r := Evaluate(ProcState, s);
      match TokenAt(tokens, 2)
      case Some(Args(items)) =>
        if items == [] then r.0 == Raised
        else if items[0] == "0" then r == (Done(COMPLETE_UPDATED), Committed(s).(dev := s.dev.(processorState := Some(ProcessorState.Off))))
        else if items[0] == "1" && s.dev.powerCommand == Some(PowerCommand.On) then
          r == (Done(COMPLETE_UPDATED), Committed(s).(dev := s.dev.(processorState := Some(ProcessorState.Initializing))))
        else if items[0] == "1" then
          r == (Done(COMPLETE_UPDATED), Committed(s).(dev := s.dev.(processorState := Some(ProcessorState.ShuttingDown))))
        else if items[0] == "2" then r == (Done(COMPLETE_UPDATED), Committed(s).(dev := s.dev.(processorState := Some(ProcessorState.On))))
        else r == (Done(IGNORED), s)
      case _ => r == (Done(IGNORED), s)
  {
    assert s.buf.Advance().Reset() == s.buf;
  }

  /** `_eval__single_bracket_field`: only an argument list after the path sets
      the field, to the conversion of its first item, and commits the line; a
      failed conversion raises; anything else is IGNORED and changes nothing. */
  lemma FieldLine(f: Field, s: Session, tokens: seq<Token>)
    requires HeadIs(s, tokens) && TokensAt(tokens, 0, Prefix(Single(f)))
    ensures var r := Evaluate(Single(f), s);
      match TokenAt(tokens, 2)
      case Some(Args(items)) =>
        if items == [] then r.0 == Raised
        else
          (match SetField(f, s.dev, items[0])
           case Some(d) => r == (Done(COMPLETE_UPDATED), Committed(s).(dev := d))
           case None => r.0 == Raised && r.1.dev == s.dev)
      case _ => r == (Done(IGNORED), s)
  {
    var read := s.(buf := s.buf.Advance());
    assert |Prefix(Single(f))| == 2;
    match TokenAt(tokens, 2)
    case Some(Args(items)) =>
      if items != [] {
        match SetField(f, s.dev, items[0])
        case Some(d) =>
          assert Continue(Single(f), tokens, 2, read) == (Done(COMPLETE_UPDATED), read.(dev := d));
        case None =>
      }
    case _ =>
      assert s.buf.Advance().Reset() == s.buf;
  }

  /** A line of a listing whose argument list parses to `rec`. */
  ghost predicate RecordLine<R>(tokens: seq<Token>, list: seq<Token>, parse: seq<string> -> Option<R>, rec: R) {
    && TokensAt(tokens, 0, list) && |list| < |tokens| && tokens[|list|].Args?
    && parse(tokens[|list|].items) == Some(rec)
  }

  /** A record line at the head of a listing adds its record and the
      listing goes on with the next line. */
  lemma BlockRecordStep<R>(list: seq<Token>, end: seq<Token>, parse: seq<string> -> Option<R>,
                           buf: LinesState, acc: seq<R>, rec: R)
    requires buf.Valid() && buf.HasNext() && RecordLine(buf.Head().tokens, list, parse, rec)
    ensures Block(list, end, parse, buf, acc) == Block(list, end, parse, buf.Advance(), acc + [rec])
  {
  }

  /** A listing's closing line (which is not also a record line). */
  predicate EndLine(tokens: seq<Token>, list: seq<Token>, end: seq<Token>) {
    !TokensAt(tokens, 0, list) && TokensAt(tokens, 0, end)
  }

  /** The closing line at the head of a listing completes it. */
  lemma BlockEndStep<R>(list: seq<Token>, end: seq<Token>, parse: seq<string> -> Option<R>,
                        buf: LinesState, acc: seq<R>)
    requires buf.Valid() && buf.HasNext()
    requires EndLine(buf.Head().tokens, list, end)
    ensures Block(list, end, parse, buf, acc) == (Done(COMPLETE_UPDATED), buf.(next := Some(buf.next.value + 1)), acc)
  {
  }

  /** The lines from index `from` on are record lines for `recs`, in order. */
  ghost predicate RecordLines<R>(lines: seq<TokenizedLine>, from: nat, list: seq<Token>, parse: seq<string> -> Option<R>, recs: seq<R>)
    decreases |recs|
  {
    recs == [] || (from < |lines| && RecordLine(lines[from].tokens, list, parse, recs[0])
                   && RecordLines(lines, from + 1, list, parse, recs[1..]))
  }

  /** What a listing returns when its closing line follows the record lines
      for `recs`: COMPLETE | STATE_UPDATED, the read index just past the
      closing line, and the records in order. */
  function Completed<R>(buf: LinesState, acc: seq<R>, recs: seq<R>): (Step, LinesState, seq<R>)
    requires buf.next.Some?
  {
    (Done(COMPLETE_UPDATED), buf.Skip(|recs| + 1), acc + recs)
  }

  /** A listing whose record lines are followed by its closing line yields
      one record per record line, in order, and stops just past the closing
      line. */
  lemma {:induction false} BlockCollects<R>(list: seq<Token>, end: seq<Token>, parse: seq<string> -> Option<R>,
                                            buf: LinesState, acc: seq<R>, recs: seq<R>)
    requires buf.Valid() && buf.next.Some? && buf.next.value + |recs| < |buf.lines|
    requires RecordLines(buf.lines, buf.next.value, list, parse, recs)
    requires EndLine(buf.lines[buf.next.value + |recs|].tokens, list, end)
    ensures Block(list, end, parse, buf, acc) == Completed(buf, acc, recs)
    decreases |recs|, 1
  {
    if recs == [] {
      assert buf.Head() == buf.lines[buf.next.value];
      BlockEndStep(list, end, parse, buf, acc);
      assert acc + recs == acc;
    } else {
      BlockCollectsRecord(list, end, parse, buf, acc, recs);
    }
  }

  /** `BlockCollects` when the listing starts with a record line. */
  lemma {:induction false} BlockCollectsRecord<R>(list: seq<Token>, end: seq<Token>, parse: seq<string> -> Option<R>,
                                                  buf: LinesState, acc: seq<R>, recs: seq<R>)
    requires buf.Valid() && buf.next.Some? && buf.next.value + |recs| < |buf.lines| && recs != []
    requires RecordLines(buf.lines, buf.next.value, list, parse, recs)
    requires EndLine(buf.lines[buf.next.value + |recs|].tokens, list, end)
    ensures Block(list, end, parse, buf, acc) == Completed(buf, acc, recs)
    decreases |recs|, 0
  {
    assert RecordLine(buf.Head().tokens, list, parse, recs[0]) by {
      assert buf.Head() == buf.lines[buf.next.value];
    }
    BlockCollects(list, end, parse, buf.Advance(), acc + [recs[0]], recs[1..]);
    CompletedShift(buf, acc, recs);
    BlockRecordStep(list, end, parse, buf, acc, recs[0]);
  }

  /** Taking the first record line off the front: one line further on, with
      the record moved into the collection. */
  lemma CompletedShift<R>(buf: LinesState, acc: seq<R>, recs: seq<R>)
    requires buf.Valid() && buf.HasNext() && recs != []
    ensures Completed(buf.Advance(), acc + [recs[0]], recs[1..]) == Completed(buf, acc, recs)
  {
    assert acc + [recs[0]] + recs[1..] == acc + recs;
  }

  /** The zone listing as written: its first record line raises, since
      `ParseZoneAsWritten` fails on every argument list, so no zone listing
      ever completes and the read loop ends. */
  lemma ZoneListingAsWritten(buf: LinesState, acc: seq<Zone>)
    requires buf.Valid() && buf.HasNext()
    requires var tokens := buf.Head().tokens;
      TokensAt(tokens, 0, ListPrefix(ZoneBlock)) && TokenAt(tokens, |ListPrefix(ZoneBlock)|).Some?
      && TokenAt(tokens, |ListPrefix(ZoneBlock)|).value.Args?
    ensures Block(ListPrefix(ZoneBlock), EndPrefix(ZoneBlock), ParseZoneAsWritten, buf, acc).0 == Raised
  {
  }

  /** A line of neither kind, at the head of a listing, ends it IGNORED
      just past that line (the caller then rolls back). */
  lemma BlockOtherLine<R>(list: seq<Token>, end: seq<Token>, parse: seq<string> -> Option<R>,
                          buf: LinesState, acc: seq<R>)
    requires buf.Valid() && buf.HasNext()
    requires !TokensAt(buf.Head().tokens, 0, list) && !TokensAt(buf.Head().tokens, 0, end)
    ensures Block(list, end, parse, buf, acc) == (Done(IGNORED), buf.Advance(), acc)
  {
  }

  /** From the read index of `buf` on: record lines for `recs`, then a
      closing line. */
  ghost predicate ListedThenEnd<R>(buf: LinesState, list: seq<Token>, end: seq<Token>, parse: seq<string> -> Option<R>, recs: seq<R>) {
    && buf.next.Some? && buf.next.value + |recs| < |buf.lines|
    && RecordLines(buf.lines, buf.next.value, list, parse, recs)
    && EndLine(buf.lines[buf.next.value + |recs|].tokens, list, end)
  }

  /** The converse of `BlockCollects`: a listing completes only when the
      lines it read are record lines followed by its closing line, and then
      it has collected exactly their records. */
  lemma {:induction false} BlockCompleteMeansEnd<R>(list: seq<Token>, end: seq<Token>, parse: seq<string> -> Option<R>,
                                                    buf: LinesState, acc: seq<R>)
    requires buf.Valid() && Block(list, end, parse, buf, acc).0 == Done(COMPLETE_UPDATED)
    ensures buf.next.Some?
    ensures exists recs :: (ListedThenEnd(buf, list, end, parse, recs)
                           && Block(list, end, parse, buf, acc) == Completed(buf, acc, recs))
    decreases |buf.Unread()|
  {
    if TokensAt(buf.Head().tokens, 0, list) {
      var rec := CompletedHeadRecord(list, end, parse, buf, acc);
      RecordRest(list, end, parse, buf, acc, rec);
    } else {
      CompletedHeadEnd(list, end, parse, buf, acc);
    }
  }

  /** A completed listing whose head line is a record line: that line's
      record, with the listing completing from the next line on. */
  lemma CompletedHeadRecord<R>(list: seq<Token>, end: seq<Token>, parse: seq<string> -> Option<R>,
                               buf: LinesState, acc: seq<R>) returns (rec: R)
    requires buf.Valid() && Block(list, end, parse, buf, acc).0 == Done(COMPLETE_UPDATED)
    requires buf.HasNext() && TokensAt(buf.Head().tokens, 0, list)
    ensures RecordLine(buf.Head().tokens, list, parse, rec)
    ensures Block(list, end, parse, buf.Advance(), acc + [rec]) == Block(list, end, parse, buf, acc)
  {
    var tokens := buf.Head().tokens;
    rec := parse(tokens[|list|].items).value;
  }

  /** A completed listing whose head line is not a record line: that line
      closes it, with no record collected. */
  lemma CompletedHeadEnd<R>(list: seq<Token>, end: seq<Token>, parse: seq<string> -> Option<R>,
                            buf: LinesState, acc: seq<R>)
    requires buf.Valid() && Block(list, end, parse, buf, acc).0 == Done(COMPLETE_UPDATED)
    requires !(buf.HasNext() && TokensAt(buf.Head().tokens, 0, list))
    ensures ListedThenEnd(buf, list, end, parse, [])
    ensures Block(list, end, parse, buf, acc) == Completed(buf, acc, [])
  {
    assert buf.Head() == buf.lines[buf.next.value];
    assert acc + [] == acc;
  }

  /** `BlockCompleteMeansEnd` when the head line is a record line. */
  lemma {:induction false} RecordRest<R>(list: seq<Token>, end: seq<Token>, parse: seq<string> -> Option<R>,
                                         buf: LinesState, acc: seq<R>, rec: R)
    requires buf.Valid() && buf.HasNext() && RecordLine(buf.Head().tokens, list, parse, rec)
    requires Block(list, end, parse, buf.Advance(), acc + [rec]) == Block(list, end, parse, buf, acc)
    requires Block(list, end, parse, buf, acc).0 == Done(COMPLETE_UPDATED)
    ensures exists recs :: (ListedThenEnd(buf, list, end, parse, recs)
                           && Block(list, end, parse, buf, acc) == Completed(buf, acc, recs))
    decreases |buf.Unread()|, 0
  {
    var b := buf.Advance();
    BlockCompleteMeansEnd(list, end, parse, b, acc + [rec]);
    var rest :| ListedThenEnd(b, list, end, parse, rest)
      && Block(list, end, parse, b, acc + [rec]) == Completed(b, acc + [rec], rest);
    var recs := [rec] + rest;
    assert recs[0] == rec && recs[1..] == rest;
    ListedCons(list, end, parse, buf, rec, rest);
    CompletedShift(buf, acc, recs);
  }

  /** A record line in front of record lines and a closing line. */
  lemma ListedCons<R>(list: seq<Token>, end: seq<Token>, parse: seq<string> -> Option<R>,
                      buf: LinesState, rec: R, rest: seq<R>)
    requires buf.Valid() && buf.HasNext() && RecordLine(buf.Head().tokens, list, parse, rec)
    requires ListedThenEnd(buf.Advance(), list, end, parse, rest)
    ensures ListedThenEnd(buf, list, end, parse, [rec] + rest)
  {
    var recs := [rec] + rest;
    assert recs[0] == rec && recs[1..] == rest;
    assert buf.Head() == buf.lines[buf.next.value];
  }

  /** `BlockCollects` from an empty collection, the way a listing evaluator
      starts. */
  lemma CollectsFromStart<R>(list: seq<Token>, end: seq<Token>, parse: seq<string> -> Option<R>,
                             buf: LinesState, recs: seq<R>)
    requires buf.Valid() && ListedThenEnd(buf, list, end, parse, recs)
    ensures Block(list, end, parse, buf, []) == (Done(COMPLETE_UPDATED), buf.Skip(|recs| + 1), recs)
  {
    BlockCollects(list, end, parse, buf, [], recs);
    assert [] + recs == recs;
  }

  /** The converse of `CollectsFromStart`: a listing that starts from an
      empty collection and completes has read record lines for exactly the
      records it returns, then its closing line, and stops just past it. */
  lemma CompletesFromStart<R>(list: seq<Token>, end: seq<Token>, parse: seq<string> -> Option<R>,
                              buf: LinesState)
    requires buf.Valid()
    ensures var r := Block(list, end, parse, buf, []);
      r.0 == Done(COMPLETE_UPDATED) ==> ListedThenEnd(buf, list, end, parse, r.2) && r.1 == buf.Skip(|r.2| + 1)
  {
    if Block(list, end, parse, buf, []).0 == Done(COMPLETE_UPDATED) {
      var recs := CompletedRecords(list, end, parse, buf);
    }
  }

  /** The records of a completed listing that started from an empty
      collection, with the lines they came from. */
  lemma CompletedRecords<R>(list: seq<Token>, end: seq<Token>, parse: seq<string> -> Option<R>,
                            buf: LinesState) returns (recs: seq<R>)
    requires buf.Valid() && Block(list, end, parse, buf, []).0 == Done(COMPLETE_UPDATED)
    ensures ListedThenEnd(buf, list, end, parse, recs)
    ensures Block(list, end, parse, buf, []) == (Done(COMPLETE_UPDATED), buf.Skip(|recs| + 1), recs)
  {
    BlockCompleteMeansEnd(list, end, parse, buf, []);
    recs :| ListedThenEnd(buf, list, end, parse, recs)
      && Block(list, end, parse, buf, []) == Completed(buf, [], recs);
    assert [] + recs == recs;
  }

  /** A listing evaluator on its opening line: the listing runs on the
      lines after it; on COMPLETE | STATE_UPDATED every line read is
      committed and the collection stored, and on any other result the
      buffer and the device are as before. */
  lemma ListingLine(k: BlockKind, s: Session, tokens: seq<Token>)
    requires HeadIs(s, tokens) && TokensAt(tokens, 0, Prefix(Listing(k)))
    ensures var (step, t) := Evaluate(Listing(k), s);
      var (step', l) := ListingStep(k, s.(buf := s.buf.Advance()));
      && step == step' && t.dev == l.dev && t.keepalive == s.keepalive
      && (step == Done(COMPLETE_UPDATED) ==> t.buf == l.buf.Consume())
      && (step.Done? && step != Done(COMPLETE_UPDATED) ==> t.buf == s.buf && t.dev == s.dev)
  {
    var read := s.(buf := s.buf.Advance());
    ContinueListing(k, tokens, read);
    RollBackListing(s.buf, ListingStep(k, read).1.buf);
  }

  /** Once its opening line matched, a listing evaluator runs `ListingStep`. */
  lemma ContinueListing(k: BlockKind, tokens: seq<Token>, read: Session)
    requires read.buf.Valid()
    ensures Continue(Listing(k), tokens, |Prefix(Listing(k))|, read) == ListingStep(k, read)
  {
  }

  /** Rolling back after a listing restores the buffer it started from. */
  lemma RollBackListing(buf: LinesState, after: LinesState)
    requires buf.Valid() && buf.Settled() && buf.HasNext() && ReadOn(buf.Advance(), after)
    ensures after.Reset() == buf
  {
  }

  /** An input listing whose record lines are followed by its closing line
      replaces the input list with their inputs, in order. */
  lemma InputsListed(s: Session, recs: seq<Input>)
    requires s.buf.Valid() && ListedThenEnd(s.buf, ListPrefix(InputBlock), EndPrefix(InputBlock), ParseInput, recs)
    ensures ListingStep(InputBlock, s)
      == (Done(COMPLETE_UPDATED), s.(buf := s.buf.Skip(|recs| + 1), dev := s.dev.(inputs := Some(recs))))
  {
    CollectsFromStart(ListPrefix(InputBlock), EndPrefix(InputBlock), ParseInput, s.buf, recs);
    InputsStored(s, s.buf.Skip(|recs| + 1), recs);
  }

  /** The input listing stores the records of its block on COMPLETE | STATE_UPDATED. */
  lemma InputsStored(s: Session, b: LinesState, recs: seq<Input>)
    requires s.buf.Valid()
    requires Block(ListPrefix(InputBlock), EndPrefix(InputBlock), ParseInput, s.buf, []) == (Done(COMPLETE_UPDATED), b, recs)
    ensures ListingStep(InputBlock, s) == (Done(COMPLETE_UPDATED), s.(buf := b, dev := s.dev.(inputs := Some(recs))))
  {
  }

  /** A zone listing whose record lines are followed by its closing line
      replaces the zone list with their zones, in order. */
  lemma ZonesListed(s: Session, recs: seq<Zone>)
    requires s.buf.Valid() && ListedThenEnd(s.buf, ListPrefix(ZoneBlock), EndPrefix(ZoneBlock), ParseZone, recs)
    ensures ListingStep(ZoneBlock, s)
      == (Done(COMPLETE_UPDATED), s.(buf := s.buf.Skip(|recs| + 1), dev := s.dev.(zones := Some(recs))))
  {
    CollectsFromStart(ListPrefix(ZoneBlock), EndPrefix(ZoneBlock), ParseZone, s.buf, recs);
    ZonesStored(s, s.buf.Skip(|recs| + 1), recs);
  }

  /** The zone listing stores the records of its block on COMPLETE | STATE_UPDATED. */
  lemma ZonesStored(s: Session, b: LinesState, recs: seq<Zone>)
    requires s.buf.Valid()
    requires Block(ListPrefix(ZoneBlock), EndPrefix(ZoneBlock), ParseZone, s.buf, []) == (Done(COMPLETE_UPDATED), b, recs)
    ensures ListingStep(ZoneBlock, s) == (Done(COMPLETE_UPDATED), s.(buf := b, dev := s.dev.(zones := Some(recs))))
  {
  }

  /** A preset listing whose record lines are followed by its closing line
      replaces the preset list with their presets, in order. */
  lemma PresetsListed(s: Session, recs: seq<Preset>)
    requires s.buf.Valid() && ListedThenEnd(s.buf, ListPrefix(PresetBlock), EndPrefix(PresetBlock), ParsePreset, recs)
    ensures ListingStep(PresetBlock, s)
      == (Done(COMPLETE_UPDATED), s.(buf := s.buf.Skip(|recs| + 1), dev := s.dev.(presets := Some(recs))))
  {
    CollectsFromStart(ListPrefix(PresetBlock), EndPrefix(PresetBlock), ParsePreset, s.buf, recs);
    PresetsStored(s, s.buf.Skip(|recs| + 1), recs);
  }

  /** The preset listing stores the records of its block on COMPLETE | STATE_UPDATED. */
  lemma PresetsStored(s: Session, b: LinesState, recs: seq<Preset>)
    requires s.buf.Valid()
    requires Block(ListPrefix(PresetBlock), EndPrefix(PresetBlock), ParsePreset, s.buf, []) == (Done(COMPLETE_UPDATED), b, recs)
    ensures ListingStep(PresetBlock, s) == (Done(COMPLETE_UPDATED), s.(buf := b, dev := s.dev.(presets := Some(recs))))
  {
  }

  /** A listing that runs out of lines while every line is a record line
      ends INCOMPLETE after reading them all; the caller then rolls back. */
  lemma {:induction false} BlockRunsOut<R>(list: seq<Token>, end: seq<Token>, parse: seq<string> -> Option<R>,
                                           buf: LinesState, acc: seq<R>, recs: seq<R>)
    requires buf.Valid() && buf.next.Some? && buf.next.value + |recs| == |buf.lines|
    requires RecordLines(buf.lines, buf.next.value, list, parse, recs)
    ensures Block(list, end, parse, buf, acc) == (Done(INCOMPLETE), buf.(next := Some(|buf.lines|)), acc + recs)
    decreases |recs|
  {
    if recs == [] {
      assert acc + recs == acc;
    } else {
      var b := buf.Advance();
      assert buf.Head() == buf.lines[buf.next.value];
      BlockRecordStep(list, end, parse, buf, acc, recs[0]);
      BlockRunsOut(list, end, parse, b, acc + [recs[0]], recs[1..]);
      assert acc + [recs[0]] + recs[1..] == acc + recs;
    }
  }

  /** The chain of evaluators of one iteration of the read loop, in order,
      OR-ing their flags into `acc`; a preset-id evaluation whose result has
      COMPLETE sends the zones request. A raise ends the chain. */
  function RunMatchers(ms: seq<Matcher>, s: Session, acc: Flags, sent: seq<string>): (r: (Step, Session, seq<string>))
    requires s.buf.Valid()
    ensures r.1.buf.Valid()
    ensures r.0.Done? ==> acc.Union(r.0.flags) == r.0.flags
    ensures AddsZonesRequests(sent, r.2)
    decreases |ms|
  {
    if ms == [] then (Done(acc), s, sent)
    else
      var (step, t) := Evaluate(ms[0], s);
      match step
      case Raised => (Raised, t, sent)
      case Done(f) =>
        var sent' := SentAfter(ms[0], f, sent);
        var r := RunMatchers(ms[1..], t, acc.Union(f), sent');
        AddsZonesRequestsTrans(sent, sent', r.2);
        r
  }

  /** The commands sent once evaluator `m` returned `f`: a preset-id line
      whose result has COMPLETE sends the zones request. */
  function SentAfter(m: Matcher, f: Flags, sent: seq<string>): seq<string> {
    if m == Single(PresetId) && f.complete then sent + [ZonesRequest] else sent
  }

  /** The first evaluator of a non-empty chain, then the rest of the chain. */
  lemma RunMatchersStep(ms: seq<Matcher>, s: Session, acc: Flags, sent: seq<string>)
    requires s.buf.Valid() && ms != []
    ensures var (step, t) := Evaluate(ms[0], s);
      && (step.Raised? ==> RunMatchers(ms, s, acc, sent) == (Raised, t, sent))
      && (step.Done? ==> RunMatchers(ms, s, acc, sent)
                         == RunMatchers(ms[1..], t, acc.Union(step.flags), SentAfter(ms[0], step.flags, sent)))
  {
  }

  /** `after` is `before` followed by nothing but zones requests. */
  predicate AddsZonesRequests(before: seq<string>, after: seq<string>) {
    && |before| <= |after| && after[..|before|] == before
    && forall i :: |before| <= i < |after| ==> after[i] == ZonesRequest
  }

  lemma AddsZonesRequestsTrans(a: seq<string>, b: seq<string>, c: seq<string>)
    requires AddsZonesRequests(a, b) && AddsZonesRequests(b, c)
    ensures AddsZonesRequests(a, c)
  {
    assert c[..|a|] == c[..|b|][..|a|];
    forall i | |a| <= i < |c| ensures c[i] == ZonesRequest {
      if i < |b| {
        assert c[i] == c[..|b|][i];
      }
    }
  }

  /** One iteration on a settled buffer: the buffer is settled again; without
      COMPLETE it is unchanged; a COMPLETE that was not already in `acc`
      committed at least one line; a non-empty chain that neither completed
      nor ran out of lines was ignored by every evaluator; and without
      STATE_UPDATED the device state is unchanged. */
  lemma {:induction false} RunMatchersOnSettled(ms: seq<Matcher>, s: Session, acc: Flags, sent: seq<string>)
    requires s.buf.Valid() && s.buf.Settled()
    ensures var (step, t, _) := RunMatchers(ms, s, acc, sent);
      step.Done? ==>
        && t.buf.Settled() && |t.buf.Pending()| <= |s.buf.Pending()|
        && (!step.flags.complete ==> t.buf == s.buf)
        && (step.flags.complete && !acc.complete ==> |t.buf.Pending()| < |s.buf.Pending()|)
        && (ms != [] ==> step.flags.complete || step.flags.incomplete || step.flags == acc.Union(IGNORED))
        && (!step.flags.stateUpdated ==> t.dev == s.dev)
    decreases |ms|
  {
    if ms != [] {
      EvaluateOnSettled(ms[0], s);
      var (step, t) := Evaluate(ms[0], s);
      if step.Done? {
        var f := step.flags;
        var sent' := SentAfter(ms[0], f, sent);
        RunMatchersOnSettled(ms[1..], t, acc.Union(f), sent');
      }
    }
  }

  /** The outcome of the read loop's inner loop over the buffered lines. */
  datatype DrainResult = DrainResult(raised: bool, session: Session, updated: bool, sent: seq<string>)

  /** The inner loop of `_read_loop`: while a line is buffered, run the chain
      `ms` (the client runs `Registry`); note STATE_UPDATED; stop on
      INCOMPLETE; when every evaluator ignored the head line, drop it. A raise
      ends the loop. Every other iteration commits at least one line, which is
      why the loop ends. */
  function Drain(ms: seq<Matcher>, s: Session, updated: bool, sent: seq<string>): (r: DrainResult)
    requires ms != [] && s.buf.Valid() && s.buf.Settled()
    ensures r.session.buf.Valid()
    ensures !r.raised ==> r.session.buf.Settled()
    decreases |s.buf.Pending()|
  {
    if !s.buf.HasNext() then DrainResult(false, s, updated, sent)
    else
      var (step, t, sent') := RunMatchers(ms, s, NONE, sent);
      RunMatchersOnSettled(ms, s, NONE, sent);
      match step
      case Raised => DrainResult(true, t, updated, sent')
      case Done(f) =>
        var updated' := updated || f.stateUpdated;
        if f.incomplete then DrainResult(false, t, updated', sent')
        else if f == IGNORED then Drain(ms, t.(buf := t.buf.Advance().Consume()), updated', sent')
        else Drain(ms, t, updated', sent')
  }

  /** One iteration of the inner loop of `_read_loop`: a raise or an
      INCOMPLETE ends it; otherwise it goes on from a settled buffer with fewer
      pending lines, dropping the head line when every evaluator ignored it. */
  lemma DrainUnfold(ms: seq<Matcher>, s: Session, updated: bool, sent: seq<string>)
    requires ms != [] && s.buf.Valid() && s.buf.Settled() && s.buf.HasNext()
    ensures var (step, t, sent') := RunMatchers(ms, s, NONE, sent);
      && (step.Raised? ==> Drain(ms, s, updated, sent) == DrainResult(true, t, updated, sent'))
      && (step.Done? && step.flags.incomplete ==>
            Drain(ms, s, updated, sent) == DrainResult(false, t, updated || step.flags.stateUpdated, sent'))
      && (step.Done? && !step.flags.incomplete ==>
            && t.buf.Settled()
            && (step.flags == IGNORED ==> t.buf.HasNext() && |t.buf.Advance().Consume().Pending()| < |s.buf.Pending()|)
            && (step.flags != IGNORED ==> |t.buf.Pending()| < |s.buf.Pending()|)
            && Drain(ms, s, updated, sent)
               == Drain(ms, if step.flags == IGNORED then t.(buf := t.buf.Advance().Consume()) else t,
                        updated || step.flags.stateUpdated, sent'))
  {
    RunMatchersOnSettled(ms, s, NONE, sent);
  }

  /** The notification flag of the inner loop only goes from false to true,
      and it stays false only when the device state is unchanged (unless the
      loop ended in a raise). */
  lemma {:induction false} DrainUpdates(ms: seq<Matcher>, s: Session, updated: bool, sent: seq<string>)
    requires ms != [] && s.buf.Valid() && s.buf.Settled()
    ensures var r := Drain(ms, s, updated, sent);
      && (updated ==> r.updated)
      && (!r.raised && !r.updated ==> r.session.dev == s.dev)
    decreases |s.buf.Pending()|
  {
    if s.buf.HasNext() {
      var (step, t, sent') := RunMatchers(ms, s, NONE, sent);
      RunMatchersOnSettled(ms, s, NONE, sent);
      if step.Done? && !step.flags.incomplete {
        var updated' := updated || step.flags.stateUpdated;
        var next := if step.flags == IGNORED then t.(buf := t.buf.Advance().Consume()) else t;
        assert Drain(ms, s, updated, sent) == Drain(ms, next, updated', sent');
        DrainUpdates(ms, next, updated', sent');
      }
    }
  }

  /** The only command the inner loop sends is the zones request. */
  lemma {:induction false} DrainSends(ms: seq<Matcher>, s: Session, updated: bool, sent: seq<string>)
    requires ms != [] && s.buf.Valid() && s.buf.Settled()
    ensures AddsZonesRequests(sent, Drain(ms, s, updated, sent).sent)
    decreases |s.buf.Pending()|
  {
    if s.buf.HasNext() {
      var (step, t, sent') := RunMatchers(ms, s, NONE, sent);
      RunMatchersOnSettled(ms, s, NONE, sent);
      if step.Done? && !step.flags.incomplete {
        var updated' := updated || step.flags.stateUpdated;
        var next := if step.flags == IGNORED then t.(buf := t.buf.Advance().Consume()) else t;
        assert Drain(ms, s, updated, sent) == Drain(ms, next, updated', sent');
        DrainSends(ms, next, updated', sent');
        AddsZonesRequestsTrans(sent, sent', Drain(ms, next, updated', sent').sent);
      }
    }
  }

  /** The lines in `lines`, each followed by a newline. */
  function Terminated(lines: seq<string>): string {
    if lines == [] then "" else lines[0] + "\n" + Terminated(lines[1..])
  }

  /** Joining on newlines terminates every part but the last. */
  lemma {:induction false} JoinLines(parts: seq<string>)
    requires |parts| >= 1
    ensures Join(parts, "\n") == Terminated(parts[..|parts| - 1]) + parts[|parts| - 1]
    decreases |parts|
  {
    if |parts| > 1 {
      var rest := parts[1..];
      JoinLines(rest);
      assert parts[..|parts| - 1][1..] == rest[..|rest| - 1];
      assert parts[..|parts| - 1][0] == parts[0];
      assert rest[|rest| - 1] == parts[|parts| - 1];
    }
  }

  /** No piece of a split on newlines holds a newline. */
  lemma SplitLinesHaveNoNewline(s: string)
    ensures forall i :: 0 <= i < |Split(s, "\n")| ==> '\n' !in Split(s, "\n")[i]
  {
    var parts := Split(s, "\n");
    SplitPiecesLackSeparator(s, "\n");
    forall i | 0 <= i < |parts| ensures '\n' !in parts[i] {
      FindChar(parts[i], '\n');
    }
  }

  /** Lines 193-209 of `_read_loop`: append the chunk to the unterminated
      rest of earlier output, split on newlines, and keep the last piece as
      the new rest. */
  function Reassemble(pending: string, chunk: string): (r: (seq<string>, string))
    ensures pending + chunk == Terminated(r.0) + r.1
    ensures '\n' !in r.1 && forall i :: 0 <= i < |r.0| ==> '\n' !in r.0[i]
    ensures '\n' !in pending && '\n' !in chunk ==> r.0 == [] && r.1 == pending + chunk
  {
    var output := pending + chunk;
    var parts := Split(output, "\n");
    JoinSplit(output, "\n");
    JoinLines(parts);
    SplitLinesHaveNoNewline(output);
    FindChar(output, '\n');
    (parts[..|parts| - 1], parts[|parts| - 1])
  }

  /** What the client reports through its callbacks and its writer. */
  datatype Event = RawLine(line: string) | CommandSent(command: string) | StateUpdated | Disconnected

  function RawLines(lines: seq<string>): (r: seq<Event>)
    ensures |r| == |lines| && forall i :: 0 <= i < |lines| ==> r[i] == RawLine(lines[i])
  {
    seq(|lines|, i requires 0 <= i < |lines| => RawLine(lines[i]))
  }

  function Sent(commands: seq<string>): (r: seq<Event>)
    ensures |r| == |commands| && forall i :: 0 <= i < |commands| ==> r[i] == CommandSent(commands[i])
  {
    seq(|commands|, i requires 0 <= i < |commands| => CommandSent(commands[i]))
  }

  /** The client's decoder state between chunks. */
  datatype ClientView = ClientView(remaining: string, session: Session, finished: bool)

  /** Between two chunks of a running read loop: nothing read ahead and no
      newline left unprocessed. */
  predicate Ready(v: ClientView) {
    v.session.buf.Valid() && v.session.buf.Settled() && '\n' !in v.remaining && !v.finished
  }

  /** The events of one chunk after the end of file was not reached: the
      raw lines (only to a raw-line callback), the commands the inner loop
      sent, then the disconnection if it raised, or else the state-updated
      notification if any evaluation set STATE_UPDATED. */
  function ChunkEvents(lines: seq<string>, observeRawLines: bool, d: DrainResult): seq<Event> {
    var raw := if observeRawLines then RawLines(lines) else [];
    var last := if d.raised then [Disconnected] else if d.updated then [StateUpdated] else [];
    raw + Sent(d.sent) + last
  }

  /** The shape of a chunk's events. */
  lemma ChunkEventsShape(lines: seq<string>, observeRawLines: bool, d: DrainResult)
    requires forall i :: 0 <= i < |d.sent| ==> d.sent[i] == ZonesRequest
    ensures var e := ChunkEvents(lines, observeRawLines, d);
      && (d.raised <==> |e| > 0 && e[|e| - 1] == Disconnected)
      && (forall i :: 0 <= i < |e| - 1 ==> e[i].RawLine? || e[i].CommandSent?)
      && (StateUpdated in e <==> !d.raised && d.updated)
      && (!observeRawLines ==> forall i :: 0 <= i < |e| ==> !e[i].RawLine?)
      && (forall i :: 0 <= i < |e| && e[i].CommandSent? ==> e[i].command == ZonesRequest)
  {
    var raw := if observeRawLines then RawLines(lines) else [];
    var reports := raw + Sent(d.sent);
    assert forall i :: 0 <= i < |reports| ==> reports[i].RawLine? || reports[i].CommandSent?;
    forall i | 0 <= i < |reports| && reports[i].CommandSent? ensures reports[i].command == ZonesRequest {
      assert i >= |raw| && reports[i] == Sent(d.sent)[i - |raw|];
    }
    var e := ChunkEvents(lines, observeRawLines, d);
    if StateUpdated in e {
      var k :| 0 <= k < |e| && e[k] == StateUpdated;
      assert k >= |reports|;
    }
  }

  /** One pass of `_read_loop`'s outer loop: an empty read is end of file and
      ends the loop; otherwise report the complete lines (when a raw-line
      callback is set), buffer them, keep the rest, drain the buffer, and
      notify once if any evaluation updated the state. A raise ends the loop
      without that notification. Ending the loop reports the disconnection. */
  function Receive(v: ClientView, chunk: string, observeRawLines: bool): (r: (ClientView, seq<Event>))
    requires Ready(v)
    ensures r.0.session.buf.Valid() && '\n' !in r.0.remaining
    ensures !r.0.finished ==> Ready(r.0)
  {
    if chunk == [] then (v.(finished := true), [Disconnected])
    else
      var (lines, rest) := Reassemble(v.remaining, chunk);
      var s := v.session.(buf := if |lines| > 0 then v.session.buf.Add(lines) else v.session.buf);
      var d := Drain(Registry, s, false, []);
      (ClientView(rest, d.session, d.raised), ChunkEvents(lines, observeRawLines, d))
  }

  /** `Receive` on a non-empty chunk. */
  lemma ReceiveChunk(v: ClientView, chunk: string, observeRawLines: bool)
    requires Ready(v) && chunk != []
    ensures var (lines, rest) := Reassemble(v.remaining, chunk);
      var d := Drain(Registry, v.session.(buf := if |lines| > 0 then v.session.buf.Add(lines) else v.session.buf), false, []);
      Receive(v, chunk, observeRawLines) == (ClientView(rest, d.session, d.raised), ChunkEvents(lines, observeRawLines, d))
  {
  }

  /** What one chunk reports: the end of file alone ends the loop with a
      disconnection; the loop ends exactly when the last event is the
      disconnection; raw lines and commands come first, and the state-updated
      notification, if any, is the last event, so it fires at most once; the
      state is unchanged when no notification fires and the loop goes on; raw
      lines are reported only to a raw-line callback; and the only command
      sent is the zones request. */
  lemma ReceiveReports(v: ClientView, chunk: string, observeRawLines: bool)
    requires Ready(v)
    ensures var r := Receive(v, chunk, observeRawLines);
      && (chunk == [] ==> r == (v.(finished := true), [Disconnected]))
      && (r.0.finished <==> |r.1| > 0 && r.1[|r.1| - 1] == Disconnected)
      && (forall i :: 0 <= i < |r.1| - 1 ==> r.1[i].RawLine? || r.1[i].CommandSent?)
      && (!r.0.finished && StateUpdated !in r.1 ==> r.0.session.dev == v.session.dev)
      && (!observeRawLines ==> forall i :: 0 <= i < |r.1| ==> !r.1[i].RawLine?)
      && (forall i :: 0 <= i < |r.1| && r.1[i].CommandSent? ==> r.1[i].command == ZonesRequest)
  {
    if chunk != [] {
      var (lines, rest) := Reassemble(v.remaining, chunk);
      var s := v.session.(buf := if |lines| > 0 then v.session.buf.Add(lines) else v.session.buf);
      var d := Drain(Registry, s, false, []);
      DrainUpdates(Registry, s, false, []);
      DrainSends(Registry, s, false, []);
      ChunkEventsShape(lines, observeRawLines, d);
      ReceiveChunk(v, chunk, observeRawLines);
    }
  }
}
