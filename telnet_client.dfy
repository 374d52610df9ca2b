/** The client object of src/stormaudio_isp_telnet/telnet_client.py: the line
    buffer, the device state and the keepalive flag it updates in place, the
    evaluators as methods over them, the body of the read loop as `OnChunk`,
    and the outgoing commands. Every method is proved to compute the pure
    function of module Protocol that specifies it; what the client reports
    through its callbacks and its writer is recorded in the ghost `events`. */
module TelnetClient {
  import opened Wrappers
  import opened Strings
  import opened Numbers
  import opened LineReader
  import opened Devices
  import opened Protocol

  /** Sending two lists of commands one after the other. */
  lemma SentConcat(a: seq<string>, b: seq<string>)
    ensures Sent(a + b) == Sent(a) + Sent(b)
  {
  }

  /** Recording the commands of one more step after those recorded so far. */
  lemma SentExtend(e: seq<Event>, sent0: seq<string>, sent: seq<string>, sent': seq<string>)
    requires |sent0| <= |sent| <= |sent'| && sent'[..|sent|] == sent
    ensures e + Sent(sent[|sent0|..]) + Sent(sent'[|sent|..]) == e + Sent(sent'[|sent0|..])
  {
    assert sent'[|sent0|..] == sent[|sent0|..] + sent'[|sent|..];
    SentConcat(sent[|sent0|..], sent'[|sent|..]);
  }

  /** `SentExtend` from the first command on. */
  lemma SentAppend(e: seq<Event>, sent: seq<string>, sent': seq<string>)
    requires |sent| <= |sent'| && sent'[..|sent|] == sent
    ensures e + Sent(sent) + Sent(sent'[|sent|..]) == e + Sent(sent')
  {
    SentExtend(e, [], sent, sent');
    assert sent[0..] == sent && sent'[0..] == sent';
  }

  /** The events of one chunk, recorded in the order `OnChunk` records them. */
  lemma ChunkEventsOrder(e: seq<Event>, lines: seq<string>, observeRawLines: bool, d: DrainResult,
                         mid: seq<Event>, events: seq<Event>)
    requires mid == e + (if observeRawLines then RawLines(lines) else [])
    requires events == mid + Sent(d.sent) + (if d.raised then [Disconnected] else if d.updated then [StateUpdated] else [])
    ensures events == e + ChunkEvents(lines, observeRawLines, d)
  {
    var raw := if observeRawLines then RawLines(lines) else [];
    var last := if d.raised then [Disconnected] else if d.updated then [StateUpdated] else [];
    assert (e + raw) + Sent(d.sent) == e + (raw + Sent(d.sent));
    assert (e + (raw + Sent(d.sent))) + last == e + ((raw + Sent(d.sent)) + last);
  }

  /** `TelnetClient` from `async_connect` on: an empty line buffer and no
      unterminated output. */
  class Client {
    const buffer: LinesReader
    const state: DeviceState
    /** Whether a raw-line callback was given. */
    const observeRawLines: bool
    var remaining: string
    var keepaliveReceived: bool
    /** The read loop has ended (end of file or a raise). */
    var finished: bool
    /** Raw-line callbacks, commands written, state-updated and disconnected
        notifications, in the order they happen. */
    ghost var events: seq<Event>

    ghost function Session(): Session
      reads this`keepaliveReceived, buffer, state
    {
      Protocol.Session(buffer.Value(), state.Value(), keepaliveReceived)
    }

    ghost function View(): ClientView
      reads this`remaining, this`keepaliveReceived, this`finished, buffer, state
    {
      ClientView(remaining, Session(), finished)
    }

    /** The line buffer keeps its index invariant, the kept output holds no
        newline, and a running read loop has nothing read ahead. */
    ghost predicate Valid()
      reads this`remaining, this`finished, buffer
    {
      buffer.Valid() && '\n' !in remaining && (!finished ==> buffer.Value().Settled())
    }

    constructor (observeRawLines: bool)
      ensures Valid() && this.observeRawLines == observeRawLines
      ensures View() == ClientView("", Protocol.Session(LinesState([], None, None), Unknown, false), false)
      ensures events == []
    {
      buffer := new LinesReader();
      state := new DeviceState();
      this.observeRawLines := observeRawLines;
      remaining := "";
      keepaliveReceived := false;
      finished := false;
      events := [];
    }

    /** `_eval__line`. */
    method EvalLine(m: Matcher) returns (step: Step)
      requires buffer.Valid()
      modifies buffer, state, this`keepaliveReceived
      ensures buffer.Valid()
      ensures (step, Session()) == Evaluate(m, old(Session()))
    {
      ghost var s0 := Session();
      if !buffer.HasNextLine() {
        return Done(INCOMPLETE);
      }
      var line := buffer.ReadNextLine();
      ghost var read := Session();
      assert read == s0.(buf := s0.buf.Advance());
      var matched := line.PopTokensIfEqual(Prefix(m));
      if !matched {
        buffer.ResetReadLines();
        return Done(IGNORED);
      }
      assert line.line.tokens == s0.buf.Head().tokens && line.next == |Prefix(m)|;
      step := ContinueAndSettle(m, line);
    }

    /** The matched branch of `_eval__line`: run the continuation, then commit
        the buffer when the result has COMPLETE and roll it back otherwise; a
        raise leaves the buffer as the continuation left it. */
    method ContinueAndSettle(m: Matcher, line: TokenReader) returns (step: Step)
      requires buffer.Valid() && line.Valid()
      modifies line, buffer, state, this`keepaliveReceived
      ensures buffer.Valid()
      ensures var (st, t) := Continue(m, line.line.tokens, old(line.next), old(Session()));
        step == st && Session() == match st
          case Raised => t
          case Done(f) => t.(buf := if f.complete then t.buf.Consume() else t.buf.Reset())
    {
      step := ContinueLine(m, line);
      Settle(step);
    }

    /** The end of `_eval__line`: commit the buffer when the result has
        COMPLETE, roll it back otherwise; a raise leaves it as it is. */
    method Settle(step: Step)
      requires buffer.Valid()
      modifies buffer
      ensures buffer.Valid()
      ensures Session() == match step
        case Raised => old(Session())
        case Done(f) => old(Session()).(buf := if f.complete then old(buffer.Value()).Consume() else old(buffer.Value()).Reset())
    {
      if step.Done? {
        if step.flags.complete {
          buffer.ConsumeReadLines();
        } else {
          buffer.ResetReadLines();
        }
      }
    }

    /** The continuation `_eval__line` runs once the path matched, with the
        cursor of `line` just past it. */
    method ContinueLine(m: Matcher, line: TokenReader) returns (step: Step)
      requires buffer.Valid() && line.Valid()
      modifies line, buffer, state, this`keepaliveReceived
      ensures buffer.Valid()
      ensures (step, Session()) == Continue(m, line.line.tokens, old(line.next), old(Session()))
    {
      match m
      case Keepalive =>
        keepaliveReceived := true;
        step := Done(COMPLETE);
      case Power =>
        var on := ReadSwitch(line);
        if on.None? {
          return Done(IGNORED);
        }
        state.powerCommand := Some(if on.value then PowerCommand.On else PowerCommand.Off);
        step := Done(COMPLETE_UPDATED);
      case Mute =>
        var on := ReadSwitch(line);
        if on.None? {
          return Done(IGNORED);
        }
        state.mute := on;
        step := Done(COMPLETE_UPDATED);
      case ProcState =>
        step := StoreProcessorState(line);
      case Single(f) =>
        var t := line.PopToken();
        if t.Some? && t.value.Args? {
          var items := t.value.items;
          if items == [] {
            return Raised;
          }
          var ok := StoreField(f, items[0]);
          step := if ok then Done(COMPLETE_UPDATED) else Raised;
        } else {
          step := Done(IGNORED);
        }
      case Listing(k) =>
        step := EvalListing(k);
    }

    /** `pop_next_token_if_equal('on')`, then `'off'`. */
    method ReadSwitch(line: TokenReader) returns (on: Option<bool>)
      requires line.Valid()
      modifies line
      ensures line.Valid()
      ensures on == OnOff(line.line.tokens, old(line.next))
    {
      var isOn := line.PopTokenIfEqual(Word("on"));
      if isOn {
        return Some(true);
      }
      var isOff := line.PopTokenIfEqual(Word("off"));
      on := if isOff then Some(false) else None;
    }

    /** The continuation of `_eval_processor_state`. */
    method StoreProcessorState(line: TokenReader) returns (step: Step)
      requires buffer.Valid() && line.Valid()
      modifies line, state
      ensures (step, Session()) == Continue(ProcState, line.line.tokens, old(line.next), old(Session()))
    {
      var t := line.PopToken();
      if t.None? || !t.value.Args? {
        return Done(IGNORED);
      }
      var items := t.value.items;
      if items == [] {
        return Raised;
      }
      if items[0] == "0" {
        state.processorState := Some(ProcessorState.Off);
      } else if items[0] == "1" {
        state.processorState := Some(
          if state.powerCommand == Some(PowerCommand.On) then ProcessorState.Initializing
          else ProcessorState.ShuttingDown);
      } else if items[0] == "2" {
        state.processorState := Some(ProcessorState.On);
      } else {
        return Done(IGNORED);
      }
      step := Done(COMPLETE_UPDATED);
    }

    /** The `convert_fn` and `set_fn` of `_eval__single_bracket_field`: convert
        `text` and assign the field, or report that the conversion raised. */
    method StoreField(f: Field, text: string) returns (ok: bool)
      modifies state
      ensures SetField(f, old(state.Value()), text) == if ok then Some(state.Value()) else None
      ensures !ok ==> state.Value() == old(state.Value())
    {
      ok := true;
      match f
      case Brand =>
        state.brand := Some(Strip(text, Quote));
      case Model =>
        state.model := Some(Strip(text, Quote));
      case Volume =>
        var d := ParseDecimal(text);
        if d.None? {
          return false;
        }
        state.volumeDb := d;
      case PresetId =>
        var n := ParseInt(text);
        if n.None? {
          return false;
        }
        state.presetId := n;
      case InputId =>
        var n := ParseInt(text);
        if n.None? {
          return false;
        }
        state.inputId := n;
      case InputZone2Id =>
        var n := ParseInt(text);
        if n.None? {
          return false;
        }
        state.inputZone2Id := n;
    }

    /** `_eval_inputs`, `_eval_zones` or `_eval_presets`: collect the listing
        and store it on its closing line. */
    method EvalListing(k: BlockKind) returns (step: Step)
      requires buffer.Valid()
      modifies buffer, state
      ensures buffer.Valid()
      ensures (step, Session()) == ListingStep(k, old(Session()))
    {
      match k
      case InputBlock => step := EvalInputs();
      case ZoneBlock => step := EvalZones();
      case PresetBlock => step := EvalPresets();
    }

    /** `_eval_inputs`: on COMPLETE | STATE_UPDATED the input list becomes the
        records of the lines read, and nothing else on the device changes. */
    method EvalInputs() returns (step: Step)
      requires buffer.Valid()
      modifies buffer, state
      ensures buffer.Valid()
      ensures (step, Session()) == ListingStep(InputBlock, old(Session()))
      ensures step != Done(COMPLETE_UPDATED) ==> state.Value() == old(state.Value())
      ensures step == Done(COMPLETE_UPDATED) ==> (
        && state.inputs.Some?
        && ListedThenEnd(old(buffer.Value()), ListPrefix(InputBlock), EndPrefix(InputBlock), ParseInput, state.inputs.value)
        && state.Value() == old(state.Value()).(inputs := state.inputs))
    {
      var recs;
      step, recs := EvalBlock(ListPrefix(InputBlock), EndPrefix(InputBlock), ParseInput);
      if step == Done(COMPLETE_UPDATED) {
        state.inputs := Some(recs);
      }
    }

    /** `_eval_zones`: on COMPLETE | STATE_UPDATED the zone list becomes the
        records of the lines read, and nothing else on the device changes. */
    method EvalZones() returns (step: Step)
      requires buffer.Valid()
      modifies buffer, state
      ensures buffer.Valid()
      ensures (step, Session()) == ListingStep(ZoneBlock, old(Session()))
      ensures step != Done(COMPLETE_UPDATED) ==> state.Value() == old(state.Value())
      ensures step == Done(COMPLETE_UPDATED) ==> (
        && state.zones.Some?
        && ListedThenEnd(old(buffer.Value()), ListPrefix(ZoneBlock), EndPrefix(ZoneBlock), ParseZone, state.zones.value)
        && state.Value() == old(state.Value()).(zones := state.zones))
    {
      var recs;
      step, recs := EvalBlock(ListPrefix(ZoneBlock), EndPrefix(ZoneBlock), ParseZone);
      if step == Done(COMPLETE_UPDATED) {
        state.zones := Some(recs);
      }
    }

    /** `_eval_presets`: on COMPLETE | STATE_UPDATED the preset list becomes the
        records of the lines read, and nothing else on the device changes. */
    method EvalPresets() returns (step: Step)
      requires buffer.Valid()
      modifies buffer, state
      ensures buffer.Valid()
      ensures (step, Session()) == ListingStep(PresetBlock, old(Session()))
      ensures step != Done(COMPLETE_UPDATED) ==> state.Value() == old(state.Value())
      ensures step == Done(COMPLETE_UPDATED) ==> (
        && state.presets.Some?
        && ListedThenEnd(old(buffer.Value()), ListPrefix(PresetBlock), EndPrefix(PresetBlock), ParsePreset, state.presets.value)
        && state.Value() == old(state.Value()).(presets := state.presets))
    {
      var recs;
      step, recs := EvalBlock(ListPrefix(PresetBlock), EndPrefix(PresetBlock), ParsePreset);
      if step == Done(COMPLETE_UPDATED) {
        state.presets := Some(recs);
      }
    }

    /** The loop shared by the listing evaluators: read lines, appending one
        record per `list` line, until the `end` line, a line of neither kind,
        a failed conversion or the end of the buffer. */
    method EvalBlock<R>(list: seq<Token>, end: seq<Token>, parse: seq<string> -> Option<R>)
      returns (step: Step, records: seq<R>)
      requires buffer.Valid()
      modifies buffer
      ensures buffer.Valid()
      ensures (step, buffer.Value(), records) == Block(list, end, parse, old(buffer.Value()), [])
      ensures step == Done(COMPLETE_UPDATED) ==> (
        && ListedThenEnd(old(buffer.Value()), list, end, parse, records)
        && buffer.Value() == old(buffer.Value()).Skip(|records| + 1))
    {
      CompletesFromStart(list, end, parse, buffer.Value());
      records := [];
      while buffer.HasNextLine()
        invariant buffer.Valid()
        invariant Block(list, end, parse, old(buffer.Value()), []) == Block(list, end, parse, buffer.Value(), records)
        decreases |buffer.Value().Unread()|
      {
        var done;
        done, step, records := BlockLine(list, end, parse, records);
        if done {
          return;
        }
      }
      step := Done(INCOMPLETE);
    }

    /** One line of a listing: append its record and go on, or end the
        listing with its closing line, a line of neither kind or a failed
        conversion. */
    method BlockLine<R>(list: seq<Token>, end: seq<Token>, parse: seq<string> -> Option<R>, records: seq<R>)
      returns (done: bool, step: Step, records': seq<R>)
      requires buffer.Valid() && buffer.Value().HasNext()
      modifies buffer
      ensures buffer.Valid()
      ensures done ==> Block(list, end, parse, old(buffer.Value()), records) == (step, buffer.Value(), records')
      ensures !done ==> |buffer.Value().Unread()| < old(|buffer.Value().Unread()|)
      ensures !done ==> Block(list, end, parse, old(buffer.Value()), records) == Block(list, end, parse, buffer.Value(), records')
    {
      ghost var b0 := buffer.Value();
      var line := buffer.ReadNextLine();
      assert line.line.tokens == b0.Head().tokens && buffer.Value() == b0.Advance();
      var isRecord := line.PopTokensIfEqual(list);
      if isRecord {
        done, step, records' := TakeRecord(line, list, end, parse, records, b0);
        return;
      }
      var isEnd := line.PopTokensIfEqual(end);
      if isEnd {
        return true, Done(COMPLETE_UPDATED), records;
      }
      return true, Done(IGNORED), records;
    }

    /** A line of a listing that starts with the record path `list`, with the
        cursor just past it: a record appends and the listing goes on, a
        failed conversion raises, and a line without arguments is IGNORED. */
    method TakeRecord<R>(line: TokenReader, list: seq<Token>, end: seq<Token>, parse: seq<string> -> Option<R>,
                         records: seq<R>, ghost b0: LinesState)
      returns (done: bool, step: Step, records': seq<R>)
      requires buffer.Valid() && b0.Valid() && b0.HasNext() && buffer.Value() == b0.Advance()
      requires line.Valid() && line.line.tokens == b0.Head().tokens && line.next == |list|
      requires TokensAt(line.line.tokens, 0, list)
      modifies line
      ensures done ==> Block(list, end, parse, b0, records) == (step, buffer.Value(), records')
      ensures !done ==> |buffer.Value().Unread()| < |b0.Unread()|
      ensures !done ==> Block(list, end, parse, b0, records) == Block(list, end, parse, buffer.Value(), records')
    {
      var t := line.PopToken();
      if t.Some? && t.value.Args? {
        var rec := parse(t.value.items);
        if rec.None? {
          return true, Raised, records;
        }
        return false, Done(INCOMPLETE), records + [rec.value];
      }
      return true, Done(IGNORED), records;
    }

    /** One iteration of the inner read loop: the evaluators `ms` in order on
        the head line, OR-ing their flags; a completed preset-id update sends
        the zones request. `sent0` is what the loop sent before; `sent`
        extends it with what this iteration sends. */
    method RunChain(ms: seq<Matcher>, ghost sent0: seq<string>) returns (step: Step, ghost sent: seq<string>)
      requires buffer.Valid()
      modifies buffer, state, this`keepaliveReceived, this`events
      ensures buffer.Valid()
      ensures (step, Session(), sent) == RunMatchers(ms, old(Session()), NONE, sent0)
      ensures events == old(events) + Sent(sent[|sent0|..])
    {
      var acc := NONE;
      sent := sent0;
      ghost var e0 := events;
      for i := 0 to |ms|
        invariant buffer.Valid()
        invariant RunMatchers(ms, old(Session()), NONE, sent0) == RunMatchers(ms[i..], Session(), acc, sent)
        invariant |sent0| <= |sent| && events == e0 + Sent(sent[|sent0|..])
      {
        var s;
        ghost var sent';
        ghost var s0 := Session();
        s, sent' := ChainStep(ms[i], sent);
        RunMatchersStep(ms[i..], s0, acc, sent);
        assert ms[i..][0] == ms[i] && ms[i..][1..] == ms[i + 1..];
        SentExtend(e0, sent0, sent, sent');
        if s.Raised? {
          return Raised, sent;
        }
        sent := sent';
        acc := acc.Union(s.flags);
      }
      step := Done(acc);
    }

    /** The first evaluator of a chain, with the zones request it may send. */
    method ChainStep(m: Matcher, ghost sent: seq<string>) returns (step: Step, ghost sent': seq<string>)
      requires buffer.Valid()
      modifies buffer, state, this`keepaliveReceived, this`events
      ensures buffer.Valid()
      ensures (step, Session()) == Evaluate(m, old(Session()))
      ensures sent' == if step.Done? then SentAfter(m, step.flags, sent) else sent
      ensures |sent| <= |sent'| && sent'[..|sent|] == sent
      ensures events == old(events) + Sent(sent'[|sent|..])
    {
      step := EvalLine(m);
      sent' := FollowUp(m, step, sent);
    }

    /** After the preset id evaluator completed, the zones are requested
        (`_read_loop` asks for them whenever the preset changes). */
    method FollowUp(m: Matcher, step: Step, ghost sent: seq<string>) returns (ghost sent': seq<string>)
      modifies this`events
      ensures sent' == if step.Done? then SentAfter(m, step.flags, sent) else sent
      ensures |sent| <= |sent'| && sent'[..|sent|] == sent
      ensures events == old(events) + Sent(sent'[|sent|..])
    {
      sent' := sent;
      if step.Done? && m == Single(PresetId) && step.flags.complete {
        RequestZones();
        sent' := sent + [ZonesRequest];
      }
      assert sent'[|sent|..] == if sent' == sent then [] else [ZonesRequest];
    }

    /** The inner loop of `_read_loop`: run the evaluators while a line is
        buffered, note STATE_UPDATED, stop on INCOMPLETE, and drop a line
        that every evaluator ignored. */
    method DrainLines(ms: seq<Matcher>) returns (raised: bool, updated: bool)
      requires ms != [] && buffer.Valid() && buffer.Value().Settled()
      modifies buffer, state, this`keepaliveReceived, this`events
      ensures buffer.Valid()
      ensures var d := Drain(ms, old(Session()), false, []);
        raised == d.raised && Session() == d.session && updated == d.updated
        && events == old(events) + Sent(d.sent)
    {
      updated := false;
      ghost var sent: seq<string> := [];
      while buffer.HasNextLine()
        invariant buffer.Valid() && buffer.Value().Settled()
        invariant Drain(ms, old(Session()), false, []) == Drain(ms, Session(), updated, sent)
        invariant events == old(events) + Sent(sent)
        decreases |buffer.Value().Pending()|
      {
        var stop;
        ghost var sent';
        raised, stop, updated, sent' := DrainStep(ms, updated, sent);
        SentAppend(old(events), sent, sent');
        sent := sent';
        if raised || stop {
          return;
        }
      }
      raised := false;
    }

    /** One iteration of the inner loop of `_read_loop`, on a buffered line. */
    method DrainStep(ms: seq<Matcher>, updated: bool, ghost sent: seq<string>)
      returns (raised: bool, stop: bool, updated': bool, ghost sent': seq<string>)
      requires ms != [] && buffer.Valid() && buffer.Value().Settled() && buffer.Value().HasNext()
      modifies buffer, state, this`keepaliveReceived, this`events
      ensures buffer.Valid()
      ensures |sent| <= |sent'| && sent'[..|sent|] == sent
      ensures events == old(events) + Sent(sent'[|sent|..])
      ensures raised || stop ==> Drain(ms, old(Session()), updated, sent) == DrainResult(raised, Session(), updated', sent')
      ensures !raised && !stop ==>
        && buffer.Value().Settled() && |buffer.Value().Pending()| < old(|buffer.Value().Pending()|)
        && Drain(ms, old(Session()), updated, sent) == Drain(ms, Session(), updated', sent')
    {
      var step;
      ghost var s0 := Session();
      step, sent' := RunChain(ms, sent);
      DrainUnfold(ms, s0, updated, sent);
      if step.Raised? {
        return true, false, updated, sent';
      }
      updated' := updated || step.flags.stateUpdated;
      if step.flags.incomplete {
        return false, true, updated', sent';
      }
      if step.flags == IGNORED {
        DropHead();
      }
      raised, stop := false, false;
    }

    /** Read the head line and commit, dropping a line no evaluator took. */
    method DropHead()
      requires buffer.Valid() && buffer.Value().HasNext()
      modifies buffer
      ensures buffer.Valid() && buffer.Value() == old(buffer.Value()).Advance().Consume()
    {
      var line := buffer.ReadNextLine();
      buffer.ConsumeReadLines();
    }

    /** The body of `_read_loop` for one read: an empty read is the end of
        file; otherwise report and buffer the complete lines, keep the
        unterminated rest, drain the buffer, then notify a state update, or
        the disconnection if an evaluation raised. */
    method OnChunk(chunk: string)
      requires Valid() && !finished
      modifies this, buffer, state
      ensures Valid()
      ensures var (v, reported) := Receive(old(View()), chunk, observeRawLines);
        View() == v && events == old(events) + reported
    {
      if chunk == [] {
        finished := true;
        events := events + [Disconnected];
        return;
      }
      ghost var v0 := View();
      var lines := BufferChunk(chunk);
      ghost var raw := if observeRawLines then RawLines(lines) else [];
      ghost var s := Session();
      assert s == v0.session.(buf := if |lines| > 0 then v0.session.buf.Add(lines) else v0.session.buf);
      ghost var mid := events;
      var raised, updated := DrainLines(Registry);
      ghost var d := Drain(Registry, s, false, []);
      if raised {
        finished := true;
        events := events + [Disconnected];
      } else if updated {
        events := events + [StateUpdated];
      }
      assert Receive(v0, chunk, observeRawLines) == (ClientView(remaining, d.session, d.raised), ChunkEvents(lines, observeRawLines, d));
      ChunkEventsOrder(old(events), lines, observeRawLines, d, mid, events);
    }

    /** Lines 193-209 of `_read_loop`: split the kept output and the chunk
        into complete lines and a new unterminated rest, report the complete
        lines to the raw-line callback, and buffer them. */
    method BufferChunk(chunk: string) returns (lines: seq<string>)
      requires buffer.Valid()
      modifies buffer, this`remaining, this`events
      ensures (lines, remaining) == Reassemble(old(remaining), chunk)
      ensures buffer.Valid()
      ensures buffer.Value() == if |lines| > 0 then old(buffer.Value()).Add(lines) else old(buffer.Value())
      ensures events == old(events) + if observeRawLines then RawLines(lines) else []
    {
      var output := remaining + chunk;
      var parts := Split(output, "\n");
      var lineCount := |parts|;
      lines := parts[..lineCount - 1];
      assert Reassemble(remaining, chunk) == (lines, parts[lineCount - 1]);
      if lineCount > 1 {
        if observeRawLines {
          ghost var raw: seq<Event> := [];
          for i := 0 to lineCount - 1
            invariant raw == RawLines(parts[..i])
            invariant events == old(events) + raw
          {
            assert parts[..i + 1] == parts[..i] + [parts[i]];
            events := events + [RawLine(parts[i])];
            raw := raw + [RawLine(parts[i])];
          }
        }
        buffer.AddLines(lines);
      } else if observeRawLines {
        assert RawLines(lines) == [];
      }
      remaining := parts[lineCount - 1];
    }

    /** `_async_send_command`: the writer receives the command followed by a
        newline; the event records the command. */
    method SendCommand(command: string)
      modifies this`events
      ensures events == old(events) + [CommandSent(command)]
    {
      events := events + [CommandSent(command)];
    }

    /** `async_request_zones`. */
    method RequestZones()
      modifies this`events
      ensures events == old(events) + [CommandSent(ZonesRequest)]
    {
      SendCommand(ZonesRequest);
    }

    /** `async_set_power_command`. */
    method SetPowerCommand(p: PowerCommand)
      modifies this`events
      ensures events == old(events) + [CommandSent(PowerCommandText(p))]
    {
      SendCommand(PowerCommandText(p));
    }

    /** `async_set_mute`. */
    method SetMute(mute: bool)
      modifies this`events
      ensures events == old(events) + [CommandSent(MuteCommandText(mute))]
    {
      SendCommand(MuteCommandText(mute));
    }

    /** `async_set_input_id`. */
    method SetInputId(id: int)
      modifies this`events
      ensures events == old(events) + [CommandSent(FieldCommand(InputId, id))]
    {
      SendCommand(FieldCommand(InputId, id));
    }

    /** `async_set_input_zone2_id`. */
    method SetInputZone2Id(id: int)
      modifies this`events
      ensures events == old(events) + [CommandSent(FieldCommand(InputZone2Id, id))]
    {
      SendCommand(FieldCommand(InputZone2Id, id));
    }

    /** `async_set_preset_id`. */
    method SetPresetId(id: int)
      modifies this`events
      ensures events == old(events) + [CommandSent(FieldCommand(PresetId, id))]
    {
      SendCommand(FieldCommand(PresetId, id));
    }
  }

  function SwitchWord(on: bool): string {
    if on then "on" else "off"
  }

  /** `ssp.<name>.on` or `ssp.<name>.off`. */
  function SwitchCommand(name: string, on: bool): string {
    "ssp." + name + "." + SwitchWord(on)
  }

  /** `ssp.power.on` or `ssp.power.off`. */
  function PowerCommandText(p: PowerCommand): string {
    SwitchCommand("power", p == PowerCommand.On)
  }

  /** `ssp.mute.on` or `ssp.mute.off`. */
  function MuteCommandText(mute: bool): string {
    SwitchCommand("mute", mute)
  }

  /** `ssp.<name>.[<n>]` for an integer field. */
  function FieldCommand(f: Field, n: int): string {
    Join(FieldPath(f), ".") + ".[" + IntToString(n) + "]"
  }

  /** A command of three segments and no argument list tokenizes to those
      segments. */
  lemma PlainCommandTokens(a: string, b: string, c: string)
    requires '.' !in a && '.' !in b && '.' !in c && '[' !in a && '[' !in b && '[' !in c
    ensures Tokenize(a + "." + b + "." + c).tokens == Words([a, b, c])
  {
    var parts := [a, b, c];
    JoinThree(a, b, c, ".");
    SplitJoin(parts, ".");
    JoinLacks(parts, ".", '[');
    TokenizeWithoutBrackets(Join(parts, "."));
  }

  lemma JoinThree(a: string, b: string, c: string, sep: string)
    ensures Join([a, b, c], sep) == a + sep + b + sep + c
  {
    JoinCons(b, [c], sep);
    JoinCons(a, [b, c], sep);
  }

  /** An on/off command tokenizes to its three segments: the path
      `ssp.<name>`, then the word. */
  lemma SwitchCommandTokens(name: string, on: bool)
    requires '.' !in name && '[' !in name
    ensures var tokens := Tokenize(SwitchCommand(name, on)).tokens;
      && tokens == Words(["ssp", name, SwitchWord(on)])
      && TokensAt(tokens, 0, Words(["ssp", name])) && TokenAt(tokens, 2) == Some(Word(SwitchWord(on)))
  {
    assert SwitchCommand(name, on) == "ssp" + "." + name + "." + SwitchWord(on);
    PlainCommandTokens("ssp", name, SwitchWord(on));
    WordsAt("ssp", name, SwitchWord(on));
  }


  /** The path and the word at index 2 of a three-segment command. */
  lemma WordsAt(a: string, b: string, c: string)
    ensures TokensAt(Words([a, b, c]), 0, Words([a, b])) && TokenAt(Words([a, b, c]), 2) == Some(Word(c))
  {
    assert Words([a, b, c])[0..2] == Words([a, b]);
  }

  /** An on/off command starts with the path its evaluator expects, followed
      by the word. */
  lemma SwitchCommandHead(m: Matcher, on: bool)
    requires m == Mute || m == Power
    ensures var tokens := Tokenize(SwitchCommand(if m == Mute then "mute" else "power", on)).tokens;
      TokensAt(tokens, 0, Prefix(m)) && TokenAt(tokens, 2) == Some(Word(if on then "on" else "off"))
  {
    SwitchCommandTokens(if m == Mute then "mute" else "power", on);
    SwitchPrefix(m);
  }

  /** A character in no part and not in the separator is not in the join. */
  lemma {:induction false} JoinLacks(parts: seq<string>, sep: string, c: char)
    requires c !in sep && forall i :: 0 <= i < |parts| ==> c !in parts[i]
    ensures c !in Join(parts, sep)
    decreases |parts|
  {
    if |parts| > 1 {
      JoinLacks(parts[1..], sep, c);
    }
  }

  /** The device reports the power state in the form of the command that
      sets it: the command, read back as a line, is taken by the power
      evaluator, which records that command and commits the line. */
  lemma PowerCommandEcho(p: PowerCommand, s: Session)
    requires HeadIs(s, Tokenize(PowerCommandText(p)).tokens)
    ensures Evaluate(Power, s) == (Done(COMPLETE_UPDATED), Committed(s).(dev := s.dev.(powerCommand := Some(p))))
  {
    SwitchCommandHead(Power, p == PowerCommand.On);
    SwitchedLine(Power, s, Tokenize(PowerCommandText(p)).tokens, p == PowerCommand.On);
  }

  /** The mute command, read back as a line, sets the mute flag to the
      commanded value and commits the line. */
  lemma MuteCommandEcho(mute: bool, s: Session)
    requires HeadIs(s, Tokenize(MuteCommandText(mute)).tokens)
    ensures Evaluate(Mute, s) == (Done(COMPLETE_UPDATED), Committed(s).(dev := s.dev.(mute := Some(mute))))
  {
    SwitchCommandHead(Mute, mute);
    SwitchedLine(Mute, s, Tokenize(MuteCommandText(mute)).tokens, mute);
  }

  /** An integer field command tokenizes to the field's path followed by a
      one-item argument list holding the integer. */
  lemma FieldCommandTokens(f: Field, n: int)
    ensures Tokenize(FieldCommand(f, n)).tokens == Prefix(Single(f)) + [Args([IntToString(n)])]
  {
    var path := Join(FieldPath(f), ".");
    var payload := IntToString(n);
    assert FieldCommand(f, n) == path + ".[" + payload + "]";
    FieldPathSplits(f);
    PayloadSplits(payload);
    TokenizeCommand(path, payload);
    PrefixSingle(f);
  }

  /** A field's dotted path holds no bracket and splits back into its words. */
  lemma FieldPathSplits(f: Field)
    ensures var path := Join(FieldPath(f), ".");
      '[' !in path && ']' !in path && Split(path, ".") == FieldPath(f)
  {
    JoinLacks(FieldPath(f), ".", '[');
    JoinLacks(FieldPath(f), ".", ']');
    SplitJoin(FieldPath(f), ".");
  }

  /** A rendered integer holds no bracket and no comma, so it is one argument. */
  lemma PayloadSplits(payload: string)
    requires forall i :: 0 <= i < |payload| ==> payload[i] == '-' || IsDigit(payload[i])
    ensures '[' !in payload && ']' !in payload && Split(payload, ", ") == [payload]
  {
    assert forall i :: 0 <= i < |payload| ==> payload[i] != '[' && payload[i] != ']' && payload[i] != ',';
    assert Join([payload], ", ") == payload;
    SplitJoin([payload], ", ");
  }

  lemma SwitchPrefix(m: Matcher)
    requires m == Mute || m == Power
    ensures Prefix(m) == Words(["ssp", if m == Mute then "mute" else "power"])
  {
  }

  lemma PrefixSingle(f: Field)
    ensures Prefix(Single(f)) == Words(FieldPath(f)) && |Prefix(Single(f))| == 2
  {
  }

  /** A path followed by one token: the path matches at the start and the
      token comes right after it. */
  lemma PathThenToken(path: seq<Token>, t: Token)
    ensures TokensAt(path + [t], 0, path) && TokenAt(path + [t], |path|) == Some(t)
  {
    assert (path + [t])[0..|path|] == path;
  }

  /** The device reports the selected input, zone-2 input and preset in the
      form of the command that selects them: the command, read back as a
      line, sets that field to the commanded integer and commits the line. */
  lemma FieldCommandEcho(f: Field, n: int, s: Session)
    requires f == PresetId || f == InputId || f == InputZone2Id
    requires HeadIs(s, Tokenize(FieldCommand(f, n)).tokens)
    ensures var r := Evaluate(Single(f), s);
      && r.0 == Done(COMPLETE_UPDATED) && r.1.buf == Committed(s).buf && r.1.keepalive == s.keepalive
      && r.1.dev == match f
           case PresetId => s.dev.(presetId := Some(n))
           case InputId => s.dev.(inputId := Some(n))
           case _ => s.dev.(inputZone2Id := Some(n))
  {
    FieldCommandTokens(f, n);
    IntRoundTrip(n);
    var tokens := Tokenize(FieldCommand(f, n)).tokens;
    PrefixSingle(f);
    PathThenToken(Prefix(Single(f)), Args([IntToString(n)]));
    FieldLine(f, s, tokens);
  }
}
