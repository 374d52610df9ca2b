# Storm Audio ISP telnet client: the protocol decoder

The Storm Audio ISP sound processors speak a line protocol over telnet. Every
line is a dotted path, optionally followed by a bracketed argument list:
`ssp.vol.[-40.5]`, `ssp.power.on`, `ssp.input.list.["TV", 1, 2, 3, 4, 0, 20]`.
The Python client `TelnetClient` reassembles the received chunks into lines and
tokenizes each line. It keeps the lines in a two-phase buffer: lines are read
ahead, then either committed or rolled back. On every pass of its read loop it
tries a fixed chain of evaluators on the head line. Each evaluator either takes
the line (and possibly the lines after it, for the multi-line `start` / `list`
/ `end` listings) and updates the device state, ignores it, or reports that it
needs more lines. Their results are OR-ed together, and the result decides
whether the loop goes on, waits for more input, or drops a line that nobody
took.

This project models that core in Dafny. It has seven modules:

- `Strings` and `Numbers` model the Python built-ins the decoder relies on:
  - `find`, `rfind`, clamped slicing, `split`, `join` and `strip`;
  - `int()`, `str()`, and `Decimal()` on plain positional text.
  A conversion that raises in Python yields `None`.
- `LineReader` models `line_reader.py`:
  - the tokenizer, as a function;
  - the token cursor `TokenizedLineReader`, as a class;
  - the line buffer `TokenizedLinesReader`, as a class whose value is the
    datatype `LinesState`.
- `Devices` holds the device state and the `Input`, `Zone` and `Preset`
  records, the enumerations of `constants.py` and the record decoders, with
  round-trip lemmas against the device's own rendering of each record.
- `Protocol` specifies the decoder as pure functions:
  - `Evaluate` is `_eval__line`, and `Continue` holds the per-evaluator
    continuations;
  - `Block` is the listing loop. A listing completes exactly when its
    record lines are followed by its closing line, and it then stores
    exactly their records;
  - `RunMatchers` is one pass of the evaluator chain;
  - `Drain` is the inner read loop;
  - `Reassemble` splits a chunk into lines;
  - `Receive` is one pass of the outer read loop, with the events it reports.
  It also proves the properties of these functions.
- `TelnetClient` is the imperative client:
  - the class `Client` holds the line buffer, the device state, the keepalive
    flag and the unterminated output, and updates them in place;
  - each of its decoding methods is proved equal to its `Protocol` function,
    and each command method to record the command it sends;
  - the outgoing commands are proved to be read back by the evaluators.

Callbacks and the writer are modelled as a ghost trace of events. The events
are raw lines, commands sent, the state-updated notification and the
disconnection. An exception is the `Raised` outcome. It ends the read loop and
reports the disconnection.

Two places where the code's text and its evident intent part:
- A zone listing cannot succeed as written (see Findings). The read loop is
  modelled with the corrected zone decoder; `Protocol.ZoneListingAsWritten`
  shows that the decoder as written makes every zone listing raise.
- When `[` is the first character of a line, the tokenizer takes as the path
  the whole line but its last character, brackets and arguments included.
  This follows Python's slice `line[0:-1]`; see
  `LineReader.TokenizeWithBrackets`.

The functions `InputFields`, `ZoneFields` and `PresetFields` (module
`Devices`) and `PowerCommandText`, `MuteCommandText` and `FieldCommand`
(module `TelnetClient`) are renderings, not decoders. The first three write
a record's arguments the way the device does; they are used only by the
round-trip lemmas. The last three are the command strings of
src/stormaudio_isp_telnet/telnet_client.py:332-353; the command methods send
them and the echo lemmas read them back. `Strings.Join` and
`Numbers.DigitsValue` serve the lemmas in the same way.

## Model

| member | source | states |
|---|---|---|
| Strings.Find | src/stormaudio_isp_telnet/line_reader.py:15 | `str.find`: -1 exactly when the substring occurs nowhere, otherwise an index where it occurs with no earlier occurrence |
| Strings.RFindChar | src/stormaudio_isp_telnet/line_reader.py:16 | `str.rfind` of one character: -1 exactly when it is absent, otherwise the last index holding it |
| Strings.SliceBound | src/stormaudio_isp_telnet/line_reader.py:22-24 | Python's slice bound: in range it is kept, a negative bound counts from the end, and out of range it is clamped to 0 or the length |
| Strings.Slice | src/stormaudio_isp_telnet/line_reader.py:22-24 | a slice within bounds is the subsequence; a reversed or empty range is empty; `[0:-1]` drops the last character |
| Strings.Split | src/stormaudio_isp_telnet/line_reader.py:25-27 | `str.split(sep)` yields at least one piece |
| Strings.SplitPiecesLackSeparator | src/stormaudio_isp_telnet/telnet_client.py:196 | no piece of a split contains the separator |
| Strings.JoinSplit | src/stormaudio_isp_telnet/telnet_client.py:193-209 | joining the pieces of a split with the separator gives back the text, so splitting loses nothing |
| Strings.SplitJoin | src/stormaudio_isp_telnet/telnet_client.py:508 | splitting a join gives back the parts, when no part holds the separator's first character |
| Strings.LStrip | src/stormaudio_isp_telnet/telnet_client.py:223 | the result is a suffix; everything removed is in the character set, and the result does not start with one |
| Strings.RStrip | src/stormaudio_isp_telnet/telnet_client.py:223 | the result is a prefix; everything removed is in the character set, and the result does not end with one |
| Strings.Strip | src/stormaudio_isp_telnet/telnet_client.py:223 | `str.strip(chars)`: removes a run of set characters from both ends, and only those, leaving neither end in the set |
| Strings.StripWrapped | src/stormaudio_isp_telnet/telnet_client.py:452 | stripping set characters wrapped around a text that neither starts nor ends with one gives back that text |
| Numbers.NatToString | src/stormaudio_isp_telnet/telnet_client.py:346-353 | `str(n)` of a natural: non-empty decimal digits with no leading zero |
| Numbers.IntToString | src/stormaudio_isp_telnet/telnet_client.py:346-353 | `str(n)`: digits and a leading '-' exactly for a negative number |
| Numbers.ParseInt | src/stormaudio_isp_telnet/telnet_client.py:265 | `int(text)` succeeds exactly on an optionally signed digit string; the sign decides the sign of the value |
| Numbers.NatToStringValue | src/stormaudio_isp_telnet/telnet_client.py:346-353 | the digits `str` writes denote the number |
| Numbers.IntRoundTrip | src/stormaudio_isp_telnet/telnet_client.py:265 | `int(str(n)) == n` for every integer |
| Numbers.ParseDecimal | src/stormaudio_isp_telnet/telnet_client.py:242 | `Decimal(text)` of a positional literal has exponent at most 0, and exactly 0 without a decimal point |
| Numbers.DecimalOfInteger | src/stormaudio_isp_telnet/telnet_client.py:460 | `Decimal(str(n))` is n with exponent 0 |
| LineReader.Tokenize | src/stormaudio_isp_telnet/line_reader.py:7-28 | a tokenized line keeps its raw text and always has at least one token |
| LineReader.FindChar | src/stormaudio_isp_telnet/line_reader.py:15 | finding one character: -1 exactly when absent, otherwise its first position |
| LineReader.TokenizeWithoutBrackets | src/stormaudio_isp_telnet/line_reader.py:18-25 | without both brackets, the tokens are exactly the '.'-separated words, all of them words, and they join back to the line |
| LineReader.TokenizeWithBrackets | src/stormaudio_isp_telnet/line_reader.py:14-28 | with both brackets: the last token is the text between the first '[' and the last ']' split on ", " (just `[""]` when that text is empty or the brackets are reversed); the rest is the path up to one character before the '[' (the whole line but its last character when '[' comes first) |
| LineReader.EmptyBracketPayload | src/stormaudio_isp_telnet/line_reader.py:22-28 | an empty `[]` gives the one-item argument list `[""]` |
| LineReader.TokenizeCommand | src/stormaudio_isp_telnet/line_reader.py:14-28 | `<path>.[<args>]` without inner brackets tokenizes to the path's words followed by the arguments split on ", " |
| LineReader.TokenizeAll | src/stormaudio_isp_telnet/line_reader.py:113-114 | every line of a list tokenized, in order |
| LineReader.TokenReader.constructor | src/stormaudio_isp_telnet/line_reader.py:45-52 | the cursor starts at the first token |
| LineReader.TokenReader.PopTokenIfEqual | src/stormaudio_isp_telnet/line_reader.py:72-81 | advances by one exactly when the token at the cursor equals the expected one, and reports whether it did |
| LineReader.TokenReader.PopTokensIfEqual | src/stormaudio_isp_telnet/line_reader.py:59-70 | all-or-nothing: succeeds exactly when the expected tokens occur at the cursor and then moves past all of them; on failure the cursor is back where it was |
| LineReader.TokenReader.PopToken | src/stormaudio_isp_telnet/line_reader.py:83-90 | returns the token at the cursor and moves past it, or `None` without moving at the end of the line |
| LineReader.LinesState.Head | src/stormaudio_isp_telnet/line_reader.py:124 | the line read next is the first unread line |
| LineReader.LinesState.Advance | src/stormaudio_isp_telnet/line_reader.py:119-126 | reading a line removes exactly that line from the unread lines and changes neither the lines nor the commit point |
| LineReader.LinesState.Consume | src/stormaudio_isp_telnet/line_reader.py:128-136 | after a commit the pending lines are exactly the unread ones; the storage is emptied once every line was read |
| LineReader.LinesState.Reset | src/stormaudio_isp_telnet/line_reader.py:138-141 | a rollback makes every line read since the last commit unread again, in order, and keeps the lines |
| LineReader.LinesState.Add | src/stormaudio_isp_telnet/line_reader.py:109-117 | adding appends the tokenized lines to both the pending and the unread lines, and keeps a settled buffer settled |
| LineReader.LinesReader.constructor | src/stormaudio_isp_telnet/line_reader.py:97-102 | a new buffer is empty with both indexes unset |
| LineReader.LinesReader.HasNextLine | src/stormaudio_isp_telnet/line_reader.py:104-107 | true exactly when an unread line exists |
| LineReader.LinesReader.AddLines | src/stormaudio_isp_telnet/line_reader.py:109-117 | the in-place append loop computes `LinesState.Add` |
| LineReader.LinesReader.ReadNextLine | src/stormaudio_isp_telnet/line_reader.py:119-126 | with an unread line, returns a fresh cursor at the start of the head line and advances; otherwise returns null and changes nothing |
| LineReader.LinesReader.ConsumeReadLines | src/stormaudio_isp_telnet/line_reader.py:128-136 | the in-place commit computes `LinesState.Consume` |
| LineReader.LinesReader.ResetReadLines | src/stormaudio_isp_telnet/line_reader.py:138-141 | the in-place rollback computes `LinesState.Reset` |
| Devices.VideoInput | src/stormaudio_isp_telnet/constants.py:16-25 | `VideoInputID(n)` exists exactly for 0 to 8 and keeps the value |
| Devices.AudioInput | src/stormaudio_isp_telnet/constants.py:28-55 | `AudioInputID(n)` exists exactly for 0 to 26 and keeps the value |
| Devices.AudioZone2Input | src/stormaudio_isp_telnet/constants.py:58-86 | `AudioZone2InputID(n)` exists exactly for 0 to 27 and keeps the value |
| Devices.ParseFlag | src/stormaudio_isp_telnet/telnet_client.py:490 | `bool(int(text))` succeeds exactly when `int` does, and is true exactly for a non-zero value |
| Devices.ParseInput | src/stormaudio_isp_telnet/telnet_client.py:449-462 | a decoded input needs at least seven arguments; its id is the second argument and its name the first without quotes |
| Devices.ParseZone | src/stormaudio_isp_telnet/telnet_client.py:481-495 | the corrected zone decoder: at least eleven arguments, the id is the first argument and the name the second without quotes |
| Devices.ParseZoneAsWritten | src/stormaudio_isp_telnet/telnet_client.py:483-494 | the zone decoder as written raises on every argument list |
| Devices.ParseAudioZoneIds | src/stormaudio_isp_telnet/telnet_client.py:506-509 | a decoded zone id list is never empty |
| Devices.ParseInts | src/stormaudio_isp_telnet/telnet_client.py:509 | succeeds exactly when every piece is an integer, and then gives each piece's value in order |
| Devices.ParseIntsRoundTrip | src/stormaudio_isp_telnet/telnet_client.py:509 | converting the `str` of each integer gives the integers back |
| Devices.AudioZoneIdsRoundTrip | src/stormaudio_isp_telnet/telnet_client.py:506-509 | the device's `["1","2"]` rendering of a non-empty id list decodes to that list |
| Devices.UnquoteQuoted | src/stormaudio_isp_telnet/telnet_client.py:452 | stripping quotes off a quoted name gives the name back |
| Devices.FlagRoundTrip | src/stormaudio_isp_telnet/telnet_client.py:526-527 | "1" and "0" decode to true and false |
| Devices.InputRoundTrip | src/stormaudio_isp_telnet/telnet_client.py:449-462 | the arguments that describe an input decode to that input |
| Devices.ZoneRoundTrip | src/stormaudio_isp_telnet/telnet_client.py:481-495 | the arguments that describe a zone decode to that zone with the corrected decoder, and fail with the decoder as written |
| Devices.ParsePreset | src/stormaudio_isp_telnet/telnet_client.py:519-529 | a decoded preset needs four arguments; its id is the second argument, its name the first without quotes, and its zone list is not empty |
| Devices.PresetRoundTrip | src/stormaudio_isp_telnet/telnet_client.py:519-529 | the arguments that describe a preset decode to that preset |
| Devices.DeviceState.constructor | src/stormaudio_isp_telnet/telnet_client.py:17-32 | a new device state has every field unknown |
| Protocol.OnOff | src/stormaudio_isp_telnet/telnet_client.py:402-407 | true exactly when the word at the cursor is "on", and false exactly when it is "off" |
| Protocol.NextProcessorState | src/stormaudio_isp_telnet/telnet_client.py:428-437 | a processor state is known exactly for the codes "0", "1" and "2" |
| Protocol.SetField | src/stormaudio_isp_telnet/telnet_client.py:220-284 | brand and model always convert, and set exactly that field to the text stripped of '"'; the volume converts exactly when `Decimal` accepts the text and the ids exactly when `int` accepts it, and then only that field changes, to the converted value |
| Protocol.SetFieldReadBack | src/stormaudio_isp_telnet/telnet_client.py:225-247 | the device's quoted brand or model name sets the field to the bare name; an integral volume or an id written by `str` sets the field to that value |
| Protocol.Block | src/stormaudio_isp_telnet/telnet_client.py:441-538 | a listing only reads ahead; it returns a raise, IGNORED, INCOMPLETE (only once every line is read) or COMPLETE with STATE_UPDATED |
| Protocol.ListingStep | src/stormaudio_isp_telnet/telnet_client.py:441-538 | a listing evaluator only reads ahead and leaves the keepalive flag alone; any result other than COMPLETE with STATE_UPDATED leaves the device as it was, and that result changes only the listing's own collection |
| Protocol.Continue | src/stormaudio_isp_telnet/telnet_client.py:373-439 | a continuation returns one of IGNORED, INCOMPLETE, COMPLETE, COMPLETE with STATE_UPDATED, or raises. It changes the device only with STATE_UPDATED, and the keepalive flag only in the keepalive evaluator. Only listings read further lines |
| Protocol.Evaluate | src/stormaudio_isp_telnet/telnet_client.py:355-371 | `_eval__line` keeps the buffer's index invariant |
| Protocol.ProcStateStep | src/stormaudio_isp_telnet/telnet_client.py:422-439 | the processor-state continuation returns COMPLETE with STATE_UPDATED, IGNORED, or raises on an empty list. It changes the device only with STATE_UPDATED and never touches the buffer or the keepalive flag |
| Protocol.SingleStep | src/stormaudio_isp_telnet/telnet_client.py:386-391 | a one-field continuation returns COMPLETE with STATE_UPDATED or IGNORED, or raises when the list is empty or the conversion fails. It changes the device only with STATE_UPDATED and never touches the buffer or the keepalive flag |
| Protocol.KeepaliveLine | src/stormaudio_isp_telnet/telnet_client.py:373-378 | a line starting with `ssp.keepalive` sets the keepalive flag, returns COMPLETE without STATE_UPDATED, commits the line and leaves the device alone |
| Protocol.EvaluateOnSettled | src/stormaudio_isp_telnet/telnet_client.py:355-371 | on a settled buffer an evaluator returns one of the four outcomes and leaves the buffer settled. With COMPLETE it commits at least one line; otherwise the buffer is exactly as before. The device changes only with STATE_UPDATED |
| Protocol.EvaluateUnmatched | src/stormaudio_isp_telnet/telnet_client.py:360-371 | with no line to read the result is INCOMPLETE, and on a line without the evaluator's path it is IGNORED; in both cases nothing changes |
| Protocol.SwitchLine | src/stormaudio_isp_telnet/telnet_client.py:398-420 | "on" and "off" set the mute flag or power command and commit the line; anything else is IGNORED and changes nothing |
| Protocol.ProcessorStateLine | src/stormaudio_isp_telnet/telnet_client.py:422-439 | "0" gives off and "2" gives on. "1" gives initializing after a power-on command and shutting down otherwise. Other codes and non-list tokens are IGNORED with no change; an empty list raises |
| Protocol.FieldLine | src/stormaudio_isp_telnet/telnet_client.py:380-396 | only an argument list sets the field, to its first item converted, and commits; a failed conversion raises without changing the device; anything else is IGNORED with no change |
| Protocol.BlockRecordStep | src/stormaudio_isp_telnet/telnet_client.py:446-462 | a record line adds its record, and the listing goes on with the next line |
| Protocol.BlockEndStep | src/stormaudio_isp_telnet/telnet_client.py:465-468 | the closing line completes the listing with STATE_UPDATED, just past that line |
| Protocol.BlockCollects | src/stormaudio_isp_telnet/telnet_client.py:441-471 | record lines followed by the closing line collect exactly their records, in order, and stop just past the closing line |
| Protocol.BlockCollectsRecord | src/stormaudio_isp_telnet/telnet_client.py:446-462 | the same, for a listing whose first line is a record line |
| Protocol.ZoneListingAsWritten | src/stormaudio_isp_telnet/telnet_client.py:479-494 | with the zone decoder as written, the first `ssp.zones.list` line with an argument list makes the listing raise |
| Protocol.BlockOtherLine | src/stormaudio_isp_telnet/telnet_client.py:469-470 | a line that is neither a record line nor the closing line ends the listing IGNORED, just past that line, with nothing collected |
| Protocol.BlockCompleteMeansEnd | src/stormaudio_isp_telnet/telnet_client.py:446-471 | the converse of `BlockCollects`: a listing completes only when the lines it read are record lines followed by its closing line, and it has then collected exactly their records |
| Protocol.CollectsFromStart | src/stormaudio_isp_telnet/telnet_client.py:445-468 | from an empty collection, record lines followed by the closing line make the listing complete with exactly their records, just past the closing line |
| Protocol.CompletesFromStart | src/stormaudio_isp_telnet/telnet_client.py:445-468 | the converse of `CollectsFromStart`: a completed listing read record lines for exactly the records it returns, then its closing line, and stopped just past it |
| Protocol.ListingLine | src/stormaudio_isp_telnet/telnet_client.py:360-368 | on its opening line a listing evaluator runs `ListingStep` on the lines after it; COMPLETE with STATE_UPDATED commits every line read, and any other result leaves the buffer and the device as they were |
| Protocol.InputsListed | src/stormaudio_isp_telnet/telnet_client.py:441-471 | record lines followed by `ssp.input.end` replace the input list with exactly their inputs, in order, and change nothing else on the device |
| Protocol.ZonesListed | src/stormaudio_isp_telnet/telnet_client.py:473-504 | record lines followed by `ssp.zones.end` replace the zone list with exactly their zones (corrected decoder), in order, and change nothing else on the device |
| Protocol.PresetsListed | src/stormaudio_isp_telnet/telnet_client.py:511-538 | record lines followed by `ssp.preset.end` replace the preset list with exactly their presets, in order, and change nothing else on the device |
| Protocol.BlockRunsOut | src/stormaudio_isp_telnet/telnet_client.py:446-471 | record lines with no closing line yet end INCOMPLETE after reading them all |
| Protocol.RunMatchers | src/stormaudio_isp_telnet/telnet_client.py:213-284 | one pass of the chain keeps the buffer invariant, and its flags keep every flag it started with (how each evaluator's flags are OR-ed in is the `RunMatchersStep` row); the only commands it sends are zones requests, appended |
| Protocol.RunMatchersStep | src/stormaudio_isp_telnet/telnet_client.py:261-271 | the first evaluator, then the rest of the chain; a completed preset-id result sends the zones request; a raise ends the chain |
| Protocol.RunMatchersOnSettled | src/stormaudio_isp_telnet/telnet_client.py:211-297 | on a settled buffer, a pass leaves it settled. Without COMPLETE the buffer is unchanged, and a new COMPLETE commits a line. A non-empty chain that neither completed nor ran out was IGNORED by everyone. The device changes only with STATE_UPDATED |
| Protocol.Drain | src/stormaudio_isp_telnet/telnet_client.py:211-297 | the inner read loop ends; it keeps the buffer invariant, and leaves the buffer settled unless it raised |
| Protocol.DrainUnfold | src/stormaudio_isp_telnet/telnet_client.py:286-297 | one iteration: a raise or INCOMPLETE ends the loop; otherwise it goes on with fewer pending lines, dropping the head line when all evaluators IGNORED it |
| Protocol.DrainUpdates | src/stormaudio_isp_telnet/telnet_client.py:286-288 | the update flag never goes back to false, and stays false only when the device state is unchanged |
| Protocol.DrainSends | src/stormaudio_isp_telnet/telnet_client.py:261-271 | the only commands the inner loop sends are zones requests |
| Protocol.SplitLinesHaveNoNewline | src/stormaudio_isp_telnet/telnet_client.py:196 | no line split off the output holds a newline |
| Protocol.Reassemble | src/stormaudio_isp_telnet/telnet_client.py:193-209 | the kept output plus the chunk is exactly the complete lines, each ended by a newline, then the new rest; nothing holds a newline, and without a newline everything is kept |
| Protocol.ChunkEventsShape | src/stormaudio_isp_telnet/telnet_client.py:199-311 | a chunk's events end with the disconnection exactly when the loop raised. Raw lines and commands come first. The state-updated notification is present exactly when the loop did not raise and something was updated. Raw lines appear only with a callback; every command is the zones request |
| Protocol.Receive | src/stormaudio_isp_telnet/telnet_client.py:185-311 | one read keeps the buffer invariant and leaves no newline in the kept output; a loop that goes on is ready for the next read |
| Protocol.ReceiveReports | src/stormaudio_isp_telnet/telnet_client.py:185-311 | end of file alone ends with the disconnection. The loop ends exactly when the last event is the disconnection, and the notification is last and fires at most once. With no notification the device is unchanged. Raw lines go only to a callback, and the only command sent is the zones request |
| TelnetClient.Client.constructor | src/stormaudio_isp_telnet/telnet_client.py:101-132 | a connected client has an empty buffer, no kept output, an unknown device and no events |
| TelnetClient.Client.EvalLine | src/stormaudio_isp_telnet/telnet_client.py:355-371 | the in-place `_eval__line` computes `Protocol.Evaluate` on the buffer, the device and the keepalive flag |
| TelnetClient.Client.ContinueAndSettle | src/stormaudio_isp_telnet/telnet_client.py:363-368 | after a matched prefix, the continuation runs on the line and the in-place state, and the buffer is then committed with COMPLETE or rolled back; a raise leaves it as the continuation left it |
| TelnetClient.Client.Settle | src/stormaudio_isp_telnet/telnet_client.py:364-367 | commits when the result has COMPLETE, rolls back otherwise, and touches nothing after a raise |
| TelnetClient.Client.ContinueLine | src/stormaudio_isp_telnet/telnet_client.py:373-439 | the in-place continuations compute `Protocol.Continue` |
| TelnetClient.Client.ReadSwitch | src/stormaudio_isp_telnet/telnet_client.py:402-407 | the two conditional pops compute `Protocol.OnOff` |
| TelnetClient.Client.StoreProcessorState | src/stormaudio_isp_telnet/telnet_client.py:422-439 | the in-place processor-state continuation computes `Protocol.Continue` for it |
| TelnetClient.Client.StoreField | src/stormaudio_isp_telnet/telnet_client.py:220-284 | assigns the converted field as `Protocol.SetField` does, and changes nothing when the conversion raises |
| TelnetClient.Client.EvalListing | src/stormaudio_isp_telnet/telnet_client.py:441-538 | the in-place listing evaluators compute `Protocol.ListingStep` |
| TelnetClient.Client.EvalInputs | src/stormaudio_isp_telnet/telnet_client.py:441-471 | computes `Protocol.ListingStep` for inputs; on COMPLETE with STATE_UPDATED the input list holds exactly the records of the lines read, which were record lines then `ssp.input.end`, and nothing else on the device changes; any other result leaves the device as it was |
| TelnetClient.Client.EvalZones | src/stormaudio_isp_telnet/telnet_client.py:473-504 | the same for zones, with the corrected decoder and `ssp.zones.end` |
| TelnetClient.Client.EvalPresets | src/stormaudio_isp_telnet/telnet_client.py:511-538 | the same for presets and `ssp.preset.end` |
| TelnetClient.Client.EvalBlock | src/stormaudio_isp_telnet/telnet_client.py:446-471 | the listing loop computes `Protocol.Block`; when it completes, the lines it read are record lines for exactly the records it returns, then the closing line, and the buffer stands just past that line |
| TelnetClient.Client.BlockLine | src/stormaudio_isp_telnet/telnet_client.py:447-470 | one line of a listing either ends it as `Protocol.Block` does, or reads one line further with the record appended and the same outcome ahead |
| TelnetClient.Client.TakeRecord | src/stormaudio_isp_telnet/telnet_client.py:448-463 | a record line of a listing agrees with `Protocol.Block`: a converted record is appended and the listing goes on with fewer unread lines, a failed conversion raises, and a line without arguments is IGNORED |
| TelnetClient.Client.RunChain | src/stormaudio_isp_telnet/telnet_client.py:213-284 | the chain of evaluators computes `Protocol.RunMatchers`, and the commands it writes are the ones that function sends |
| TelnetClient.Client.ChainStep | src/stormaudio_isp_telnet/telnet_client.py:261-271 | one evaluator computes `Protocol.Evaluate`, and writes the zones request exactly after a completed preset-id result |
| TelnetClient.Client.FollowUp | src/stormaudio_isp_telnet/telnet_client.py:268-271 | the zones request is written, and recorded as sent, exactly when the preset-id evaluator completed |
| TelnetClient.Client.DrainLines | src/stormaudio_isp_telnet/telnet_client.py:211-297 | the inner read loop computes `Protocol.Drain`, and writes exactly the commands it sends |
| TelnetClient.Client.DrainStep | src/stormaudio_isp_telnet/telnet_client.py:212-297 | one iteration of the inner loop: it ends as `Protocol.Drain` does, or continues with fewer pending lines and the same outcome ahead |
| TelnetClient.Client.DropHead | src/stormaudio_isp_telnet/telnet_client.py:294-297 | a line no evaluator took is read and committed |
| TelnetClient.Client.OnChunk | src/stormaudio_isp_telnet/telnet_client.py:185-311 | one read of the loop computes `Protocol.Receive`: the new state and the events reported |
| TelnetClient.Client.BufferChunk | src/stormaudio_isp_telnet/telnet_client.py:193-209 | computes `Protocol.Reassemble`, reports each complete line to the raw-line callback in order, and buffers them |
| TelnetClient.Client.SendCommand | src/stormaudio_isp_telnet/telnet_client.py:323-330 | the writer receives the command |
| TelnetClient.Client.RequestZones | src/stormaudio_isp_telnet/telnet_client.py:336-337 | sends `ssp.zones.list` |
| TelnetClient.Client.SetPowerCommand | src/stormaudio_isp_telnet/telnet_client.py:332-334 | sends `ssp.power.on` or `ssp.power.off` |
| TelnetClient.Client.SetMute | src/stormaudio_isp_telnet/telnet_client.py:339-341 | sends `ssp.mute.on` or `ssp.mute.off` |
| TelnetClient.Client.SetInputId | src/stormaudio_isp_telnet/telnet_client.py:346-347 | sends `ssp.input.[<id>]` |
| TelnetClient.Client.SetInputZone2Id | src/stormaudio_isp_telnet/telnet_client.py:349-350 | sends `ssp.inputZone2.[<id>]` |
| TelnetClient.Client.SetPresetId | src/stormaudio_isp_telnet/telnet_client.py:352-353 | sends `ssp.preset.[<id>]` |
| TelnetClient.PowerCommandEcho | src/stormaudio_isp_telnet/telnet_client.py:332-334 | the power command, read back as a line, is taken by the power evaluator, which records that command and commits the line |
| TelnetClient.MuteCommandEcho | src/stormaudio_isp_telnet/telnet_client.py:339-341 | the mute command, read back as a line, sets the mute flag to the commanded value and commits the line |
| TelnetClient.FieldCommandTokens | src/stormaudio_isp_telnet/telnet_client.py:346-353 | an id command tokenizes to the field's path followed by a one-item argument list holding the id |
| TelnetClient.FieldCommandEcho | src/stormaudio_isp_telnet/telnet_client.py:346-353 | an input, zone-2 input or preset command, read back as a line, sets that field to the commanded id and commits the line |

## Left out

- `async_connect`, `async_disconnect`, `_keepalive_loop` and the watchdog are left out. They involve the network, timers and task scheduling. The client starts from the state `async_connect` leaves, and `keepaliveReceived` is kept but never consumed.
- `async_set_volume` is left out because formatting a `Decimal` with `str` is not modelled.
- Numbers.ParseDecimal accepts only plain positional literals: an optional sign, digits and at most one point. Exponents, `Infinity`, `NaN`, surrounding whitespace and underscores, which Python's `Decimal` also accepts, yield `None`.
- Numbers.ParseInt does not accept the surrounding whitespace, underscores and non-ASCII digits that Python's `int` also accepts.
- The callbacks and the writer are a ghost trace of events. Their awaiting, and any exception they raise, are not modelled, and the writer is assumed present.
- An exception is the `Raised` outcome. The read loop ends and reports the disconnection. The `RuntimeError` re-raised afterwards, the scheduled `async_disconnect` and the `_read_loop_finished` event are not modelled.
- `read(1024)` is a parameter: `OnChunk` receives each chunk, and an empty chunk is end of file.
- The Python objects of a line are values. A `TokenizedLine` is a datatype, and `TokenizedLinesReader` keeps its lines in a `seq` field. Object identity and aliasing of lines are not modelled.
- The enumeration members are the integers 0 to 8, 0 to 26 and 0 to 27, not named constants.
- Protocol.ListingStep, TelnetClient.Client.EvalListing and TelnetClient.Client.EvalZones decode zone listings with the corrected `Devices.ParseZone`, so in the model a zone listing can complete and store its zones. As written, the first zone line raises `NameError` and ends the read loop (see Findings and `Protocol.ZoneListingAsWritten`). `Protocol.ZonesListed` is stated for the corrected decoder. The same holds for everything built on them: `Continue`, `Evaluate`, `RunMatchers`, `Drain`, `Receive` and the client's loop methods.
- The zone layout type and the zone type are kept as the device's raw integers, because their enumerations are not defined (see Findings).
- `get_device_state`, `get_raw_line` and `get_field_tokens` are plain accessors; they are the fields themselves.
- src/main.py, a command-line demonstration, is not part of this model.

## Findings

| source | as written | input that shows it | evidently intended | confidence | as-written member | corrected member |
|---|---|---|---|---|---|---|
| src/stormaudio_isp_telnet/telnet_client.py:483-494 | `Zone(...)` calls `ZoneLayoutType(...)` and `ZoneType(...)`, which src/stormaudio_isp_telnet/constants.py does not define, so every `ssp.zones.list` line raises `NameError`. The read loop then ends and the client disconnects. | `ssp.zones.list.[1, "Main", 0, 0, 0, -40, 0, 0, 0, 0, 0]` after `ssp.zones.start` | decode each zone line to a `Zone` whose layout and zone type are the device's codes, and store the list on `ssp.zones.end` | not executed | Devices.ParseZoneAsWritten | Devices.ParseZone |
