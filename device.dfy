/** The device state the decoder maintains, the inventory records it builds
    from `list` lines, and the conversions of their fields
    (src/stormaudio_isp_telnet/telnet_client.py, `DeviceState`, `Input`,
    `Zone`, `Preset`, `_parse_audio_zone_ids`; the enumerations of
    src/stormaudio_isp_telnet/constants.py as bounded integers). */
module Devices {
  import opened Wrappers
  import opened Strings
  import opened Numbers

  datatype PowerCommand = On | Off

  datatype ProcessorState = On | Initializing | ShuttingDown | Off

  /** `VideoInputID`, `AudioInputID` and `AudioZone2InputID`: their values are
      the integers 0..8, 0..26 and 0..27. */
  type VideoInputId = n: int | 0 <= n <= 8

  type AudioInputId = n: int | 0 <= n <= 26

  type AudioZone2InputId = n: int | 0 <= n <= 27

  /** `VideoInputID(n)`; `None` where the enumeration raises `ValueError`. */
  function VideoInput(n: int): (r: Option<VideoInputId>)
    ensures r.Some? <==> 0 <= n <= 8
    ensures r.Some? ==> r.value == n
  {
    if 0 <= n <= 8 then Some(n) else None
  }

  /** `AudioInputID(n)`. */
  function AudioInput(n: int): (r: Option<AudioInputId>)
    ensures r.Some? <==> 0 <= n <= 26
    ensures r.Some? ==> r.value == n
  {
    if 0 <= n <= 26 then Some(n) else None
  }

  /** `AudioZone2InputID(n)`. */
  function AudioZone2Input(n: int): (r: Option<AudioZone2InputId>)
    ensures r.Some? <==> 0 <= n <= 27
    ensures r.Some? ==> r.value == n
  {
    if 0 <= n <= 27 then Some(n) else None
  }

  datatype Input = Input(
    name: string,
    id: int,
    videoInId: VideoInputId,
    audioInId: AudioInputId,
    audioZone2InId: AudioZone2InputId,
    delayMs: Decimal)

  /** A zone. The zone layout type and zone type are the device's integer
      codes: their enumerations are not defined in the source (see Findings). */
  datatype Zone = Zone(
    id: int,
    name: string,
    layoutType: int,
    zoneType: int,
    useZone2Source: bool,
    volumeDb: Decimal,
    delayMs: Decimal,
    mute: bool)

  datatype Preset = Preset(
    name: string,
    id: int,
    audioZoneIds: seq<int>,
    sphereAudioTheaterEnabled: bool)

  /** The characters `strip('"')` removes. */
  const Quote: set<char> := {'"'}

  /** `bool(int(text))`. */
  function ParseFlag(s: string): (r: Option<bool>)
    ensures r.Some? <==> ParseInt(s).Some?
    ensures r.Some? ==> (r.value <==> ParseInt(s).value != 0)
  {
    match ParseInt(s)
    case Some(n) => Some(n != 0)
    case None => None
  }

  /** The `Input` of an `ssp.input.list` line's arguments: name, id, video,
      audio and zone-2 audio input, and the delay at index 6 (index 5 is not
      read). `None` where Python raises: fewer than 7 arguments, a bad
      integer, an id outside its enumeration, or a bad decimal. */
  function ParseInput(fields: seq<string>): (r: Option<Input>)
    ensures r.Some? ==> |fields| >= 7 && ParseInt(fields[1]) == Some(r.value.id)
    ensures r.Some? ==> r.value.name == Strip(fields[0], Quote)
  {
    if |fields| < 7 then None
    else
      match (ParseInt(fields[1]), ParseInt(fields[2]), ParseInt(fields[3]), ParseInt(fields[4]), ParseDecimal(fields[6]))
      case (Some(id), Some(v), Some(a), Some(z), Some(delay)) =>
        (match (VideoInput(v), AudioInput(a), AudioZone2Input(z))
         case (Some(video), Some(audio), Some(zone2)) =>
           Some(Input(Strip(fields[0], Quote), id, video, audio, zone2, delay))
         case _ => None)
      case _ => None
  }

  /** The `Zone` of an `ssp.zones.list` line's arguments, as the code evidently
      intends: id, name, layout type, zone type, zone-2 source flag, volume,
      delay and the mute flag at index 10. `None` where Python raises. */
  function ParseZone(fields: seq<string>): (r: Option<Zone>)
    ensures r.Some? ==> |fields| >= 11 && ParseInt(fields[0]) == Some(r.value.id)
    ensures r.Some? ==> r.value.name == Strip(fields[1], Quote)
  {
    if |fields| < 11 then None
    else
      match (ParseInt(fields[0]), ParseInt(fields[2]), ParseInt(fields[3]), ParseFlag(fields[4]))
      case (Some(id), Some(layout), Some(kind), Some(zone2)) =>
        (match (ParseDecimal(fields[5]), ParseDecimal(fields[6]), ParseFlag(fields[10]))
         case (Some(volume), Some(delay), Some(mute)) =>
           Some(Zone(id, Strip(fields[1], Quote), layout, kind, zone2, volume, delay, mute))
         case _ => None)
      case _ => None
  }

  /** `Zone(...)` as written: the arguments are evaluated in order, and after
      the id and the name the code calls `ZoneLayoutType(...)`, a name that
      src/stormaudio_isp_telnet/constants.py does not define, so every path
      raises (IndexError, ValueError, or NameError). */
  function ParseZoneAsWritten(fields: seq<string>): (r: Option<Zone>)
    ensures r == None
  {
    if |fields| < 1 || ParseInt(fields[0]).None? then None // IndexError / ValueError
    else if |fields| < 2 then None                          // IndexError on the name
    else None                                               // NameError: ZoneLayoutType
  }

  /** `_parse_audio_zone_ids`: strip the characters '"' and '[' from both ends,
      then '"' and ']', split on `","` and convert every piece with `int`. */
  function ParseAudioZoneIds(field: string): (r: Option<seq<int>>)
    ensures r.Some? ==> |r.value| >= 1
  {
    var inner := Strip(Strip(field, {'"', '['}), {'"', ']'});
    ParseInts(Split(inner, "\",\""))
  }

  /** `list(map(int, parts))`; `None` when any piece is not an integer. */
  function ParseInts(parts: seq<string>): (r: Option<seq<int>>)
    ensures r.Some? <==> forall i :: 0 <= i < |parts| ==> ParseInt(parts[i]).Some?
    ensures r.Some? ==> |r.value| == |parts|
    ensures r.Some? ==> forall i :: 0 <= i < |parts| ==> ParseInt(parts[i]) == Some(r.value[i])
  {
    if parts == [] then Some([])
    else
      match (ParseInt(parts[0]), ParseInts(parts[1..]))
      case (Some(n), Some(ns)) => Some([n] + ns)
      case _ => None
  }

  function IntStrings(ns: seq<int>): (r: seq<string>)
    ensures |r| == |ns| && forall i :: 0 <= i < |ns| ==> r[i] == IntToString(ns[i])
  {
    seq(|ns|, i requires 0 <= i < |ns| => IntToString(ns[i]))
  }

  /** How the device writes a preset's zone ids: `["1","2"]`. */
  function FormatAudioZoneIds(ids: seq<int>): string {
    "[\"" + Join(IntStrings(ids), "\",\"") + "\"]"
  }

  /** `int` reads back every string that `str` wrote. */
  lemma {:induction false} ParseIntsRoundTrip(ns: seq<int>)
    ensures ParseInts(IntStrings(ns)) == Some(ns)
    decreases |ns|
  {
    if ns != [] {
      var strs := IntStrings(ns);
      IntRoundTrip(ns[0]);
      assert ParseInt(strs[0]) == Some(ns[0]);
      assert strs[1..] == IntStrings(ns[1..]);
      ParseIntsRoundTrip(ns[1..]);
      assert [ns[0]] + ns[1..] == ns;
    }
  }

  /** Stripping '"' and '[' off `["` + `x` leaves `x` when `x` neither starts
      nor ends with one of them. */
  lemma UnwrapOpening(x: string)
    requires x != [] && x[0] != '"' && x[0] != '[' && x[|x| - 1] != '"' && x[|x| - 1] != '['
    ensures Strip("[\"" + x, {'"', '['}) == x
  {
    var pre := "[\"";
    assert forall c :: c in pre ==> c in {'"', '['};
    assert pre + x + "" == pre + x;
    StripWrapped(pre, x, "", {'"', '['});
  }

  /** Stripping '"' and ']' off `core` + `"]` leaves `core` when `core`
      neither starts nor ends with one of them. */
  lemma UnwrapClosing(core: string)
    requires core != [] && core[0] != '"' && core[0] != ']'
    requires core[|core| - 1] != '"' && core[|core| - 1] != ']'
    ensures Strip(core + "\"]", {'"', ']'}) == core
  {
    var post := "\"]";
    assert forall c :: c in post ==> c in {'"', ']'};
    assert "" + core + post == core + post;
    StripWrapped("", core, post, {'"', ']'});
  }

  /** Stripping the brackets and outer quotes off `["core"]` leaves `core`
      when `core` neither starts nor ends with a quote or a bracket. */
  lemma UnwrapList(core: string)
    requires core != [] && core[0] != '"' && core[0] != '[' && core[0] != ']'
    requires core[|core| - 1] != '"' && core[|core| - 1] != ']'
    ensures Strip(Strip("[\"" + core + "\"]", {'"', '['}), {'"', ']'}) == core
  {
    var x := core + "\"]";
    assert "[\"" + core + "\"]" == "[\"" + x;
    UnwrapOpening(x);
    UnwrapClosing(core);
  }

  /** Stripping the brackets and outer quotes off the device's rendering of
      a non-empty zone id list leaves the joined ids. */
  lemma StripFormattedIds(ids: seq<int>)
    requires ids != []
    ensures Strip(Strip(FormatAudioZoneIds(ids), {'"', '['}), {'"', ']'})
      == Join(IntStrings(ids), "\",\"")
  {
    var strs := IntStrings(ids);
    var core := Join(strs, "\",\"");
    JoinEndsWithLast(strs, "\",\"");
    var last := strs[|strs| - 1];
    assert core[0] == strs[0][0];
    assert core[|core| - 1] == last[|last| - 1];
    UnwrapList(core);
  }

  /** No id string holds a quote character. */
  lemma IntStringsUnquoted(ids: seq<int>)
    ensures forall i :: 0 <= i < |ids| ==> '"' !in IntStrings(ids)[i]
  {
    forall i | 0 <= i < |ids| ensures '"' !in IntStrings(ids)[i] {
      var s := IntStrings(ids)[i];
      forall j | 0 <= j < |s| ensures s[j] != '"' { }
    }
  }

  /** Parsing the device's rendering of a non-empty zone id list gives the
      list back. */
  lemma AudioZoneIdsRoundTrip(ids: seq<int>)
    requires ids != []
    ensures ParseAudioZoneIds(FormatAudioZoneIds(ids)) == Some(ids)
  {
    var strs := IntStrings(ids);
    StripFormattedIds(ids);
    IntStringsUnquoted(ids);
    SplitJoin(strs, "\",\"");
    ParseIntsRoundTrip(ids);
  }

  /** A name the device quotes: non-empty, and not starting or ending with a
      quote character (which `strip('"')` would also remove). */
  predicate PlainName(name: string) {
    name != [] && name[0] != '"' && name[|name| - 1] != '"'
  }

  function Quoted(name: string): string {
    "\"" + name + "\""
  }

  lemma UnquoteQuoted(name: string)
    requires PlainName(name)
    ensures Strip(Quoted(name), Quote) == name
  {
    StripWrapped("\"", name, "\"", Quote);
  }

  function FlagString(b: bool): string {
    if b then "1" else "0"
  }

  lemma FlagRoundTrip(b: bool)
    ensures ParseFlag(FlagString(b)) == Some(b)
  {
    if b { IntRoundTrip(1); assert IntToString(1) == "1"; }
    else { IntRoundTrip(0); assert IntToString(0) == "0"; }
  }

  /** A decimal with exponent 0, written as its coefficient, reads back. */
  lemma IntegralDecimal(d: Decimal, s: string)
    requires d.exponent == 0 && s == IntToString(d.coefficient)
    ensures ParseDecimal(s) == Some(d)
  {
    DecimalOfInteger(d.coefficient);
  }

  /** The arguments of the `ssp.input.list` line that describes `input`
      (index 5, which the decoder does not read, as "0"). */
  function InputFields(input: Input): seq<string> {
    [Quoted(input.name), IntToString(input.id), IntToString(input.videoInId),
     IntToString(input.audioInId), IntToString(input.audioZone2InId), "0",
     IntToString(input.delayMs.coefficient)]
  }

  /** Decoding the arguments that describe an input gives the input back. */
  lemma InputRoundTrip(input: Input)
    requires PlainName(input.name) && input.delayMs.exponent == 0
    ensures ParseInput(InputFields(input)) == Some(input)
  {
    UnquoteQuoted(input.name);
    IntRoundTrip(input.id);
    IntRoundTrip(input.videoInId);
    IntRoundTrip(input.audioInId);
    IntRoundTrip(input.audioZone2InId);
    IntegralDecimal(input.delayMs, IntToString(input.delayMs.coefficient));
    ParseInputFields(Quoted(input.name), IntToString(input.id), IntToString(input.videoInId),
      IntToString(input.audioInId), IntToString(input.audioZone2InId), IntToString(input.delayMs.coefficient), input);
  }

  /** `ParseInput` accepts seven arguments whose fields each convert to the input's. */
  lemma ParseInputFields(name: string, id: string, video: string, audio: string, zone2: string, delay: string, input: Input)
    requires Strip(name, Quote) == input.name && ParseInt(id) == Some(input.id)
    requires ParseInt(video) == Some(input.videoInId as int) && ParseInt(audio) == Some(input.audioInId as int)
    requires ParseInt(zone2) == Some(input.audioZone2InId as int) && ParseDecimal(delay) == Some(input.delayMs)
    ensures ParseInput([name, id, video, audio, zone2, "0", delay]) == Some(input)
  {
  }

  /** The arguments of the `ssp.zones.list` line that describes `zone`
      (indexes 7 to 9, which the decoder does not read, as "0"). */
  function ZoneFields(zone: Zone): seq<string> {
    [IntToString(zone.id), Quoted(zone.name), IntToString(zone.layoutType),
     IntToString(zone.zoneType), FlagString(zone.useZone2Source),
     IntToString(zone.volumeDb.coefficient), IntToString(zone.delayMs.coefficient),
     "0", "0", "0", FlagString(zone.mute)]
  }

  /** `ParseZone` accepts eleven arguments whose fields each convert to the
      zone's; indexes 7 to 9 are not read. */
  lemma ParseZoneFields(id: string, name: string, layout: string, kind: string, zone2: string,
                        volume: string, delay: string, mute: string, zone: Zone)
    requires ParseInt(id) == Some(zone.id) && Strip(name, Quote) == zone.name
    requires ParseInt(layout) == Some(zone.layoutType) && ParseInt(kind) == Some(zone.zoneType)
    requires ParseFlag(zone2) == Some(zone.useZone2Source) && ParseFlag(mute) == Some(zone.mute)
    requires ParseDecimal(volume) == Some(zone.volumeDb) && ParseDecimal(delay) == Some(zone.delayMs)
    ensures ParseZone([id, name, layout, kind, zone2, volume, delay, "0", "0", "0", mute]) == Some(zone)
  {
    ElevenAt(id, name, layout, kind, zone2, volume, delay, mute);
    ParseZoneArgs([id, name, layout, kind, zone2, volume, delay, "0", "0", "0", mute], zone);
  }

  /** The positions of an eleven-argument list. */
  lemma ElevenAt(id: string, name: string, layout: string, kind: string, zone2: string,
                 volume: string, delay: string, mute: string)
    ensures var f := [id, name, layout, kind, zone2, volume, delay, "0", "0", "0", mute];
      && |f| == 11 && f[0] == id && f[1] == name && f[2] == layout && f[3] == kind
      && f[4] == zone2 && f[5] == volume && f[6] == delay && f[10] == mute
  {
  }

  /** `ParseZone` accepts arguments whose fields each convert to the zone's. */
  lemma ParseZoneArgs(f: seq<string>, zone: Zone)
    requires |f| >= 11 && Strip(f[1], Quote) == zone.name
    requires ParseInt(f[0]) == Some(zone.id)
    requires ParseInt(f[2]) == Some(zone.layoutType) && ParseInt(f[3]) == Some(zone.zoneType)
    requires ParseFlag(f[4]) == Some(zone.useZone2Source) && ParseFlag(f[10]) == Some(zone.mute)
    requires ParseDecimal(f[5]) == Some(zone.volumeDb) && ParseDecimal(f[6]) == Some(zone.delayMs)
    ensures ParseZone(f) == Some(zone)
  {
  }

  /** Decoding the arguments that describe a zone gives the zone back with
      the intended decoder, and always fails with the decoder as written. */
  lemma ZoneRoundTrip(zone: Zone)
    requires PlainName(zone.name) && zone.volumeDb.exponent == 0 && zone.delayMs.exponent == 0
    ensures ParseZone(ZoneFields(zone)) == Some(zone)
    ensures ParseZoneAsWritten(ZoneFields(zone)) == None
  {
    UnquoteQuoted(zone.name);
    IntRoundTrip(zone.id);
    IntRoundTrip(zone.layoutType);
    IntRoundTrip(zone.zoneType);
    FlagRoundTrip(zone.useZone2Source);
    FlagRoundTrip(zone.mute);
    IntegralDecimal(zone.volumeDb, IntToString(zone.volumeDb.coefficient));
    IntegralDecimal(zone.delayMs, IntToString(zone.delayMs.coefficient));
    ParseZoneFields(IntToString(zone.id), Quoted(zone.name), IntToString(zone.layoutType),
      IntToString(zone.zoneType), FlagString(zone.useZone2Source), IntToString(zone.volumeDb.coefficient),
      IntToString(zone.delayMs.coefficient), FlagString(zone.mute), zone);
  }

  /** The `Preset` of an `ssp.preset.list` line's arguments: name, id, the
      zone id list and the SphereAudio theater flag. `None` where Python raises. */
  function ParsePreset(fields: seq<string>): (r: Option<Preset>)
    ensures r.Some? ==> |fields| >= 4 && ParseInt(fields[1]) == Some(r.value.id)
    ensures r.Some? ==> r.value.name == Strip(fields[0], Quote) && r.value.audioZoneIds != []
  {
    if |fields| < 4 then None
    else
      match (ParseInt(fields[1]), ParseAudioZoneIds(fields[2]), ParseFlag(fields[3]))
      case (Some(id), Some(zoneIds), Some(theater)) =>
        Some(Preset(Strip(fields[0], Quote), id, zoneIds, theater))
      case _ => None
  }

  function PresetFields(preset: Preset): seq<string> {
    [Quoted(preset.name), IntToString(preset.id), FormatAudioZoneIds(preset.audioZoneIds),
     FlagString(preset.sphereAudioTheaterEnabled)]
  }

  /** Decoding the arguments that describe a preset gives the preset back. */
  lemma PresetRoundTrip(preset: Preset)
    requires PlainName(preset.name) && preset.audioZoneIds != []
    ensures ParsePreset(PresetFields(preset)) == Some(preset)
  {
    UnquoteQuoted(preset.name);
    IntRoundTrip(preset.id);
    AudioZoneIdsRoundTrip(preset.audioZoneIds);
    FlagRoundTrip(preset.sphereAudioTheaterEnabled);
  }

  /** `DeviceState` as a value; `None` is a field the device has not reported. */
  datatype Device = Device(
    brand: Option<string>,
    model: Option<string>,
    powerCommand: Option<PowerCommand>,
    processorState: Option<ProcessorState>,
    volumeDb: Option<Decimal>,
    mute: Option<bool>,
    inputs: Option<seq<Input>>,
    inputId: Option<int>,
    inputZone2Id: Option<int>,
    zones: Option<seq<Zone>>,
    presets: Option<seq<Preset>>,
    presetId: Option<int>)

  const Unknown: Device :=
    Device(None, None, None, None, None, None, None, None, None, None, None, None)

  /** `DeviceState`: the fields the evaluators assign in place. */
  class DeviceState {
    var brand: Option<string>
    var model: Option<string>
    var powerCommand: Option<PowerCommand>
    var processorState: Option<ProcessorState>
    var volumeDb: Option<Decimal>
    var mute: Option<bool>
    var inputs: Option<seq<Input>>
    var inputId: Option<int>
    var inputZone2Id: Option<int>
    var zones: Option<seq<Zone>>
    var presets: Option<seq<Preset>>
    var presetId: Option<int>

    ghost function Value(): Device
      reads this
    {
      Device(brand, model, powerCommand, processorState, volumeDb, mute,
             inputs, inputId, inputZone2Id, zones, presets, presetId)
    }

    constructor ()
      ensures Value() == Unknown
    {
      brand, model, powerCommand, processorState := None, None, None, None;
      volumeDb, mute, inputs, inputId := None, None, None, None;
      inputZone2Id, zones, presets, presetId := None, None, None, None;
    }
  }
}
