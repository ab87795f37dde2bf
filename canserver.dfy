/**
 * The `canserver` tool: which driver a name selects, which pipe name the server takes,
 * how each driver is brought up (in which order its calls are made and which errors stop
 * it), and how frames cross the named pipes: outbound as one length byte followed by the
 * serialized frame, inbound as serialized frames of which the undecodable ones are dropped.
 * The drivers' own calls, the file system, serial-port enumeration and the frame
 * serializer are parameters.
 */
module Canserver {
  import opened Wrappers
  import opened Bytes
  import opened CanFrames
  import opened Text
  import Pcan

  // ---------------------------------------------------------------- driver selection

  /** The three drivers the server can run. */
  datatype DriverKind = SlcanKind | PcanKind | GsUsbKind

  /** The name each driver is listed under in the error text. */
  function DriverName(k: DriverKind): string
  {
    match k
    case SlcanKind => "slcan"
    case PcanKind => "pcan"
    case GsUsbKind => "gsusb"
  }

  /** The error for a name that selects no driver; it echoes the lower-cased name. */
  function UnknownDriver(lowered: string): string
  {
    "Did not recognize driver specified: " + lowered + "\nSupported drivers are: slcan, pcan, gsusb"
  }

  /**
   * `initialize_driver`'s dispatch: the lower-cased name must be `slcan`, `pcan`, `gsusb`
   * or `gs_usb`; anything else is an error naming it.
   */
  function SelectDriver(name: string): (r: Result<DriverKind, IoError>)
    ensures r.Ok? <==> ToAsciiLower(name) in {"slcan", "pcan", "gsusb", "gs_usb"}
    ensures r.Ok? ==> ToAsciiLower(name) == DriverName(r.value)
                      || (r.value == GsUsbKind && ToAsciiLower(name) == "gs_usb")
    ensures r.Err? ==> r.error == IoError(Other, UnknownDriver(ToAsciiLower(name)))
  {
    var lowered := ToAsciiLower(name);
    if lowered == "slcan" then Ok(SlcanKind)
    else if lowered == "pcan" then Ok(PcanKind)
    else if lowered == "gsusb" || lowered == "gs_usb" then Ok(GsUsbKind)
    else Err(IoError(Other, UnknownDriver(lowered)))
  }

  /** A text with no upper-case ASCII letter is its own lower case. */
  lemma LowerUnchanged(s: string)
    requires forall i :: 0 <= i < |s| ==> !('A' <= s[i] <= 'Z')
    ensures ToAsciiLower(s) == s
  {
    assert forall i :: 0 <= i < |s| ==> ToAsciiLower(s)[i] == s[i];
  }

  /** Each driver is selected by the name it is listed under. */
  lemma SelectDriverName(k: DriverKind)
    ensures SelectDriver(DriverName(k)) == Ok(k)
  {
    LowerUnchanged(DriverName(k));
  }

  /** The selection ignores ASCII case entirely, error text included. */
  lemma SelectDriverIgnoresCase(a: string, b: string)
    requires EqIgnoreAsciiCase(a, b)
    ensures SelectDriver(a) == SelectDriver(b)
  {
    assert forall i :: 0 <= i < |a| ==> ToAsciiLower(a)[i] == ToAsciiLower(b)[i];
    assert ToAsciiLower(a) == ToAsciiLower(b);
  }

  // ---------------------------------------------------------------- the server's pipe name

  /** The pipe a server on `channel` reads its inbound frames from: `\\.\pipe\can_{channel}_in`. */
  function PipePath(channel: string): string
  {
    "\\\\.\\pipe\\can_" + channel + "_in"
  }

  /** The `k`-th name tried: the base followed by `k` in decimal. */
  function AutoName(base: string, k: nat): string
  {
    base + Digits(k, 10, false)
  }

  /**
   * `next_auto_channel`: tries `base0`, `base1`, ... and returns the first name whose
   * inbound pipe does not exist (`pipeExists` stands for the file-system probe). The source
   * loops for ever when every name is taken; the model asks that some name be free.
   */
  method NextAutoChannel(base: string, pipeExists: string -> bool) returns (name: string, ghost index: nat)
    requires exists k: nat :: !pipeExists(PipePath(AutoName(base, k)))
    ensures name == AutoName(base, index) && !pipeExists(PipePath(name))
    ensures forall j :: 0 <= j < index ==> pipeExists(PipePath(AutoName(base, j)))
  {
    ghost var free: nat :| !pipeExists(PipePath(AutoName(base, free)));
    var idx: nat := 0;
    while true
      invariant idx <= free
      invariant forall j :: 0 <= j < idx ==> pipeExists(PipePath(AutoName(base, j)))
      decreases free - idx
    {
      var candidate := base + Digits(idx, 10, false);
      if !pipeExists(PipePath(candidate)) {
        return candidate, idx;
      }
      idx := idx + 1;
    }
  }

  /** Different indices give different names, so the probe never tries a name twice. */
  lemma AutoNamesDistinct(base: string, j: nat, k: nat)
    requires j != k
    ensures AutoName(base, j) != AutoName(base, k)
  {
    DigitsValue(j, 10, false);
    DigitsValue(k, 10, false);
    assert AutoName(base, j)[|base|..] == Digits(j, 10, false);
    assert AutoName(base, k)[|base|..] == Digits(k, 10, false);
  }

  /** The channel `main` serves: `next_auto_channel("can")` for `auto` in any case, else the channel as given. */
  method ServerChannel(channel: string, pipeExists: string -> bool) returns (name: string)
    requires ToAsciiLower(channel) == "auto" ==> exists k: nat :: !pipeExists(PipePath(AutoName("can", k)))
    ensures ToAsciiLower(channel) != "auto" ==> name == channel
    ensures ToAsciiLower(channel) == "auto" ==>
              exists k: nat :: name == AutoName("can", k) && !pipeExists(PipePath(name))
                               && forall j :: 0 <= j < k ==> pipeExists(PipePath(AutoName("can", j)))
  {
    if ToAsciiLower(channel) == "auto" {
      ghost var k;
      name, k := NextAutoChannel("can", pipeExists);
    } else {
      name := channel;
    }
  }

  // ---------------------------------------------------------------- auto-detection

  /** The first of `names[i..]` that `accepts`, if any. */
  function FirstAccepted(names: seq<string>, accepts: string -> bool, i: nat): Option<string>
    requires i <= |names|
    decreases |names| - i
  {
    if i == |names| then None
    else if accepts(names[i]) then Some(names[i])
    else FirstAccepted(names, accepts, i + 1)
  }

  /** The search finds a name exactly when one is accepted, and then the earliest. */
  lemma {:induction false} FirstAcceptedIsFirst(names: seq<string>, accepts: string -> bool, i: nat)
    requires i <= |names|
    ensures FirstAccepted(names, accepts, i).None? <==> forall k :: i <= k < |names| ==> !accepts(names[k])
    ensures FirstAccepted(names, accepts, i).Some? ==>
              exists k :: i <= k < |names| && names[k] == FirstAccepted(names, accepts, i).value
                          && accepts(names[k]) && forall m :: i <= m < k ==> !accepts(names[m])
    decreases |names| - i
  {
    if i < |names| && !accepts(names[i]) {
      FirstAcceptedIsFirst(names, accepts, i + 1);
    }
  }

  /** The auto-detect loops: try the names in order and stop at the first that opens. */
  method AutoDetect(names: seq<string>, accepts: string -> bool) returns (found: Option<string>)
    ensures found == FirstAccepted(names, accepts, 0)
  {
    found := None;
    var i := 0;
    while i < |names|
      invariant i <= |names|
      invariant FirstAccepted(names, accepts, 0) == FirstAccepted(names, accepts, i)
    {
      if accepts(names[i]) {
        found := Some(names[i]);
        return;
      }
      i := i + 1;
    }
  }

  /** The PCAN channels `auto` tries, in order. */
  const PCAN_COMMON: seq<string> :=
    ["USBBUS1", "USBBUS2", "USBBUS3", "USBBUS4", "PCIBUS1", "PCIBUS2", "LANBUS1", "LANBUS2"]

  /** `PcanDriver::open` succeeds exactly for the channel names it can parse. */
  predicate PcanOpens(name: string)
  {
    Pcan.ParseChannel(name).Some?
  }

  /** The channel `init_pcan` opens, or the error it stops with. */
  function PcanChannel(channel: string): (r: Result<string, IoError>)
    ensures r.Ok? ==> PcanOpens(r.value)
    ensures ToAsciiUpper(channel) != "AUTO" ==> (r.Ok? <==> PcanOpens(channel)) && (r.Ok? ==> r.value == channel)
    ensures ToAsciiUpper(channel) == "AUTO" ==>
              (r.Ok? <==> exists k :: 0 <= k < |PCAN_COMMON| && PcanOpens(PCAN_COMMON[k]))
    ensures ToAsciiUpper(channel) == "AUTO" && r.Ok? ==>
              exists k :: 0 <= k < |PCAN_COMMON| && PCAN_COMMON[k] == r.value
                          && forall m :: 0 <= m < k ==> !PcanOpens(PCAN_COMMON[m])
  {
    if ToAsciiUpper(channel) == "AUTO" then
      FirstAcceptedIsFirst(PCAN_COMMON, PcanOpens, 0);
      match FirstAccepted(PCAN_COMMON, PcanOpens, 0)
      case Some(ch) => Ok(ch)
      case None => Err(IoError(Other, "Could not auto-detect a PCAN channel (tried USB, PCI, LAN)."))
    else if PcanOpens(channel) then Ok(channel)
    else Err(IoError(Other, "Could not open PCAN channel " + channel + ". Is the device connected?"))
  }

  /**
   * Opening a PCAN channel only parses its name, so auto-detection always settles on
   * `USBBUS1`, whether or not such an adapter is plugged in, and its error is never given.
   */
  lemma PcanAutoIsUsbBus1(channel: string)
    requires ToAsciiUpper(channel) == "AUTO"
    ensures PcanChannel(channel) == Ok("USBBUS1")
  {
    assert Digits(1, 10, true) == "1";
    assert Pcan.CanonicalName(Pcan.Usb, 1, false) == "USBBUS1";
    Pcan.ParseCanonicalChannel(Pcan.Usb, 1, false);
    assert PcanOpens(PCAN_COMMON[0]);
  }

  /** The serial port `init_slcan` opens, or the error it stops with. */
  function SlcanPort(channel: string, ports: Result<seq<string>, string>, probe: string -> bool,
                     opens: string -> bool): (r: Result<string, IoError>)
    ensures r.Ok? && ToAsciiLower(channel) == "auto" ==> ports.Ok? && r.value in ports.value && probe(r.value)
    ensures r.Ok? && ToAsciiLower(channel) != "auto" ==> r.value == channel && opens(channel)
    ensures ToAsciiLower(channel) != "auto" ==> (r.Ok? <==> opens(channel))
    ensures ToAsciiLower(channel) == "auto" ==>
              (r.Ok? <==> ports.Ok? && exists k :: 0 <= k < |ports.value| && probe(ports.value[k]))
    ensures ToAsciiLower(channel) == "auto" && r.Ok? ==>
              exists k :: 0 <= k < |ports.value| && ports.value[k] == r.value
                          && forall m :: 0 <= m < k ==> !probe(ports.value[m])
  {
    if ToAsciiLower(channel) == "auto" then
      match ports
      case Err(e) => Err(IoError(Other, "Failed to list serial ports: " + e))
      case Ok(names) =>
        if |names| == 0 then Err(IoError(Other, "No serial ports found on this system."))
        else
          FirstAcceptedIsFirst(names, probe, 0);
          match FirstAccepted(names, probe, 0)
          case Some(p) => Ok(p)
          case None => Err(IoError(Other, "Could not auto-detect an SLCAN device (checked all available COM/tty ports)."))
    else if opens(channel) then Ok(channel)
    else Err(IoError(Other, "Could not open serial port " + channel + ". Is it an slcan device?"))
  }

  // ---------------------------------------------------------------- bitrates

  const PCAN_NO_BITRATE := "No bitrate provided and failed to detect automatically. Use -b <bitrate>."
  const GSUSB_NO_BITRATE := "No bitrate provided. Specify one with -b <bitrate> for gs_usb devices."
  const SLCAN_NO_BITRATE := "No bitrate provided. Use the bitrate flag -b or upgrade to Cyder-Canable firmware for auto-bitrate detection."
  const SLCAN_MEASURE_FAILED := "Error retrieving measured bitrate. Try specifying it manually using the bitrate flag (-b)"
  const CYDER_PREFIX := "CYDER-CANABLE"

  /** The `-b` bitrate, or the error `message` without it (pcan and gs_usb have no other source). */
  function ExplicitBitrate(bitrate: Option<u32>, message: string): (r: Result<u32, IoError>)
    ensures r.Ok? <==> bitrate.Some?
    ensures r.Ok? ==> r.value == bitrate.value
    ensures r.Err? ==> r.error == IoError(Other, message)
  {
    match bitrate
    case Some(b) => Ok(b)
    case None => Err(IoError(Other, message))
  }

  /** Cyder-Canable firmware reports a version starting with `CYDER-CANABLE`. */
  predicate IsCyderFirmware(version: string)
  {
    StripPrefix(version, CYDER_PREFIX).Some?
  }

  /**
   * slcan's bitrate: `-b` when given; otherwise the adapter's measured rate, asked for only
   * of Cyder-Canable firmware (`measured` is its answer).
   */
  function SlcanBitrate(bitrate: Option<u32>, version: string, measured: Result<u32, IoError>): (r: Result<u32, IoError>)
    ensures bitrate.Some? ==> r == Ok(bitrate.value)
    ensures bitrate.None? && r.Ok? ==> IsCyderFirmware(version) && measured == Ok(r.value)
    ensures bitrate.None? && !IsCyderFirmware(version) ==> r == Err(IoError(Other, SLCAN_NO_BITRATE))
    ensures bitrate.None? && IsCyderFirmware(version) && measured.Err? ==> r == Err(IoError(Other, SLCAN_MEASURE_FAILED))
  {
    match bitrate
    case Some(b) => Ok(b)
    case None =>
      if !IsCyderFirmware(version) then Err(IoError(Other, SLCAN_NO_BITRATE))
      else match measured
        case Ok(b) => Ok(b)
        case Err(_) => Err(IoError(Other, SLCAN_MEASURE_FAILED))
  }

  /** Any version text behind the Cyder-Canable prefix counts as that firmware. */
  lemma CyderVersions(rest: string)
    ensures IsCyderFirmware(CYDER_PREFIX + rest)
    ensures !IsCyderFirmware("cyder-canable" + rest)
  {
    assert (CYDER_PREFIX + rest)[..|CYDER_PREFIX|] == CYDER_PREFIX;
    NotPrefixAt("cyder-canable" + rest, CYDER_PREFIX, 0);
  }

  // ---------------------------------------------------------------- bringing a driver up

  /** The driver calls `canserver` makes while bringing a driver up. */
  datatype Call = CloseChannel | GetVersion | MeasureBitrate | SetBitrate(bitrate: u32) | EnableTimestamp | OpenChannel

  /** What bringing a driver up did: its outcome and the calls made, in order. */
  datatype Bringup = Bringup(result: Result<(), IoError>, calls: seq<Call>)

  /** The answer the driver gives to each call (`answer`); the drivers are modelled elsewhere. */
  type Answers = Call -> Result<(), IoError>

  /** The three calls every driver ends with, in order. */
  function Configure(bitrate: u32): seq<Call>
  {
    [SetBitrate(bitrate), EnableTimestamp, OpenChannel]
  }

  /**
   * `set_bitrate(b)?; enable_timestamp()?; open_channel()?`: the calls are made in that
   * order and the first failure stops the rest and is the outcome.
   */
  function Start(bitrate: u32, answer: Answers): (s: Bringup)
    ensures 1 <= |s.calls| <= 3 && s.calls == Configure(bitrate)[..|s.calls|]
    ensures forall k :: 0 <= k < |s.calls| - 1 ==> answer(s.calls[k]).Ok?
    ensures s.result.Ok? <==> s.calls == Configure(bitrate) && answer(OpenChannel).Ok?
    ensures s.result.Err? ==> s.result == answer(s.calls[|s.calls| - 1])
  {
    var setting := answer(SetBitrate(bitrate));
    if setting.Err? then Bringup(setting, [SetBitrate(bitrate)])
    else
      var enable := answer(EnableTimestamp);
      if enable.Err? then Bringup(enable, [SetBitrate(bitrate), EnableTimestamp])
      else Bringup(answer(OpenChannel), Configure(bitrate))
  }

  /** `calls` then the start sequence. */
  function After(calls: seq<Call>, s: Bringup): Bringup
  {
    Bringup(s.result, calls + s.calls)
  }

  /**
   * `init_pcan` from the channel choice (`chosen`, see `PcanChannel`) on: close the channel
   * ignoring the answer, insist on `-b`, then the start sequence.
   */
  function InitPcan(chosen: Result<string, IoError>, bitrate: Option<u32>, answer: Answers): (s: Bringup)
    ensures chosen.Err? ==> s == Bringup(Err(chosen.error), [])
    ensures chosen.Ok? ==> |s.calls| >= 1 && s.calls[0] == CloseChannel
    ensures bitrate.None? ==> s.result.Err? && OpenChannel !in s.calls
    ensures s.result.Ok? <==> chosen.Ok? && bitrate.Some? && Start(bitrate.value, answer).result.Ok?
    ensures s.result.Ok? ==> |s.calls| >= 3 && s.calls[|s.calls| - 1] == OpenChannel
  {
    match chosen
    case Err(e) => Bringup(Err(e), [])
    case Ok(_) =>
      match ExplicitBitrate(bitrate, PCAN_NO_BITRATE)
      case Err(e) => Bringup(Err(e), [CloseChannel])
      case Ok(b) => After([CloseChannel], Start(b, answer))
  }

  /**
   * `init_slcan` from the port choice (`port`, see `SlcanPort`) on: close the port (a failure
   * stops), read the firmware version (a failure stops with its own text), choose the
   * bitrate, then the start sequence.
   */
  function InitSlcan(port: Result<string, IoError>, bitrate: Option<u32>, version: Result<string, IoError>,
                     measured: Result<u32, IoError>, answer: Answers): (s: Bringup)
    ensures port.Err? ==> s == Bringup(Err(port.error), [])
    ensures port.Ok? ==> |s.calls| >= 1 && s.calls[0] == CloseChannel
    ensures port.Ok? && answer(CloseChannel).Ok? && version.Err? ==>
              s == Bringup(Err(IoError(Other, "Failed to get version")), [CloseChannel, GetVersion])
    ensures MeasureBitrate in s.calls ==> bitrate.None? && version.Ok? && IsCyderFirmware(version.value)
    ensures s.result.Ok? ==>
              && port.Ok? && answer(CloseChannel).Ok? && version.Ok?
              && SlcanBitrate(bitrate, version.value, measured).Ok?
              && |s.calls| >= 3 && s.calls[|s.calls| - 1] == OpenChannel
  {
    match port
    case Err(e) => Bringup(Err(e), [])
    case Ok(_) =>
      var close := answer(CloseChannel);
      if close.Err? then Bringup(close, [CloseChannel])
      else match version
        case Err(_) => Bringup(Err(IoError(Other, "Failed to get version")), [CloseChannel, GetVersion])
        case Ok(v) =>
          var asked := if bitrate.None? && IsCyderFirmware(v) then [MeasureBitrate] else [];
          match SlcanBitrate(bitrate, v, measured)
          case Err(e) => Bringup(Err(e), [CloseChannel, GetVersion] + asked)
          case Ok(b) => After([CloseChannel, GetVersion] + asked, Start(b, answer))
  }

  /** `init_gsusb`: open (a failure stops), close (a failure stops), insist on `-b`, then the start sequence. */
  function InitGsUsb(openResult: Result<(), IoError>, bitrate: Option<u32>, answer: Answers): (s: Bringup)
    ensures openResult.Err? ==> s == Bringup(openResult, [])
    ensures openResult.Ok? ==> |s.calls| >= 1 && s.calls[0] == CloseChannel
    ensures bitrate.None? ==> s.result.Err? && OpenChannel !in s.calls
    ensures s.result.Ok? <==>
              openResult.Ok? && answer(CloseChannel).Ok? && bitrate.Some? && Start(bitrate.value, answer).result.Ok?
    ensures s.result.Ok? ==> |s.calls| >= 3 && s.calls[|s.calls| - 1] == OpenChannel
  {
    if openResult.Err? then Bringup(openResult, [])
    else
      var close := answer(CloseChannel);
      if close.Err? then Bringup(close, [CloseChannel])
      else match ExplicitBitrate(bitrate, GSUSB_NO_BITRATE)
        case Err(e) => Bringup(Err(e), [CloseChannel])
        case Ok(b) => After([CloseChannel], Start(b, answer))
  }

  /** The command line the server reads: driver name, channel (default `auto`), optional `-b`. */
  datatype Cli = Cli(driver: string, channel: string, bitrate: Option<u32>)

  /** What the outside world answers during bring-up. */
  datatype World = World(
    answer: Answers,
    serialPorts: Result<seq<string>, string>,
    slcanProbe: string -> bool,
    slcanOpens: string -> bool,
    slcanVersion: Result<string, IoError>,
    slcanMeasured: Result<u32, IoError>,
    gsUsbOpened: Result<(), IoError>)

  /** `initialize_driver`: dispatch on the driver name, then that driver's bring-up. */
  function InitializeDriver(cli: Cli, w: World): (s: Bringup)
    ensures SelectDriver(cli.driver).Err? ==> s == Bringup(Err(SelectDriver(cli.driver).error), [])
    ensures s.result.Ok? ==> SelectDriver(cli.driver).Ok? && |s.calls| >= 3 && s.calls[|s.calls| - 1] == OpenChannel
  {
    match SelectDriver(cli.driver)
    case Err(e) => Bringup(Err(e), [])
    case Ok(SlcanKind) =>
      InitSlcan(SlcanPort(cli.channel, w.serialPorts, w.slcanProbe, w.slcanOpens),
                cli.bitrate, w.slcanVersion, w.slcanMeasured, w.answer)
    case Ok(PcanKind) => InitPcan(PcanChannel(cli.channel), cli.bitrate, w.answer)
    case Ok(GsUsbKind) => InitGsUsb(w.gsUsbOpened, cli.bitrate, w.answer)
  }

  /** The channel is opened only as the very last call, right after the bitrate and the timestamps. */
  predicate OpensLast(calls: seq<Call>)
  {
    forall k :: 0 <= k < |calls| && calls[k] == OpenChannel ==>
      k == |calls| - 1 && k >= 2 && calls[k - 2].SetBitrate? && calls[k - 1] == EnableTimestamp
  }

  /** A bring-up that succeeded made the start sequence last, with the `-b` bitrate when one was given. */
  predicate StartedLast(s: Bringup, bitrate: Option<u32>)
  {
    s.result.Ok? ==>
      && |s.calls| >= 3
      && s.calls[|s.calls| - 1] == OpenChannel
      && s.calls[|s.calls| - 2] == EnableTimestamp
      && s.calls[|s.calls| - 3].SetBitrate?
      && (bitrate.Some? ==> s.calls[|s.calls| - 3] == SetBitrate(bitrate.value))
  }

  /** The start sequence, behind calls that never open the channel, opens it last. */
  lemma StartOpensLast(before: seq<Call>, bitrate: u32, answer: Answers)
    requires OpenChannel !in before
    ensures OpensLast(After(before, Start(bitrate, answer)).calls)
    ensures StartedLast(After(before, Start(bitrate, answer)), Some(bitrate))
  {
    var s := Start(bitrate, answer);
    var calls := before + s.calls;
    forall k | 0 <= k < |calls| && calls[k] == OpenChannel
      ensures k == |calls| - 1 && k >= 2 && calls[k - 2].SetBitrate? && calls[k - 1] == EnableTimestamp
    {
      assert k >= |before|;
      assert s.calls[k - |before|] == OpenChannel;
    }
  }

  /** `init_pcan` opens the channel last, after its `-b` bitrate. */
  lemma PcanOrder(chosen: Result<string, IoError>, bitrate: Option<u32>, answer: Answers)
    ensures OpensLast(InitPcan(chosen, bitrate, answer).calls)
    ensures StartedLast(InitPcan(chosen, bitrate, answer), bitrate)
  {
    if chosen.Ok? && bitrate.Some? {
      StartOpensLast([CloseChannel], bitrate.value, answer);
    }
  }

  /** `init_gsusb` opens the channel last, after its `-b` bitrate. */
  lemma GsUsbOrder(openResult: Result<(), IoError>, bitrate: Option<u32>, answer: Answers)
    ensures OpensLast(InitGsUsb(openResult, bitrate, answer).calls)
    ensures StartedLast(InitGsUsb(openResult, bitrate, answer), bitrate)
  {
    if openResult.Ok? && answer(CloseChannel).Ok? && bitrate.Some? {
      StartOpensLast([CloseChannel], bitrate.value, answer);
    }
  }

  /** `init_slcan` opens the channel last, after the chosen bitrate. */
  lemma SlcanOrder(port: Result<string, IoError>, bitrate: Option<u32>, version: Result<string, IoError>,
                   measured: Result<u32, IoError>, answer: Answers)
    ensures OpensLast(InitSlcan(port, bitrate, version, measured, answer).calls)
    ensures StartedLast(InitSlcan(port, bitrate, version, measured, answer), bitrate)
  {
    if port.Ok? && answer(CloseChannel).Ok? && version.Ok? {
      var v := version.value;
      var asked: seq<Call> := if bitrate.None? && IsCyderFirmware(v) then [MeasureBitrate] else [];
      var r := SlcanBitrate(bitrate, v, measured);
      if r.Ok? {
        StartOpensLast([CloseChannel, GetVersion] + asked, r.value, answer);
      }
    }
  }

  /**
   * Whatever the driver and the answers: the channel is opened only as the last call,
   * just after a bitrate was set and timestamps enabled; and a bring-up that succeeds
   * made exactly those three calls last, with the `-b` bitrate when one was given.
   */
  lemma BitrateBeforeOpen(cli: Cli, w: World)
    ensures OpensLast(InitializeDriver(cli, w).calls)
    ensures StartedLast(InitializeDriver(cli, w), cli.bitrate)
  {
    match SelectDriver(cli.driver)
    case Err(_) =>
    case Ok(SlcanKind) =>
      SlcanOrder(SlcanPort(cli.channel, w.serialPorts, w.slcanProbe, w.slcanOpens),
                 cli.bitrate, w.slcanVersion, w.slcanMeasured, w.answer);
    case Ok(PcanKind) =>
      PcanOrder(PcanChannel(cli.channel), cli.bitrate, w.answer);
    case Ok(GsUsbKind) =>
      GsUsbOrder(w.gsUsbOpened, cli.bitrate, w.answer);
  }

  /**
   * pcan and gs_usb come up only with `-b`; slcan comes up without it only on
   * Cyder-Canable firmware whose measured bitrate could be read, and that is the rate set.
   */
  lemma BitrateSources(cli: Cli, w: World)
    ensures var s := InitializeDriver(cli, w);
            s.result.Ok? && SelectDriver(cli.driver) != Ok(SlcanKind) ==> cli.bitrate.Some?
    ensures var s := InitializeDriver(cli, w);
            s.result.Ok? && SelectDriver(cli.driver) == Ok(SlcanKind) && cli.bitrate.None? ==>
              && w.slcanVersion.Ok? && IsCyderFirmware(w.slcanVersion.value)
              && w.slcanMeasured.Ok? && SetBitrate(w.slcanMeasured.value) in s.calls
  {
    var s := InitializeDriver(cli, w);
    if s.result.Ok? && SelectDriver(cli.driver) == Ok(SlcanKind) && cli.bitrate.None? {
      var v := w.slcanVersion.value;
      var b := SlcanBitrate(cli.bitrate, v, w.slcanMeasured).value;
      var asked: seq<Call> := if IsCyderFirmware(v) then [MeasureBitrate] else [];
      var st := Start(b, w.answer);
      assert s.calls == [CloseChannel, GetVersion] + asked + st.calls;
      assert st.calls[0] == SetBitrate(b);
      assert s.calls[2 + |asked|] == SetBitrate(b);
    }
  }

  /** A PCAN bring-up ignores how closing the channel went. */
  lemma PcanIgnoresClose(chosen: Result<string, IoError>, bitrate: Option<u32>, a1: Answers, a2: Answers)
    requires forall c :: c != CloseChannel ==> a1(c) == a2(c)
    ensures InitPcan(chosen, bitrate, a1) == InitPcan(chosen, bitrate, a2)
  {
    if bitrate.Some? {
      assert a1(SetBitrate(bitrate.value)) == a2(SetBitrate(bitrate.value));
      assert a1(EnableTimestamp) == a2(EnableTimestamp);
      assert a1(OpenChannel) == a2(OpenChannel);
    }
  }

  // ---------------------------------------------------------------- outbound framing

  /** A length byte can count at most this many payload bytes. */
  const MAX_PAYLOAD: nat := 255

  /** One outbound message: the payload length as one byte, then the payload. */
  function Frame(payload: seq<byte>): (msg: seq<byte>)
    requires |payload| <= MAX_PAYLOAD
  {
    [|payload| as byte] + payload
  }

  /** The reading side: a length byte, then exactly that many payload bytes. */
  function Unframe(msg: seq<byte>): (r: Option<seq<byte>>)
    ensures r.Some? ==> |r.value| <= MAX_PAYLOAD
  {
    if |msg| >= 1 && |msg| == 1 + msg[0] as nat then Some(msg[1..]) else None
  }

  /** Framing is undone by unframing, and a message that unframes is the framing of its payload. */
  lemma FrameUnframe(payload: seq<byte>, msg: seq<byte>)
    requires |payload| <= MAX_PAYLOAD
    ensures Unframe(Frame(payload)) == Some(payload)
    ensures Unframe(msg) == Some(payload) ==> Frame(payload) == msg
  {
    assert Frame(payload)[1..] == payload;
    if Unframe(msg) == Some(payload) {
      assert msg == [msg[0]] + msg[1..];
    }
  }

  /** The serializer (`encode`) is a parameter; its output for one frame, when it gives one. */
  type Encoder = CanFrame -> Option<seq<byte>>

  /** The payloads that are sent, in frame order: encodable and at most 255 bytes, never cut. */
  function Sent(frames: seq<CanFrame>, encode: Encoder): (r: seq<seq<byte>>)
    ensures forall k :: 0 <= k < |r| ==> |r[k]| <= MAX_PAYLOAD
    ensures |r| <= |frames|
  {
    if |frames| == 0 then []
    else
      var last := frames[|frames| - 1];
      var kept := if encode(last).Some? && |encode(last).value| <= MAX_PAYLOAD then [encode(last).value] else [];
      Sent(frames[..|frames| - 1], encode) + kept
  }

  /** The messages for `frames`: each sent payload framed. */
  function Messages(payloads: seq<seq<byte>>): (r: seq<seq<byte>>)
    requires forall k :: 0 <= k < |payloads| ==> |payloads[k]| <= MAX_PAYLOAD
    ensures |r| == |payloads|
  {
    seq(|payloads|, k requires 0 <= k < |payloads| => Frame(payloads[k]))
  }

  /**
   * One batch of `forward_can_to_pipe`: for each frame, serialize it, skip it when that
   * fails or gives more than 255 bytes, else queue the length byte followed by the bytes.
   */
  method ForwardBatch(frames: seq<CanFrame>, encode: Encoder) returns (msgs: seq<seq<byte>>)
    ensures msgs == Messages(Sent(frames, encode))
  {
    msgs := [];
    var i := 0;
    while i < |frames|
      invariant i <= |frames|
      invariant msgs == Messages(Sent(frames[..i], encode))
    {
      var data := encode(frames[i]);
      assert frames[..i + 1][..i] == frames[..i];
      if data.Some? && |data.value| <= MAX_PAYLOAD {
        var msg := [|data.value| as byte] + data.value;
        msgs := msgs + [msg];
      }
      i := i + 1;
    }
    assert frames[..i] == frames;
  }

  /** Every queued message unframes, and reading them all back gives the sent payloads in order. */
  lemma MessagesUnframe(payloads: seq<seq<byte>>)
    requires forall k :: 0 <= k < |payloads| ==> |payloads[k]| <= MAX_PAYLOAD
    ensures forall k :: 0 <= k < |payloads| ==>
              Unframe(Messages(payloads)[k]) == Some(payloads[k])
              && Messages(payloads)[k][0] as nat == |payloads[k]|
  {
    forall k | 0 <= k < |payloads|
      ensures Unframe(Messages(payloads)[k]) == Some(payloads[k])
    {
      FrameUnframe(payloads[k], []);
    }
  }

  /** Sending a batch is sending its parts one after the other. */
  lemma {:induction false} SentAppend(a: seq<CanFrame>, b: seq<CanFrame>, encode: Encoder)
    ensures Sent(a + b, encode) == Sent(a, encode) + Sent(b, encode)
    decreases |b|
  {
    if |b| == 0 {
      assert a + b == a;
    } else {
      var front := b[..|b| - 1];
      assert (a + b)[..|a + b| - 1] == a + front;
      assert (a + b)[|a + b| - 1] == b[|b| - 1];
      SentAppend(a, front, encode);
    }
  }

  /** A frame whose serialization is over 255 bytes is dropped whole: nothing of it is sent. */
  lemma OversizeDropped(a: seq<CanFrame>, f: CanFrame, b: seq<CanFrame>, encode: Encoder)
    requires encode(f).None? || |encode(f).value| > MAX_PAYLOAD
    ensures Sent(a + [f] + b, encode) == Sent(a, encode) + Sent(b, encode)
  {
    SentOne(f, encode);
    SentAppend(a, [f], encode);
    assert Sent(a + [f], encode) == Sent(a, encode);
    SentAppend(a + [f], b, encode);
  }

  /** One frame is sent whole or not at all. */
  lemma SentOne(f: CanFrame, encode: Encoder)
    ensures Sent([f], encode) == if encode(f).Some? && |encode(f).value| <= MAX_PAYLOAD then [encode(f).value] else []
  {
    assert [f][..0] == [];
  }

  /** The messages of a run of batches up to the first failed read (`batches[i..]`). */
  function Outbound(batches: seq<Result<seq<CanFrame>, IoError>>, i: nat, encode: Encoder): seq<seq<byte>>
    requires i <= |batches|
    decreases |batches| - i
  {
    if i == |batches| || batches[i].Err? then []
    else Messages(Sent(batches[i].value, encode)) + Outbound(batches, i + 1, encode)
  }

  /**
   * `forward_can_to_pipe`: read a batch, forward it, and stop at the first failed read.
   * `batches` are the driver's answers to successive reads; the source keeps reading for
   * ever, the model stops when they run out, with `failed` false.
   */
  method ForwardCanToPipe(batches: seq<Result<seq<CanFrame>, IoError>>, encode: Encoder)
    returns (msgs: seq<seq<byte>>, failed: bool)
    ensures msgs == Outbound(batches, 0, encode)
    ensures failed <==> exists k :: 0 <= k < |batches| && batches[k].Err?
  {
    msgs := [];
    var i := 0;
    while i < |batches|
      invariant i <= |batches|
      invariant Outbound(batches, 0, encode) == msgs + Outbound(batches, i, encode)
      invariant forall k :: 0 <= k < i ==> batches[k].Ok?
    {
      if batches[i].Err? {
        assert Outbound(batches, i, encode) == [];
        assert msgs + [] == msgs;
        return msgs, true;
      }
      var batch := ForwardBatch(batches[i].value, encode);
      AppendAssoc(msgs, batch, Outbound(batches, i + 1, encode));
      msgs := msgs + batch;
      i := i + 1;
    }
    assert msgs + [] == msgs;
    failed := false;
  }

  // ---------------------------------------------------------------- inbound

  /** The deserializer (`decode`) is a parameter. */
  type Decoder = seq<byte> -> Option<CanFrame>

  /** The frames handed to the driver: the chunks that decode, in order. */
  function Decoded(chunks: seq<seq<byte>>, decode: Decoder): (r: seq<CanFrame>)
    ensures |r| <= |chunks|
  {
    if |chunks| == 0 then []
    else
      var last := chunks[|chunks| - 1];
      Decoded(chunks[..|chunks| - 1], decode) + (if decode(last).Some? then [decode(last).value] else [])
  }

  /** How many of `frames` the driver refuses to send. */
  function FailedSends(frames: seq<CanFrame>, send: CanFrame -> Result<(), IoError>): (n: nat)
    ensures n <= |frames|
    ensures n == 0 <==> forall k :: 0 <= k < |frames| ==> send(frames[k]).Ok?
  {
    if |frames| == 0 then 0
    else FailedSends(frames[..|frames| - 1], send) + (if send(frames[|frames| - 1]).Err? then 1 else 0)
  }

  /** Sending one more frame adds one to the count exactly when that send is refused. */
  lemma FailedSendsSnoc(frames: seq<CanFrame>, f: CanFrame, send: CanFrame -> Result<(), IoError>)
    ensures FailedSends(frames + [f], send) == FailedSends(frames, send) + (if send(f).Err? then 1 else 0)
  {
    assert (frames + [f])[..|frames|] == frames;
  }

  /**
   * `forward_pipe_to_can`: decode each chunk from the inbound pipe; a chunk that does not
   * decode is dropped; each frame is sent, and a failed send is only logged (`send` stands
   * for the driver's answers), so every decoded frame is attempted, in order.
   */
  method ForwardPipeToCan(chunks: seq<seq<byte>>, decode: Decoder, send: CanFrame -> Result<(), IoError>)
    returns (attempted: seq<CanFrame>, failures: nat)
    ensures attempted == Decoded(chunks, decode)
    ensures failures == FailedSends(attempted, send)
  {
    attempted := [];
    failures := 0;
    var i := 0;
    while i < |chunks|
      invariant i <= |chunks|
      invariant attempted == Decoded(chunks[..i], decode)
      invariant failures == FailedSends(attempted, send)
    {
      assert chunks[..i + 1][..i] == chunks[..i];
      var frame := decode(chunks[i]);
      if frame.Some? {
        FailedSendsSnoc(attempted, frame.value, send);
        attempted := attempted + [frame.value];
        if send(frame.value).Err? {
          failures := failures + 1;
        }
      }
      i := i + 1;
    }
    assert chunks[..i] == chunks;
  }

  /** Decoding a stream is decoding its parts one after the other. */
  lemma {:induction false} DecodedAppend(a: seq<seq<byte>>, b: seq<seq<byte>>, decode: Decoder)
    ensures Decoded(a + b, decode) == Decoded(a, decode) + Decoded(b, decode)
    decreases |b|
  {
    if |b| == 0 {
      assert a + b == a;
    } else {
      var front := b[..|b| - 1];
      assert (a + b)[..|a + b| - 1] == a + front;
      assert (a + b)[|a + b| - 1] == b[|b| - 1];
      DecodedAppend(a, front, decode);
    }
  }

  /** One chunk decodes to its frame or to nothing. */
  lemma DecodedOne(c: seq<byte>, decode: Decoder)
    ensures Decoded([c], decode) == if decode(c).Some? then [decode(c).value] else []
  {
    assert [c][..0] == [];
  }

  /** A chunk that does not decode is dropped without disturbing the frames around it. */
  lemma GarbageDropped(a: seq<seq<byte>>, bad: seq<byte>, b: seq<seq<byte>>, decode: Decoder)
    requires decode(bad).None?
    ensures Decoded(a + [bad] + b, decode) == Decoded(a, decode) + Decoded(b, decode)
  {
    DecodedOne(bad, decode);
    DecodedAppend(a, [bad], decode);
    assert Decoded(a + [bad], decode) == Decoded(a, decode);
    DecodedAppend(a + [bad], b, decode);
  }

  /** What the outbound side sends, the inbound side of a peer reads back frame for frame. */
  lemma {:induction false} DecodedSent(frames: seq<CanFrame>, encode: Encoder, decode: Decoder)
    requires forall f :: encode(f).Some? ==> decode(encode(f).value) == Some(f)
    requires forall k :: 0 <= k < |frames| ==> encode(frames[k]).Some? && |encode(frames[k]).value| <= MAX_PAYLOAD
    ensures Decoded(Sent(frames, encode), decode) == frames
    decreases |frames|
  {
    if |frames| > 0 {
      var front := frames[..|frames| - 1];
      var last := frames[|frames| - 1];
      var payload := encode(last).value;
      assert Sent(frames, encode) == Sent(front, encode) + [payload];
      DecodedSent(front, encode, decode);
      DecodedOne(payload, decode);
      DecodedAppend(Sent(front, encode), [payload], decode);
      assert frames == front + [last];
    }
  }
}
