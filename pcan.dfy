/**
 * The PCAN-Basic driver (`PcanDriver`): the channel-name parser, the bitrate table, the
 * message packing of `send_frame` and the receive loop of `read_frames`. The PCAN-Basic
 * library itself is not part of this model: each call's status code arrives as a parameter,
 * and the arguments a call receives are returned, so that the contracts can state them.
 * The numeric values of the handles, baud-rate codes, message types and status codes are
 * those of the PCAN-Basic API header (PCANBasic.h), which is not part of this model either.
 */
module Pcan {
  import opened Wrappers
  import opened Bytes
  import opened CanFrames
  import opened Text

  // ---------------------------------------------------------------- PCAN-Basic values

  /** `PCAN_USBBUS1`..`8` are 0x51..0x58; `PCAN_USBBUS9`..`16` are 0x509..0x510. */
  const USBBUS1: u16 := 0x51
  const USBBUS9: u16 := 0x509
  /** `PCAN_PCIBUS1`..`8` are 0x41..0x48; `PCAN_PCIBUS9`..`16` are 0x409..0x410. */
  const PCIBUS1: u16 := 0x41
  const PCIBUS9: u16 := 0x409
  /** `PCAN_LANBUS1`..`16` are 0x801..0x810. */
  const LANBUS1: u16 := 0x801

  const MESSAGE_STANDARD: byte := 0x00
  const MESSAGE_EXTENDED: byte := 0x02

  const ERROR_OK: u32 := 0x00000
  const ERROR_QRCVEMPTY: u32 := 0x00020

  // ---------------------------------------------------------------- channel names

  /** The three plug-and-play bus kinds a channel name may name. */
  datatype Bus = Usb | Pci | Lan

  function BusPrefix(bus: Bus): string
  {
    match bus
    case Usb => "USBBUS"
    case Pci => "PCIBUS"
    case Lan => "LANBUS"
  }

  /** The handle of channel 1 of a bus. */
  function BusBase(bus: Bus): u16
  {
    match bus
    case Usb => USBBUS1
    case Pci => PCIBUS1
    case Lan => LANBUS1
  }

  /** The PCAN-Basic handle of channel `n` (1 to 16) of a bus. */
  function ChannelHandle(bus: Bus, n: nat): u16
    requires 1 <= n <= 16
  {
    match bus
    case Usb => if n <= 8 then USBBUS1 + n - 1 else USBBUS9 + n - 9
    case Pci => if n <= 8 then PCIBUS1 + n - 1 else PCIBUS9 + n - 9
    case Lan => LANBUS1 + n - 1
  }

  /** The handle `parse_channel` computes, `base + (n - 1)` from channel 1's handle. */
  function ChannelHandleAsWritten(bus: Bus, n: nat): u16
    requires 1 <= n <= 16
  {
    BusBase(bus) + n - 1
  }

  /** The trimmed, upper-cased name with one leading `PCAN_` removed. */
  function ChannelText(s: string): string
  {
    var t := ToAsciiUpper(Trim(s));
    match StripPrefix(t, "PCAN_")
    case Some(rest) => rest
    case None => t
  }

  /** The `take_idx` closure: the number after `prefix`, read as a `usize`. */
  function TakeIndex(t: string, prefix: string): Option<nat>
  {
    match StripPrefix(t, prefix)
    case None => None
    case Some(n) => ParseUsize(n)
  }

  predicate InRange(i: Option<nat>)
  {
    i.Some? && 1 <= i.value <= 16
  }

  /**
   * The bus and channel number a name selects: USBBUS, then PCIBUS, then LANBUS, the
   * first whose number is between 1 and 16. A prefix with a number out of range falls
   * through to the next test.
   */
  function ChannelIndex(s: string): (r: Option<(Bus, nat)>)
    ensures var t := ChannelText(s);
      && (r.Some? ==> 1 <= r.value.1 <= 16 && TakeIndex(t, BusPrefix(r.value.0)) == Some(r.value.1))
      && (r.None? <==> !InRange(TakeIndex(t, "USBBUS")) && !InRange(TakeIndex(t, "PCIBUS")) && !InRange(TakeIndex(t, "LANBUS")))
  {
    var t := ChannelText(s);
    if InRange(TakeIndex(t, "USBBUS")) then Some((Usb, TakeIndex(t, "USBBUS").value))
    else if InRange(TakeIndex(t, "PCIBUS")) then Some((Pci, TakeIndex(t, "PCIBUS").value))
    else if InRange(TakeIndex(t, "LANBUS")) then Some((Lan, TakeIndex(t, "LANBUS").value))
    else None
  }

  /** The handles PCAN-Basic gives the sixteen USB, PCI and LAN channels. */
  predicate PlugAndPlayHandle(h: u16)
  {
    || USBBUS1 <= h < USBBUS1 + 8 || USBBUS9 <= h < USBBUS9 + 8
    || PCIBUS1 <= h < PCIBUS1 + 8 || PCIBUS9 <= h < PCIBUS9 + 8
    || LANBUS1 <= h < LANBUS1 + 16
  }

  /** `parse_channel` as written: `base + (n - 1)` for every channel number. */
  function ParseChannelAsWritten(s: string): (r: Option<u16>)
    ensures r.Some? <==> ChannelIndex(s).Some?
    ensures r.Some? ==> (r == ParseChannel(s) <==> ChannelIndex(s).value.1 <= 8 || ChannelIndex(s).value.0 == Lan)
  {
    var index := ChannelIndex(s);
    if index.None? then None
    else
      var bus, n := index.value.0, index.value.1;
      AsWrittenHandleAgreesIff(bus, n);
      assert ParseChannel(s) == Some(ChannelHandle(bus, n));
      Some(ChannelHandleAsWritten(bus, n))
  }

  /** `parse_channel` with the PCAN-Basic handle of the channel it names. */
  function ParseChannel(s: string): (r: Option<u16>)
    ensures r.Some? <==> ChannelIndex(s).Some?
    ensures r.Some? ==> PlugAndPlayHandle(r.value)
  {
    match ChannelIndex(s)
    case None => None
    case Some((bus, n)) => Some(ChannelHandle(bus, n))
  }

  /** Distinct channels have distinct handles. */
  lemma ChannelHandleInjective(b1: Bus, n1: nat, b2: Bus, n2: nat)
    requires 1 <= n1 <= 16 && 1 <= n2 <= 16
    ensures ChannelHandle(b1, n1) == ChannelHandle(b2, n2) <==> b1 == b2 && n1 == n2
  {
  }

  /** The as-written handle is right for channels 1 to 8 and for LAN, and wrong otherwise. */
  lemma AsWrittenHandleAgreesIff(bus: Bus, n: nat)
    requires 1 <= n <= 16
    ensures ChannelHandleAsWritten(bus, n) == ChannelHandle(bus, n) <==> n <= 8 || bus == Lan
  {
  }

  /** Upper-case letters and digits are left alone by `to_ascii_uppercase`. */
  lemma UpperUnchanged(s: string)
    requires forall i :: 0 <= i < |s| ==> !('a' <= s[i] <= 'z')
    ensures ToAsciiUpper(s) == s
  {
  }

  /** A canonical channel name: optional `PCAN_`, the bus prefix, the decimal channel number. */
  function CanonicalName(bus: Bus, n: nat, pcan: bool): string
  {
    (if pcan then "PCAN_" else "") + BusPrefix(bus) + Digits(n, 10, true)
  }

  lemma DecimalDigitsChars(n: nat)
    ensures forall i :: 0 <= i < |Digits(n, 10, true)| ==> '0' <= Digits(n, 10, true)[i] <= '9'
  {
    var d := Digits(n, 10, true);
    DigitsValue(n, 10, true);
    forall i | 0 <= i < |d|
      ensures '0' <= d[i] <= '9'
    {
      assert IsDigitOf(d[i], 10);
    }
  }

  /** A canonical name has no lower-case letter and no whitespace at either end. */
  lemma CanonicalNameChars(bus: Bus, n: nat, pcan: bool)
    ensures var name := CanonicalName(bus, n, pcan);
      && |name| > 0 && !IsWhitespace(name[0]) && !IsWhitespace(name[|name| - 1])
      && forall i :: 0 <= i < |name| ==> !('a' <= name[i] <= 'z')
  {
    var digits := Digits(n, 10, true);
    var head := (if pcan then "PCAN_" else "") + BusPrefix(bus);
    var name := CanonicalName(bus, n, pcan);
    assert name == head + digits;
    DecimalDigitsChars(n);
    forall i | 0 <= i < |name|
      ensures !('a' <= name[i] <= 'z')
    {
      if i >= |head| {
        assert name[i] == digits[i - |head|];
      } else {
        assert name[i] == head[i];
      }
    }
    assert name[|name| - 1] == digits[|digits| - 1];
    assert name[0] == head[0];
  }

  /** Normalising a canonical name leaves the bus prefix and the number. */
  lemma CanonicalText(bus: Bus, n: nat, pcan: bool)
    ensures ChannelText(CanonicalName(bus, n, pcan)) == BusPrefix(bus) + Digits(n, 10, true)
  {
    PrefixShape(bus);
    CanonicalNameChars(bus, n, pcan);
    NormalisedName(BusPrefix(bus), Digits(n, 10, true), pcan, CanonicalName(bus, n, pcan));
  }

  /**
   * A name already trimmed and upper-case, `PCAN_` or nothing, then a prefix that cannot
   * start a second `PCAN_`, then the rest: normalising it leaves the prefix and the rest.
   */
  lemma NormalisedName(prefix: string, rest: string, pcan: bool, name: string)
    requires name == (if pcan then "PCAN_" else "") + prefix + rest
    requires |prefix| > 2 && prefix[2] != 'A'
    requires |name| > 0 && !IsWhitespace(name[0]) && !IsWhitespace(name[|name| - 1])
    requires forall i :: 0 <= i < |name| ==> !('a' <= name[i] <= 'z')
    ensures ChannelText(name) == prefix + rest
  {
    var body := prefix + rest;
    TrimUntouched(name);
    UpperUnchanged(name);
    if pcan {
      AppendAssoc("PCAN_", prefix, rest);
    } else {
      assert name == body;
    }
    StripOnce(name, body, pcan);
  }

  /** Every bus prefix is six letters, none of which starts `PCAN_` at its third. */
  lemma PrefixShape(bus: Bus)
    ensures |BusPrefix(bus)| == 6 && BusPrefix(bus)[2] != 'A'
  {
  }

  /** A normalised name loses its one `PCAN_` and nothing else, when what follows cannot start another. */
  lemma StripOnce(name: string, body: string, pcan: bool)
    requires ToAsciiUpper(Trim(name)) == name
    requires pcan ==> name == "PCAN_" + body
    requires !pcan ==> name == body
    requires |body| > 2 && body[2] != 'A'
    ensures ChannelText(name) == body
  {
    if pcan {
      assert name[..5] == "PCAN_" && name[5..] == body;
    } else {
      NotPrefixAt(name, "PCAN_", 2);
    }
  }

  /** `TakeIndex` reads a channel number written in decimal after its own prefix only. */
  lemma TakeIndexOfCanonical(bus: Bus, other: Bus, n: nat)
    requires n <= 0xFFFF_FFFF_FFFF_FFFF
    ensures TakeIndex(BusPrefix(bus) + Digits(n, 10, true), BusPrefix(other)) ==
      if other == bus then Some(n) else None
  {
    var t := BusPrefix(bus) + Digits(n, 10, true);
    if other == bus {
      assert t[..6] == BusPrefix(bus);
      assert t[6..] == Digits(n, 10, true);
      ParseFormat(n, 10, true, 0, 0xFFFF_FFFF_FFFF_FFFF);
    } else {
      assert t[0] == BusPrefix(bus)[0];
    }
  }

  /** A canonical name selects its own bus and number. */
  lemma ChannelIndexOfCanonical(bus: Bus, n: nat, pcan: bool)
    requires 1 <= n <= 16
    ensures ChannelIndex(CanonicalName(bus, n, pcan)) == Some((bus, n))
  {
    CanonicalText(bus, n, pcan);
    TakeIndexOfCanonical(bus, Usb, n);
    TakeIndexOfCanonical(bus, Pci, n);
    TakeIndexOfCanonical(bus, Lan, n);
  }

  /** Naming a channel as `USBBUS3`, `PCAN_LANBUS12`, ... selects its PCAN-Basic handle. */
  lemma ParseCanonicalChannel(bus: Bus, n: nat, pcan: bool)
    requires 1 <= n <= 16
    ensures ParseChannel(CanonicalName(bus, n, pcan)) == Some(ChannelHandle(bus, n))
    ensures ParseChannelAsWritten(CanonicalName(bus, n, pcan)) == Some(ChannelHandleAsWritten(bus, n))
  {
    ChannelIndexOfCanonical(bus, n, pcan);
  }

  /** `USBBUS9` is handle 0x509 in PCAN-Basic; `parse_channel` as written gives 0x59. */
  lemma AsWrittenMisnamesUsbBus9()
    ensures ParseChannelAsWritten("USBBUS9") == Some(0x59)
    ensures ParseChannel("USBBUS9") == Some(0x509)
  {
    assert CanonicalName(Usb, 9, false) == "USBBUS9";
    ParseCanonicalChannel(Usb, 9, false);
  }

  // ---------------------------------------------------------------- bitrates

  /** The rates `map_bitrate_to_const` knows, in its order. */
  const PCAN_BITRATES: seq<u32> :=
    [5_000, 10_000, 20_000, 33_333, 47_619, 50_000, 83_333, 95_238, 100_000, 125_000,
     250_000, 500_000, 800_000, 1_000_000]

  /** `PCAN_BAUD_5K` .. `PCAN_BAUD_1M`, the BTR0/BTR1 codes of the rates above. */
  const BAUD_CODES: seq<u16> :=
    [0x7F7F, 0x672F, 0x532F, 0x8B2F, 0x1414, 0x472F, 0x852B, 0xC34E, 0x432F, 0x031C,
     0x011C, 0x001C, 0x0016, 0x0014]

  /** `map_bitrate_to_const`: the baud-rate code of a supported rate, none for any other. */
  function BaudCode(bps: u32): (r: Option<u16>)
    ensures r.Some? <==> bps in PCAN_BITRATES
    ensures forall i :: 0 <= i < |PCAN_BITRATES| && PCAN_BITRATES[i] == bps ==> r == Some(BAUD_CODES[i])
  {
    match bps
    case 5_000 => Some(0x7F7F)
    case 10_000 => Some(0x672F)
    case 20_000 => Some(0x532F)
    case 33_333 => Some(0x8B2F)
    case 47_619 => Some(0x1414)
    case 50_000 => Some(0x472F)
    case 83_333 => Some(0x852B)
    case 95_238 => Some(0xC34E)
    case 100_000 => Some(0x432F)
    case 125_000 => Some(0x031C)
    case 250_000 => Some(0x011C)
    case 500_000 => Some(0x001C)
    case 800_000 => Some(0x0016)
    case 1_000_000 => Some(0x0014)
    case _ => None
  }

  /** Different supported rates get different codes. */
  lemma BaudCodeInjective(a: u32, b: u32)
    requires BaudCode(a).Some? && BaudCode(a) == BaudCode(b)
    ensures a == b
  {
  }

  // ---------------------------------------------------------------- messages

  /** The eight data bytes of a `TPCANMsg`. */
  type MsgData = d: seq<byte> | |d| == 8 witness [0, 0, 0, 0, 0, 0, 0, 0]

  /** A `TPCANMsg`: the id, the message type flags, the length byte and eight data bytes. */
  datatype PcanMsg = PcanMsg(id: u32, msgType: byte, len: byte, data: MsgData)

  /** A `TPCANTimestamp`: milliseconds, their overflow count and the microseconds within the millisecond. */
  datatype PcanTimestamp = PcanTimestamp(millis: u32, overflow: u16, micros: u16)

  /** What one `CAN_Read` gives: its status, the message and the timestamp it filled in. */
  datatype ReadAnswer = ReadAnswer(status: u32, msg: PcanMsg, stamp: PcanTimestamp)

  /** The payload bytes, at most eight of them, followed by zeros. */
  function Payload(d: seq<byte>): (r: MsgData)
    ensures forall j :: 0 <= j < 8 ==> r[j] == if j < |d| then d[j] else 0
  {
    seq(8, j requires 0 <= j < 8 => if j < |d| then d[j] else 0)
  }

  /**
   * The message `send_frame` builds for a frame: its id, the extended or standard type,
   * its DLC as the length and the first eight data bytes at most, the rest zero. A
   * `CanFrame` comes from its constructors, so it is valid and its id and DLC fit.
   */
  function Pack(f: CanFrame): PcanMsg
    requires ValidFrame(f)
  {
    PcanMsg(f.id, if f.extended then MESSAGE_EXTENDED else MESSAGE_STANDARD, f.dlc, Payload(f.data))
  }

  /** `((overflow << 32) | millis) * 1000 + micros`; the two fields do not overlap, so `|` is `+`. */
  function TimestampMicros(t: PcanTimestamp): (r: u64)
    ensures r == (t.overflow * TWO_32 + t.millis) * 1000 + t.micros
  {
    MulMonotone(t.overflow, 0xFFFF, TWO_32);
    MulMonotone(t.overflow * TWO_32 + t.millis, 0xFFFF * TWO_32 + U32_MAX, 1000);
    (t.overflow * TWO_32 + t.millis) * 1000 + t.micros
  }

  /** With microseconds below 1000, the milliseconds and microseconds read back from the total. */
  lemma TimestampSplits(t: PcanTimestamp)
    requires t.micros < 1000
    ensures TimestampMicros(t) / 1000 == t.overflow * TWO_32 + t.millis
    ensures TimestampMicros(t) % 1000 == t.micros
  {
    DivModUnique(TimestampMicros(t), 1000, t.overflow * TWO_32 + t.millis, t.micros);
  }

  /** The rejection `read_frames` returns when the frame constructor refuses a message; the crate's own text is not part of this model. */
  const FRAME_REJECTED: string := "invalid CAN frame"

  /**
   * The frame one received message gives: extended when the type has the extended bit,
   * at most eight bytes, the constructor's verdict on the id, and the timestamp in
   * microseconds.
   */
  function RxFrame(msg: PcanMsg, stamp: PcanTimestamp): (r: Result<CanFrame, IoError>)
    ensures r.Ok? <==> msg.id <= if HasFlag(msg.msgType, MESSAGE_EXTENDED) then EFF_MAX else SFF_MAX
    ensures r.Err? ==> r.error == IoError(InvalidData, FRAME_REJECTED)
    ensures r.Ok? ==>
      && ValidFrame(r.value) && IsDataFrame(r.value)
      && r.value.extended == HasFlag(msg.msgType, MESSAGE_EXTENDED)
      && r.value.id == msg.id
      && r.value.data == msg.data[..if msg.len < 8 then msg.len else 8]
      && r.value.timestamp == Some(TimestampMicros(stamp))
  {
    var dlc := if msg.len < 8 then msg.len else 8;
    var data := msg.data[..dlc];
    var f := if HasFlag(msg.msgType, MESSAGE_EXTENDED) then NewEff(msg.id, data) else New(msg.id, data);
    if f.None? then Err(IoError(InvalidData, FRAME_REJECTED))
    else Ok(SetTimestamp(f.value, Some(TimestampMicros(stamp))))
  }

  /** Receiving the message `send_frame` builds for a data frame gives the frame back, stamped. */
  lemma PackRx(f: CanFrame, stamp: PcanTimestamp)
    requires ValidFrame(f) && IsDataFrame(f)
    ensures RxFrame(Pack(f), stamp) == Ok(SetTimestamp(f, Some(TimestampMicros(stamp))))
  {
    var msg := Pack(f);
    assert HasFlag(msg.msgType, MESSAGE_EXTENDED) == f.extended;
    assert msg.data[..f.dlc] == f.data;
  }

  /** The error a failed PCAN-Basic call becomes: its name and its status as eight hex digits. */
  function StatusError(call: string, status: u32): IoError
  {
    IoError(Other, call + " failed: 0x" + Format(status, 16, true, 8))
  }

  /**
   * The outcome of the receive loop from the `i`-th answer on: stop at the first empty
   * queue; any other non-OK status is an error; every message must give a frame, and the
   * first that does not aborts the loop with that error, dropping the frames before it.
   */
  function Drain(answers: seq<ReadAnswer>, i: nat): Result<seq<CanFrame>, IoError>
    requires i <= |answers|
    decreases |answers| - i
  {
    if i == |answers| || answers[i].status == ERROR_QRCVEMPTY then Ok([])
    else if answers[i].status != ERROR_OK then Err(StatusError("CAN_Read", answers[i].status))
    else match RxFrame(answers[i].msg, answers[i].stamp)
      case Err(e) => Err(e)
      case Ok(f) =>
        match Drain(answers, i + 1)
        case Err(e) => Err(e)
        case Ok(rest) => Ok([f] + rest)
  }

  /** The frames read so far in front of what the rest of the loop gives. */
  function Prepend(frames: seq<CanFrame>, r: Result<seq<CanFrame>, IoError>): Result<seq<CanFrame>, IoError>
  {
    if r.Ok? then Ok(frames + r.value) else r
  }

  /**
   * The receive loop succeeds exactly when every answer before the first empty queue is OK
   * and gives a frame, and then the frames are those, in order.
   */
  lemma {:induction false} DrainOk(answers: seq<ReadAnswer>, i: nat, k: nat)
    requires i <= k < |answers| && answers[k].status == ERROR_QRCVEMPTY
    requires forall j :: i <= j < k ==> answers[j].status != ERROR_QRCVEMPTY
    ensures Drain(answers, i).Ok? <==>
      forall j :: i <= j < k ==> answers[j].status == ERROR_OK && RxFrame(answers[j].msg, answers[j].stamp).Ok?
    ensures Drain(answers, i).Ok? ==>
      && |Drain(answers, i).value| == k - i
      && forall j :: i <= j < k ==> Ok(Drain(answers, i).value[j - i]) == RxFrame(answers[j].msg, answers[j].stamp)
    decreases k - i
  {
    if i < k {
      DrainOk(answers, i + 1, k);
    }
  }

  // ---------------------------------------------------------------- the driver

  /** `PcanDriver`: the channel handle it was opened on and the bitrate set for it. */
  class PcanDriver {
    const channel: u16
    var configuredBitrate: Option<u32>

    /** Only supported rates are ever recorded. */
    predicate Valid()
      reads this
    {
      configuredBitrate.Some? ==> configuredBitrate.value in PCAN_BITRATES
    }

    constructor (channel: u16)
      ensures this.channel == channel && configuredBitrate == None && Valid()
    {
      this.channel := channel;
      configuredBitrate := None;
    }

    /** `PcanDriver::open`: an unknown channel name is InvalidInput; otherwise no bitrate yet. */
    static method Open(name: string) returns (r: Result<PcanDriver, IoError>)
      ensures ParseChannel(name).None? <==> r.Err?
      ensures r.Err? ==> r.error == IoError(InvalidInput, "Unknown PCAN channel")
      ensures r.Ok? ==>
        && fresh(r.value) && r.value.Valid()
        && r.value.channel == ParseChannel(name).value && r.value.configuredBitrate == None
    {
      var handle := ParseChannel(name);
      if handle.None? {
        return Err(IoError(InvalidInput, "Unknown PCAN channel"));
      }
      var d := new PcanDriver(handle.value);
      r := Ok(d);
    }

    /** `enable_timestamp`: PCAN-Basic always stamps received messages, so nothing to do. */
    method EnableTimestamp() returns (r: Result<(), IoError>)
      ensures r == Ok(())
    {
      r := Ok(());
    }

    /** `set_bitrate`: an unsupported rate is InvalidInput and changes nothing; a supported one is only recorded. */
    method SetBitrate(bitrate: u32) returns (r: Result<(), IoError>)
      requires Valid()
      modifies this`configuredBitrate
      ensures Valid()
      ensures BaudCode(bitrate).None? ==>
        && r == Err(IoError(InvalidInput, "Unsupported CAN bitrate: " + Digits(bitrate, 10, true)))
        && configuredBitrate == old(configuredBitrate)
      ensures BaudCode(bitrate).Some? ==> r == Ok(()) && configuredBitrate == Some(bitrate)
    {
      if BaudCode(bitrate).None? {
        return Err(IoError(InvalidInput, "Unsupported CAN bitrate: " + Digits(bitrate, 10, true)));
      }
      configuredBitrate := Some(bitrate);
      r := Ok(());
    }

    /**
     * `open_channel`: without a recorded rate it fails with "Bitrate not set" and calls
     * nothing; otherwise it calls `CAN_Initialize` with the channel and the rate's code
     * (returned as `init`), and a status other than OK becomes an error.
     */
    method OpenChannel(status: u32) returns (r: Result<(), IoError>, init: Option<(u16, u16)>)
      ensures configuredBitrate.None? || BaudCode(configuredBitrate.value).None? ==>
        r == Err(IoError(Other, "Bitrate not set")) && init == None
      ensures configuredBitrate.Some? && BaudCode(configuredBitrate.value).Some? ==>
        && init == Some((channel, BaudCode(configuredBitrate.value).value))
        && r == if status == ERROR_OK then Ok(()) else Err(StatusError("CAN_Initialize", status))
      ensures Valid() && configuredBitrate.Some? ==> init.Some?
    {
      var code := if configuredBitrate.Some? then BaudCode(configuredBitrate.value) else None;
      if code.None? {
        return Err(IoError(Other, "Bitrate not set")), None;
      }
      init := Some((channel, code.value));
      if status != ERROR_OK {
        return Err(StatusError("CAN_Initialize", status)), init;
      }
      r := Ok(());
    }

    /**
     * `send_frame`: fills a zeroed eight-byte buffer with the first bytes of the payload,
     * hands the message to `CAN_Write` (returned as `msg`), and a status other than OK
     * becomes an error.
     */
    method SendFrame(f: CanFrame, status: u32) returns (r: Result<(), IoError>, msg: PcanMsg)
      requires ValidFrame(f)
      ensures msg == Pack(f)
      ensures r == if status == ERROR_OK then Ok(()) else Err(StatusError("CAN_Write", status))
    {
      var buf := new byte[8](_ => 0);
      var copyLen := if |f.data| < 8 then |f.data| else 8;
      var i := 0;
      while i < copyLen
        invariant i <= copyLen
        invariant forall j :: 0 <= j < 8 ==> buf[j] == if j < i then f.data[j] else 0
      {
        buf[i] := f.data[i];
        i := i + 1;
      }
      msg := PcanMsg(f.id, if f.extended then MESSAGE_EXTENDED else MESSAGE_STANDARD, f.dlc, buf[..]);
      r := if status == ERROR_OK then Ok(()) else Err(StatusError("CAN_Write", status));
    }

    /**
     * `read_frames`: calls `CAN_Read` until the queue reports empty; `answers` are its
     * answers in order, and the queue reports empty at some point.
     */
    method ReadFrames(answers: seq<ReadAnswer>) returns (r: Result<seq<CanFrame>, IoError>)
      requires exists k :: 0 <= k < |answers| && answers[k].status == ERROR_QRCVEMPTY
      ensures r == Drain(answers, 0)
    {
      ghost var k :| 0 <= k < |answers| && answers[k].status == ERROR_QRCVEMPTY;
      var frames: seq<CanFrame> := [];
      var i := 0;
      assert Drain(answers, 0).Ok? ==> [] + Drain(answers, 0).value == Drain(answers, 0).value;
      while answers[i].status != ERROR_QRCVEMPTY
        invariant i <= k
        invariant Drain(answers, 0) == Prepend(frames, Drain(answers, i))
        decreases k - i
      {
        var a := answers[i];
        if a.status != ERROR_OK {
          return Err(StatusError("CAN_Read", a.status));
        }
        var frame := RxFrame(a.msg, a.stamp);
        if frame.Err? {
          return Err(frame.error);
        }
        AppendAssoc(frames, [frame.value], if Drain(answers, i + 1).Ok? then Drain(answers, i + 1).value else []);
        frames := frames + [frame.value];
        i := i + 1;
      }
      assert frames + [] == frames;
      r := Ok(frames);
    }

    /** `close_channel`: calls `CAN_Uninitialize`; a status other than OK becomes an error. */
    method CloseChannel(status: u32) returns (r: Result<(), IoError>)
      ensures r == if status == ERROR_OK then Ok(()) else Err(StatusError("CAN_Uninitialize", status))
    {
      r := if status == ERROR_OK then Ok(()) else Err(StatusError("CAN_Uninitialize", status));
    }

    /** `get_bitrate`: the recorded rate. */
    function GetBitrate(): (b: Option<u32>)
      reads this
      ensures Valid() && b.Some? ==> BaudCode(b.value).Some?
    {
      configuredBitrate
    }
  }
}
