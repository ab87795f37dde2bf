/**
 * Device discovery for the gs_usb driver (src/drivers/gs_usb/device.rs): choosing the
 * vendor-specific interface and its bulk endpoints from a configuration descriptor,
 * matching a user's identifier against a candidate adapter, the adapter's display label,
 * and the scan over the USB device list. libusb descriptors are plain values here; each
 * libusb call the scan makes (device descriptor, configuration descriptor, open) is an
 * outcome recorded on the device value.
 */
module GsDevice {
  import opened Wrappers
  import opened Bytes
  import opened Text

  const GS_USB_VENDOR_ID: u16 := 0x1D50
  const GS_USB_PRODUCT_ID: u16 := 0x606F
  const VENDOR_SPECIFIC_CLASS: byte := 0xFF
  const ENDPOINT_IN: byte := 0x80
  const TRANSFER_TYPE_BULK: byte := 2
  const TRANSFER_TYPE_INTERRUPT: byte := 3
  const DEFAULT_OUT_WMAX: u16 := 64

  datatype Endpoint = Endpoint(address: byte, attributes: byte, maxPacketSize: u16)

  datatype AltSetting = AltSetting(interfaceClass: byte, interfaceNumber: byte,
                                   alternateSetting: byte, endpoints: seq<Endpoint>)

  /** A configuration descriptor: per interface, its alternate settings. */
  datatype Config = Config(interfaces: seq<seq<AltSetting>>)

  datatype InterfaceInfo = InterfaceInfo(interface: byte, altSetting: byte, inEp: byte, outEp: byte,
                                         intEp: Option<byte>, outWmax: u16)

  // ---------------------------------------------------------------- endpoints

  /** `bmAttributes & 0x3`. */
  function TransferType(e: Endpoint): byte
  {
    e.attributes % 4
  }

  /** `bEndpointAddress & LIBUSB_ENDPOINT_IN != 0`. */
  predicate IsIn(e: Endpoint)
  {
    HasFlag(e.address, ENDPOINT_IN)
  }

  predicate IsBulk(e: Endpoint, dirIn: bool)
  {
    TransferType(e) == TRANSFER_TYPE_BULK && IsIn(e) == dirIn
  }

  predicate IsInterruptIn(e: Endpoint)
  {
    TransferType(e) == TRANSFER_TYPE_INTERRUPT && IsIn(e)
  }

  /** The last bulk endpoint of the given direction in the list. */
  function LastBulk(eps: seq<Endpoint>, dirIn: bool): (r: Option<Endpoint>)
    ensures r.Some? ==> IsBulk(r.value, dirIn)
  {
    if |eps| == 0 then None
    else if IsBulk(eps[|eps| - 1], dirIn) then Some(eps[|eps| - 1])
    else LastBulk(eps[..|eps| - 1], dirIn)
  }

  /** The last interrupt IN endpoint in the list. */
  function LastInterruptIn(eps: seq<Endpoint>): (r: Option<Endpoint>)
    ensures r.Some? ==> IsInterruptIn(r.value)
  {
    if |eps| == 0 then None
    else if IsInterruptIn(eps[|eps| - 1]) then Some(eps[|eps| - 1])
    else LastInterruptIn(eps[..|eps| - 1])
  }

  /**
   * `LastBulk` is the last one: it is in the list, and no later endpoint is a bulk
   * endpoint of that direction; None exactly when the list has none.
   */
  lemma {:induction false} LastBulkIsLast(eps: seq<Endpoint>, dirIn: bool)
    ensures LastBulk(eps, dirIn).None? <==> forall k :: 0 <= k < |eps| ==> !IsBulk(eps[k], dirIn)
    ensures LastBulk(eps, dirIn).Some? ==>
      exists k :: 0 <= k < |eps| && eps[k] == LastBulk(eps, dirIn).value
                  && forall j :: k < j < |eps| ==> !IsBulk(eps[j], dirIn)
    decreases |eps|
  {
    if |eps| > 0 && !IsBulk(eps[|eps| - 1], dirIn) {
      var front := eps[..|eps| - 1];
      LastBulkIsLast(front, dirIn);
      assert forall k :: 0 <= k < |front| ==> front[k] == eps[k];
      if LastBulk(front, dirIn).Some? {
        var k :| 0 <= k < |front| && front[k] == LastBulk(front, dirIn).value
                 && forall j :: k < j < |front| ==> !IsBulk(front[j], dirIn);
        assert eps[k] == LastBulk(eps, dirIn).value;
      }
    }
  }

  /**
   * The interface information an alternate setting yields: the last bulk IN and the last
   * bulk OUT endpoint (0 when there is none), the OUT endpoint's wMaxPacketSize (64 when
   * there is none) and the last interrupt IN endpoint.
   */
  function InfoOf(alt: AltSetting): (info: InterfaceInfo)
    ensures info.interface == alt.interfaceNumber && info.altSetting == alt.alternateSetting
  {
    var bulkIn := LastBulk(alt.endpoints, true);
    var bulkOut := LastBulk(alt.endpoints, false);
    var intIn := LastInterruptIn(alt.endpoints);
    InterfaceInfo(alt.interfaceNumber, alt.alternateSetting,
                  if bulkIn.Some? then bulkIn.value.address else 0,
                  if bulkOut.Some? then bulkOut.value.address else 0,
                  if intIn.Some? then Some(intIn.value.address) else None,
                  if bulkOut.Some? then bulkOut.value.maxPacketSize else DEFAULT_OUT_WMAX)
  }

  /** The endpoint loop of `find_gs_usb_interface` for one alternate setting. */
  method CollectEndpoints(alt: AltSetting) returns (info: InterfaceInfo)
    ensures info == InfoOf(alt)
  {
    var eps := alt.endpoints;
    info := InterfaceInfo(alt.interfaceNumber, alt.alternateSetting, 0, 0, None, DEFAULT_OUT_WMAX);
    var k := 0;
    while k < |eps|
      invariant k <= |eps|
      invariant info == InfoOf(alt.(endpoints := eps[..k]))
    {
      var e := eps[k];
      assert eps[..k + 1][..k] == eps[..k];
      if TransferType(e) == TRANSFER_TYPE_BULK {
        if IsIn(e) {
          info := info.(inEp := e.address);
        } else {
          info := info.(outEp := e.address, outWmax := e.maxPacketSize);
        }
      } else if TransferType(e) == TRANSFER_TYPE_INTERRUPT {
        if IsIn(e) {
          info := info.(intEp := Some(e.address));
        }
      }
      k := k + 1;
    }
    assert eps[..k] == eps;
  }

  // ---------------------------------------------------------------- interface choice

  /** An alternate setting the driver accepts: vendor class, a bulk IN and a bulk OUT. */
  predicate Qualifies(alt: AltSetting)
  {
    alt.interfaceClass == VENDOR_SPECIFIC_CLASS && InfoOf(alt).inEp != 0 && InfoOf(alt).outEp != 0
  }

  /** The search over interfaces, then alternate settings, from position (i, a). */
  function FirstFrom(ifaces: seq<seq<AltSetting>>, i: nat, a: nat): (r: Option<InterfaceInfo>)
    decreases |ifaces| - i, if i < |ifaces| then |ifaces[i]| - a else 0
  {
    if i >= |ifaces| then None
    else if a >= |ifaces[i]| then FirstFrom(ifaces, i + 1, 0)
    else if Qualifies(ifaces[i][a]) then Some(InfoOf(ifaces[i][a]))
    else FirstFrom(ifaces, i, a + 1)
  }

  /** Position (i', a') comes before (i, a) in the search order. */
  predicate Earlier(i': nat, a': nat, i: nat, a: nat)
  {
    i' < i || (i' == i && a' < a)
  }

  predicate At(ifaces: seq<seq<AltSetting>>, i: nat, a: nat)
  {
    i < |ifaces| && a < |ifaces[i]|
  }

  /**
   * What the search finds from (i, a): None exactly when no alternate setting at or after
   * (i, a) qualifies, and otherwise the information of the first one that does.
   */
  lemma {:induction false} FirstFromSpec(ifaces: seq<seq<AltSetting>>, i: nat, a: nat)
    ensures FirstFrom(ifaces, i, a).None? <==>
      forall i': nat, a': nat :: At(ifaces, i', a') && !Earlier(i', a', i, a) ==> !Qualifies(ifaces[i'][a'])
    ensures FirstFrom(ifaces, i, a).Some? ==>
      exists i': nat, a': nat :: At(ifaces, i', a') && !Earlier(i', a', i, a) && Qualifies(ifaces[i'][a'])
        && FirstFrom(ifaces, i, a).value == InfoOf(ifaces[i'][a'])
        && forall i'': nat, a'': nat :: At(ifaces, i'', a'') && !Earlier(i'', a'', i, a) && Earlier(i'', a'', i', a')
             ==> !Qualifies(ifaces[i''][a''])
    decreases |ifaces| - i, if i < |ifaces| then |ifaces[i]| - a else 0
  {
    if i >= |ifaces| {
    } else if a >= |ifaces[i]| {
      FirstFromSpec(ifaces, i + 1, 0);
    } else if Qualifies(ifaces[i][a]) {
      assert At(ifaces, i, a) && !Earlier(i, a, i, a);
    } else {
      FirstFromSpec(ifaces, i, a + 1);
    }
  }

  /** The alternate-setting loops of `find_gs_usb_interface` over one configuration. */
  method FindInConfig(cfg: Config) returns (r: Option<InterfaceInfo>)
    ensures r == FirstFrom(cfg.interfaces, 0, 0)
  {
    var ifaces := cfg.interfaces;
    var i := 0;
    while i < |ifaces|
      invariant i <= |ifaces|
      invariant FirstFrom(ifaces, 0, 0) == FirstFrom(ifaces, i, 0)
    {
      var a := 0;
      while a < |ifaces[i]|
        invariant a <= |ifaces[i]|
        invariant FirstFrom(ifaces, 0, 0) == FirstFrom(ifaces, i, a)
      {
        var alt := ifaces[i][a];
        if alt.interfaceClass == VENDOR_SPECIFIC_CLASS {
          var info := CollectEndpoints(alt);
          if info.inEp != 0 && info.outEp != 0 {
            return Some(info);
          }
        }
        a := a + 1;
      }
      i := i + 1;
    }
    return None;
  }

  /**
   * `find_gs_usb_interface`: the active configuration, or configuration 0 when there is no
   * active one (NotFound); any other descriptor error is returned.
   */
  method FindGsUsbInterface(active: Result<Config, IoError>, byIndex: Result<Config, IoError>)
    returns (r: Result<Option<InterfaceInfo>, IoError>)
    ensures r == InterfaceOf(active, byIndex)
    ensures r.Err? <==> active.Err? && (active.error.kind != NotFound || byIndex.Err?)
  {
    var cfg: Config;
    match active {
      case Ok(c) =>
        cfg := c;
      case Err(e) =>
        if e.kind != NotFound {
          return Err(e);
        }
        if byIndex.Err? {
          return Err(byIndex.error);
        }
        cfg := byIndex.value;
    }
    var found := FindInConfig(cfg);
    return Ok(found);
  }

  /** The configuration `find_gs_usb_interface` searches, or the error it returns. */
  function ConfigUsed(active: Result<Config, IoError>, byIndex: Result<Config, IoError>): Result<Config, IoError>
  {
    match active
    case Ok(c) => Ok(c)
    case Err(e) => if e.kind == NotFound then byIndex else Err(e)
  }

  function InterfaceOf(active: Result<Config, IoError>, byIndex: Result<Config, IoError>): Result<Option<InterfaceInfo>, IoError>
  {
    match ConfigUsed(active, byIndex)
    case Ok(c) => Ok(FirstFrom(c.interfaces, 0, 0))
    case Err(e) => Err(e)
  }

  /**
   * A chosen interface comes from a vendor-class alternate setting with both bulk
   * endpoints, and the OUT endpoint's packet size (or 64) is its out_wmax.
   */
  lemma InterfaceOfQualifies(active: Result<Config, IoError>, byIndex: Result<Config, IoError>)
    requires InterfaceOf(active, byIndex).Ok? && InterfaceOf(active, byIndex).value.Some?
    ensures var info := InterfaceOf(active, byIndex).value.value;
      var ifaces := ConfigUsed(active, byIndex).value.interfaces;
      exists i: nat, a: nat :: At(ifaces, i, a) && ifaces[i][a].interfaceClass == VENDOR_SPECIFIC_CLASS
        && info == InfoOf(ifaces[i][a]) && info.inEp != 0 && info.outEp != 0
        && forall i': nat, a': nat :: At(ifaces, i', a') && Earlier(i', a', i, a) ==> !Qualifies(ifaces[i'][a'])
  {
    FirstFromSpec(ConfigUsed(active, byIndex).value.interfaces, 0, 0);
  }

  // ---------------------------------------------------------------- identifiers and labels

  /** A device descriptor with the string descriptors the driver reads through the handle. */
  datatype DeviceDescriptor = DeviceDescriptor(vendorId: u16, productId: u16,
                                               serial: Option<string>, product: Option<string>)

  /** The label `format!` writes from the bus and address, each as three zero-padded decimal digits, joined by `:`. */
  function BusAddress(bus: byte, address: byte): string
  {
    Format(bus, 10, false, 3) + ":" + Format(address, 10, false, 3)
  }

  /** `device_matches_identifier`. */
  predicate MatchesIdentifier(identifier: string, index: nat, desc: DeviceDescriptor, bus: byte, address: byte)
  {
    var ident := Trim(identifier);
    || EqIgnoreAsciiCase(ident, "auto")
    || ParseUsize(ident) == Some(index)
    || (desc.serial.Some? && EqIgnoreAsciiCase(desc.serial.value, ident))
    || (desc.product.Some? && EqIgnoreAsciiCase(desc.product.value, ident))
    || EqIgnoreAsciiCase(BusAddress(bus, address), ident)
  }

  /** The decimal index of a candidate, as `format!("{}")` writes it, selects it. */
  lemma IndexSelects(index: nat, desc: DeviceDescriptor, bus: byte, address: byte)
    requires index <= 0xFFFF_FFFF_FFFF_FFFF
    ensures MatchesIdentifier(Format(index, 10, false, 0), index, desc, bus, address)
  {
    IndexReadsBack(index);
  }

  lemma IndexReadsBack(index: nat)
    requires index <= 0xFFFF_FFFF_FFFF_FFFF
    ensures ParseUsize(Trim(Format(index, 10, false, 0))) == Some(index)
  {
    var d := Digits(index, 10, false);
    var s := Format(index, 10, false, 0);
    assert s == d;
    DigitsValue(index, 10, false);
    TrimDigits(d, 10);
    ParseFormat(index, 10, false, 0, 0xFFFF_FFFF_FFFF_FFFF);
  }

  /** A candidate's own "BBB:AAA" bus and address select it, whatever its index. */
  lemma BusAddressSelects(index: nat, desc: DeviceDescriptor, bus: byte, address: byte)
    ensures MatchesIdentifier(BusAddress(bus, address), index, desc, bus, address)
  {
    var b := Format(bus, 10, false, 3);
    var a := Format(address, 10, false, 3);
    DigitsValue(bus, 10, false);
    ZeroPadValue(Digits(bus, 10, false), 3, 10);
    DigitsValue(address, 10, false);
    ZeroPadValue(Digits(address, 10, false), 3, 10);
    var s := BusAddress(bus, address);
    assert s[0] == b[0] && s[|s| - 1] == a[|a| - 1];
    assert IsDigitOf(b[0], 10) && IsDigitOf(a[|a| - 1], 10);
    TrimUntouched(s);
  }

  /**
   * `read_product_label`: the product string, else the serial string, else "vvvv:pppp" in
   * lower-case hex. It always yields a label.
   */
  function ProductLabel(desc: DeviceDescriptor): (name: string)
  {
    if desc.product.Some? then desc.product.value
    else if desc.serial.Some? then desc.serial.value
    else Format(desc.vendorId, 16, false, 4) + ":" + Format(desc.productId, 16, false, 4)
  }

  /**
   * The fallback label is exactly nine characters, and its two halves read back, as hex,
   * as the vendor and product ids.
   */
  lemma FallbackLabelReadsBack(desc: DeviceDescriptor)
    requires desc.product.None? && desc.serial.None?
    ensures var name := ProductLabel(desc);
      && |name| == 9 && name[4] == ':'
      && ParseUnsigned(name[..4], 16, 0xFFFF) == Some(desc.vendorId)
      && ParseUnsigned(name[5..], 16, 0xFFFF) == Some(desc.productId)
  {
    var v := Format(desc.vendorId, 16, false, 4);
    var p := Format(desc.productId, 16, false, 4);
    assert Pow(16, 4) == 0x1_0000 by {
      assert Pow(16, 1) == 16 && Pow(16, 2) == 256 && Pow(16, 3) == 4096;
    }
    DigitsFit(desc.vendorId, 16, false, 4);
    DigitsFit(desc.productId, 16, false, 4);
    var name := ProductLabel(desc);
    assert name == v + ":" + p;
    assert name[..4] == v && name[5..] == p;
    ParseFormat(desc.vendorId, 16, false, 4, 0xFFFF);
    ParseFormat(desc.productId, 16, false, 4, 0xFFFF);
  }

  // ---------------------------------------------------------------- the device scan

  /**
   * One entry of the USB device list, with the outcome of every libusb call the scan
   * makes on it: its device descriptor, its active and first configuration descriptors,
   * opening it (the handle is an opaque number), and its bus number and address.
   */
  datatype UsbDevice = UsbDevice(descriptor: Result<DeviceDescriptor, IoError>,
                                 activeConfig: Result<Config, IoError>,
                                 firstConfig: Result<Config, IoError>,
                                 open: Result<nat, IoError>,
                                 bus: byte, address: byte)

  datatype Selection = Selection(handle: nat, info: InterfaceInfo, name: string)

  /** How the scan over the list ends. */
  datatype ScanOutcome = Selected(selection: Selection) | Stopped(error: IoError) | NoMatch

  predicate IsGsUsb(desc: DeviceDescriptor)
  {
    desc.productId == GS_USB_PRODUCT_ID && desc.vendorId == GS_USB_VENDOR_ID
  }

  /** The identifier test the scan applies to a candidate: its index, descriptor, bus and address. */
  type Matcher = (nat, DeviceDescriptor, byte, byte) -> bool

  function IdentifierMatcher(identifier: string): Matcher
  {
    (index: nat, desc: DeviceDescriptor, bus: byte, address: byte) => MatchesIdentifier(identifier, index, desc, bus, address)
  }

  /** The scan from the front of `devs`, with `index` gs_usb candidates already examined. */
  function ScanFrom(devs: seq<UsbDevice>, m: Matcher, index: nat): ScanOutcome
    decreases |devs|
  {
    if |devs| == 0 then NoMatch
    else
      var d := devs[0];
      match d.descriptor
      case Err(e) => Stopped(e)
      case Ok(desc) =>
        if !IsGsUsb(desc) then ScanFrom(devs[1..], m, index)
        else match InterfaceOf(d.activeConfig, d.firstConfig)
          case Err(e) => Stopped(e)
          case Ok(None) => ScanFrom(devs[1..], m, index)
          case Ok(Some(info)) =>
            match d.open
            case Err(e) => Stopped(e)
            case Ok(h) =>
              if m(index, desc, d.bus, d.address)
              then Selected(Selection(h, info, ProductLabel(desc)))
              else ScanFrom(devs[1..], m, index + 1)
  }

  function NotMatchedError(identifier: string): IoError
  {
    IoError(NotFound, "No gs_usb device matched identifier '" + identifier + "'")
  }

  /** `select_device`'s result for a device list (or the error of listing the devices). */
  function SelectResult(list: Result<seq<UsbDevice>, IoError>, identifier: string): Result<Selection, IoError>
  {
    match list
    case Err(e) => Err(e)
    case Ok(devs) =>
      match ScanFrom(devs, IdentifierMatcher(identifier), 0)
      case Selected(s) => Ok(s)
      case Stopped(e) => Err(e)
      case NoMatch => Err(NotMatchedError(identifier))
  }

  /**
   * `select_device`: walk the device list with the `result`, `index` and `error`
   * accumulators; skip devices that are not gs_usb or have no usable interface; stop at
   * the first error or the first match.
   */
  method SelectDevice(list: Result<seq<UsbDevice>, IoError>, identifier: string)
    returns (r: Result<Selection, IoError>)
    ensures r == SelectResult(list, identifier)
  {
    if list.Err? {
      return Err(list.error);
    }
    var devs := list.value;
    var result: Option<Selection> := None;
    var index := 0;
    var error: Option<IoError> := None;
    var i := 0;
    while i < |devs|
      invariant i <= |devs|
      invariant ScanFrom(devs, IdentifierMatcher(identifier), 0) == ScanFrom(devs[i..], IdentifierMatcher(identifier), index)
      invariant result.None? && error.None?
    {
      var d := devs[i];
      assert devs[i..][1..] == devs[i + 1..];
      if d.descriptor.Err? {
        error := Some(d.descriptor.error);
        break;
      }
      var desc := d.descriptor.value;
      if !(desc.productId == GS_USB_PRODUCT_ID && desc.vendorId == GS_USB_VENDOR_ID) {
        i := i + 1;
        continue;
      }
      var found := FindGsUsbInterface(d.activeConfig, d.firstConfig);
      if found.Err? {
        error := Some(found.error);
        break;
      }
      if found.value.None? {
        i := i + 1;
        continue;
      }
      var info := found.value.value;
      if d.open.Err? {
        error := Some(d.open.error);
        break;
      }
      var handle := d.open.value;
      if MatchesIdentifier(identifier, index, desc, d.bus, d.address) {
        result := Some(Selection(handle, info, ProductLabel(desc)));
        break;
      }
      index := index + 1;
      i := i + 1;
    }
    if result.Some? {
      return Ok(result.value);
    }
    if error.Some? {
      return Err(error.value);
    }
    return Err(NotMatchedError(identifier));
  }

  // ---------------------------------------------------------------- properties of the scan

  /** A gs_usb device with a usable interface that opens: the scan tests it for a match. */
  predicate Candidate(d: UsbDevice)
  {
    && d.descriptor.Ok? && IsGsUsb(d.descriptor.value)
    && InterfaceOf(d.activeConfig, d.firstConfig).Ok?
    && InterfaceOf(d.activeConfig, d.firstConfig).value.Some?
    && d.open.Ok?
  }

  /** The number of candidates in `devs`. */
  function Examined(devs: seq<UsbDevice>): nat
  {
    if |devs| == 0 then 0 else (if Candidate(devs[0]) then 1 else 0) + Examined(devs[1..])
  }

  /**
   * The scan goes on past `d`, tested (if it is a candidate) at `index`: its descriptor
   * reads; if it is a gs_usb device, its interface lookup does not fail; if it has a
   * usable interface, it opens and does not match.
   */
  predicate PassedOver(d: UsbDevice, m: Matcher, index: nat)
  {
    && d.descriptor.Ok?
    && (IsGsUsb(d.descriptor.value) ==>
          && InterfaceOf(d.activeConfig, d.firstConfig).Ok?
          && (InterfaceOf(d.activeConfig, d.firstConfig).value.Some? ==>
                d.open.Ok? && !m(index, d.descriptor.value, d.bus, d.address)))
  }

  /**
   * Entry k of `devs` is a gs_usb device (VID 0x1D50, PID 0x606F) whose interface, handle
   * and label the selection carries, and which matches the identifier at the index
   * counting the candidates before it, starting from `index`; and the scan passed over
   * every entry before it: none failed and no earlier candidate matched.
   */
  predicate SelectedAt(devs: seq<UsbDevice>, m: Matcher, index: nat, k: nat, s: Selection)
  {
    && k < |devs| && devs[k].descriptor.Ok? && IsGsUsb(devs[k].descriptor.value)
    && InterfaceOf(devs[k].activeConfig, devs[k].firstConfig) == Ok(Some(s.info))
    && devs[k].open == Ok(s.handle) && s.name == ProductLabel(devs[k].descriptor.value)
    && m(index + Examined(devs[..k]), devs[k].descriptor.value,
                         devs[k].bus, devs[k].address)
    && forall j :: 0 <= j < k ==> PassedOver(devs[j], m, index + Examined(devs[..j]))
  }

  /** A selected entry of the tail is a selected entry of the whole list, one further on. */
  lemma SelectedAtShift(devs: seq<UsbDevice>, m: Matcher, index: nat, k: nat, s: Selection)
    requires |devs| > 0 && PassedOver(devs[0], m, index)
    requires SelectedAt(devs[1..], m, index + if Candidate(devs[0]) then 1 else 0, k, s)
    ensures SelectedAt(devs, m, index, k + 1, s)
  {
    var rest := devs[1..];
    var index' := index + if Candidate(devs[0]) then 1 else 0;
    assert devs[..k + 1][0] == devs[0] && devs[..k + 1][1..] == rest[..k];
    assert devs[k + 1] == rest[k];
    forall j | 0 <= j < k + 1
      ensures PassedOver(devs[j], m, index + Examined(devs[..j]))
    {
      if j == 0 {
        assert devs[..0] == [];
      } else {
        assert devs[..j][0] == devs[0] && devs[..j][1..] == rest[..j - 1];
        assert devs[j] == rest[j - 1];
        assert Examined(devs[..j]) == (if Candidate(devs[0]) then 1 else 0) + Examined(rest[..j - 1]);
      }
    }
  }

  /**
   * A selection always comes from a matching gs_usb entry of the list, and it is the
   * first: every entry before it was passed over without an error or a match.
   */
  lemma {:induction false} SelectedIsMatchingGsUsb(devs: seq<UsbDevice>, m: Matcher, index: nat)
    requires ScanFrom(devs, m, index).Selected?
    ensures exists k: nat :: SelectedAt(devs, m, index, k, ScanFrom(devs, m, index).selection)
    decreases |devs|
  {
    var d := devs[0];
    var s := ScanFrom(devs, m, index).selection;
    if Candidate(d) && m(index, d.descriptor.value, d.bus, d.address) {
      assert Examined(devs[..0]) == 0;
      assert SelectedAt(devs, m, index, 0, s);
    } else {
      var rest := devs[1..];
      var index' := index + if Candidate(d) then 1 else 0;
      ScanSkips(devs, m, index);
      assert PassedOver(d, m, index);
      SelectedIsMatchingGsUsb(rest, m, index');
      var k: nat :| SelectedAt(rest, m, index', k, s);
      SelectedAtShift(devs, m, index, k, s);
    }
  }

  /** A device that is not selected passes the scan on to the rest of the list. */
  lemma ScanSkips(devs: seq<UsbDevice>, m: Matcher, index: nat)
    requires |devs| > 0 && ScanFrom(devs, m, index).Selected?
    requires !(Candidate(devs[0]) && m(index, devs[0].descriptor.value, devs[0].bus, devs[0].address))
    ensures ScanFrom(devs, m, index) == ScanFrom(devs[1..], m, index + if Candidate(devs[0]) then 1 else 0)
  {
  }

  /**
   * Devices after the point where the scan stops cannot change its result: a match found
   * before an error is still returned, and the first error is the one reported.
   */
  lemma {:induction false} ScanStopsEarly(devs: seq<UsbDevice>, more: seq<UsbDevice>, m: Matcher, index: nat)
    requires !ScanFrom(devs, m, index).NoMatch?
    ensures ScanFrom(devs + more, m, index) == ScanFrom(devs, m, index)
    decreases |devs|
  {
    assert (devs + more)[0] == devs[0];
    assert (devs + more)[1..] == devs[1..] + more;
    var d := devs[0];
    if d.descriptor.Ok? && IsGsUsb(d.descriptor.value) {
      var iface := InterfaceOf(d.activeConfig, d.firstConfig);
      if iface.Ok? && iface.value.Some? && d.open.Ok?
         && !m(index, d.descriptor.value, d.bus, d.address) {
        ScanStopsEarly(devs[1..], more, m, index + 1);
      } else if iface.Ok? && iface.value.None? {
        ScanStopsEarly(devs[1..], more, m, index);
      }
    } else if d.descriptor.Ok? {
      ScanStopsEarly(devs[1..], more, m, index);
    }
  }

  /** "auto", in any case and with any surrounding whitespace, matches every candidate. */
  lemma AutoMatchesAll(identifier: string)
    requires EqIgnoreAsciiCase(Trim(identifier), "auto")
    ensures forall index, desc, bus, address :: IdentifierMatcher(identifier)(index, desc, bus, address)
  {
  }

  /**
   * A matcher that accepts every candidate (as "auto" does) takes the first gs_usb device
   * it can open with a usable interface: the scan reports no match only when the list
   * holds no such device and no device fails.
   */
  lemma {:induction false} AcceptAllFindsAny(devs: seq<UsbDevice>, m: Matcher, index: nat)
    requires forall index, desc, bus, address :: m(index, desc, bus, address)
    requires ScanFrom(devs, m, index).NoMatch?
    ensures forall k :: 0 <= k < |devs| ==>
      devs[k].descriptor.Ok?
      && (IsGsUsb(devs[k].descriptor.value) ==> InterfaceOf(devs[k].activeConfig, devs[k].firstConfig) == Ok(None))
    decreases |devs|
  {
    if |devs| > 0 {
      AcceptAllFindsAny(devs[1..], m, index);
      assert forall k :: 1 <= k < |devs| ==> devs[k] == devs[1..][k - 1];
    }
  }
}
