/**
 * Constants and branch-only helpers of the gs_usb protocol as the live driver defines
 * them (src/drivers/gs_usb/constants.rs): record sizes, control request numbers, the
 * MODE command values and flag bits, the feature bits, the Linux `<linux/can.h>` id flag
 * layout, the USB `bmRequestType` bytes and the libusb timeout conversion.
 */
module GsConstants {
  import opened Bytes

  // Record sizes.
  const GS_HEADER_LEN: nat := 12
  const GS_TS_LEN: nat := 4
  const GS_MAX_DATA: nat := 64
  const GS_MAX_FRAME_LEN: nat := GS_HEADER_LEN + GS_TS_LEN + GS_MAX_DATA
  const GS_TX_FRAME_SIZE: nat := GS_HEADER_LEN + GS_MAX_DATA
  const USB_READ_BYTES: nat := GS_MAX_FRAME_LEN
  const GS_CAN_ECHO_ID_UNUSED: u32 := 0xFFFF_FFFF

  // bRequest values.
  const GS_USB_BREQ_HOST_FORMAT: byte := 0x00
  const GS_USB_BREQ_BITTIMING: byte := 0x01
  const GS_USB_BREQ_MODE: byte := 0x02
  const GS_USB_BREQ_BERR: byte := 0x03
  const GS_USB_BREQ_BT_CONST: byte := 0x04
  const GS_USB_BREQ_DEVICE_CONFIG: byte := 0x05
  const GS_USB_BREQ_TIMESTAMP: byte := 0x06
  const GS_USB_BREQ_BT_CONST_EXT: byte := 0x0B

  // MODE command values.
  const GS_CAN_MODE_RESET: u32 := 0
  const GS_CAN_MODE_START: u32 := 1

  // MODE flag bits.
  const GS_CAN_MODE_LISTEN_ONLY: u32 := 0x0001
  const GS_CAN_MODE_LOOP_BACK: u32 := 0x0002
  const GS_CAN_MODE_TRIPLE_SAMPLE: u32 := 0x0004
  const GS_CAN_MODE_ONE_SHOT: u32 := 0x0008
  const GS_CAN_MODE_HW_TIMESTAMP: u32 := 0x0010
  const GS_CAN_MODE_PAD_PKTS_TO_MAX_PKT_SIZE: u32 := 0x0080
  const GS_CAN_MODE_FD: u32 := 0x0100
  const GS_CAN_MODE_BERR_REPORTING: u32 := 0x1000

  // Feature bits reported by BT_CONST / BT_CONST_EXT: feature k is bit k.
  const GS_CAN_FEATURE_LISTEN_ONLY: u32 := 0x0001
  const GS_CAN_FEATURE_LOOP_BACK: u32 := 0x0002
  const GS_CAN_FEATURE_TRIPLE_SAMPLE: u32 := 0x0004
  const GS_CAN_FEATURE_ONE_SHOT: u32 := 0x0008
  const GS_CAN_FEATURE_HW_TIMESTAMP: u32 := 0x0010
  const GS_CAN_FEATURE_IDENTIFY: u32 := 0x0020
  const GS_CAN_FEATURE_USER_ID: u32 := 0x0040
  const GS_CAN_FEATURE_PAD_PKTS_TO_MAX_PKT_SIZE: u32 := 0x0080
  const GS_CAN_FEATURE_FD: u32 := 0x0100
  const GS_CAN_FEATURE_REQ_USB_QUIRK_LPC546XX: u32 := 0x0200
  const GS_CAN_FEATURE_BT_CONST_EXT: u32 := 0x0400
  const GS_CAN_FEATURE_TERMINATION: u32 := 0x0800
  const GS_CAN_FEATURE_BERR_REPORTING: u32 := 0x1000
  const GS_CAN_FEATURE_GET_STATE: u32 := 0x2000

  // CAN id flags and masks, laid out as in Linux <linux/can.h>.
  const CAN_EFF_FLAG: u32 := 0x8000_0000
  const CAN_RTR_FLAG: u32 := 0x4000_0000
  const CAN_ERR_FLAG: u32 := 0x2000_0000
  const CAN_SFF_MASK: u32 := 0x0000_07FF
  const CAN_EFF_MASK: u32 := 0x1FFF_FFFF
  const CAN_ERR_MASK: u32 := 0x1FFF_FFFF

  /** The record sizes follow from the header, timestamp and payload sizes. */
  lemma FrameSizes()
    ensures GS_MAX_FRAME_LEN == 80 && GS_TX_FRAME_SIZE == 76 && USB_READ_BYTES == 80
  {
  }

  /** The MODE flags the driver composes are single bits, so OR-ing them loses nothing. */
  lemma ModeFlagsAreSingleBits()
    ensures GS_CAN_MODE_LISTEN_ONLY == Pow2(0) && GS_CAN_MODE_LOOP_BACK == Pow2(1)
    ensures GS_CAN_MODE_TRIPLE_SAMPLE == Pow2(2) && GS_CAN_MODE_ONE_SHOT == Pow2(3)
    ensures GS_CAN_MODE_HW_TIMESTAMP == Pow2(4) && GS_CAN_MODE_PAD_PKTS_TO_MAX_PKT_SIZE == Pow2(7)
    ensures GS_CAN_MODE_FD == Pow2(8) && GS_CAN_MODE_BERR_REPORTING == Pow2(12)
  {
  }

  /** The feature flags are the single bits 0 to 13, in declaration order. */
  lemma FeatureFlagsAreSingleBits()
    ensures GS_CAN_FEATURE_LISTEN_ONLY == Pow2(0) && GS_CAN_FEATURE_LOOP_BACK == Pow2(1)
    ensures GS_CAN_FEATURE_TRIPLE_SAMPLE == Pow2(2) && GS_CAN_FEATURE_ONE_SHOT == Pow2(3)
    ensures GS_CAN_FEATURE_HW_TIMESTAMP == Pow2(4) && GS_CAN_FEATURE_IDENTIFY == Pow2(5)
    ensures GS_CAN_FEATURE_USER_ID == Pow2(6) && GS_CAN_FEATURE_PAD_PKTS_TO_MAX_PKT_SIZE == Pow2(7)
    ensures GS_CAN_FEATURE_FD == Pow2(8) && GS_CAN_FEATURE_REQ_USB_QUIRK_LPC546XX == Pow2(9)
    ensures GS_CAN_FEATURE_BT_CONST_EXT == Pow2(10) && GS_CAN_FEATURE_TERMINATION == Pow2(11)
    ensures GS_CAN_FEATURE_BERR_REPORTING == Pow2(12) && GS_CAN_FEATURE_GET_STATE == Pow2(13)
  {
  }

  // ---------------------------------------------------------------- control request types

  // bmRequestType parts as libusb names them.
  const LIBUSB_ENDPOINT_IN: bv8 := 0x80
  const LIBUSB_ENDPOINT_OUT: bv8 := 0x00
  const LIBUSB_REQUEST_TYPE_VENDOR: bv8 := 0x40
  const LIBUSB_RECIPIENT_INTERFACE: bv8 := 0x01

  /**
   * A `bmRequestType` byte as section 9.3.1 of the USB 2.0 specification lays it out:
   * bit 7 the direction (1 = device to host), bits 6..5 the type (2 = vendor) and
   * bits 4..0 the recipient (1 = interface).
   */
  predicate IsVendorInterfaceRequest(t: byte, deviceToHost: bool)
  {
    (t / 128 == 1) == deviceToHost && (t / 32) % 4 == 2 && t % 32 == 1
  }

  /** `request_type_out()`: vendor | interface | OUT. */
  function RequestTypeOut(): (t: byte)
    ensures t == 0x41 && IsVendorInterfaceRequest(t, false)
  {
    (LIBUSB_REQUEST_TYPE_VENDOR | LIBUSB_RECIPIENT_INTERFACE | LIBUSB_ENDPOINT_OUT) as int
  }

  /** `request_type_in()`: vendor | interface | IN. */
  function RequestTypeIn(): (t: byte)
    ensures t == 0xC1 && IsVendorInterfaceRequest(t, true)
  {
    (LIBUSB_REQUEST_TYPE_VENDOR | LIBUSB_RECIPIENT_INTERFACE | LIBUSB_ENDPOINT_IN) as int
  }

  // ---------------------------------------------------------------- timeouts

  /** `std::time::Duration`: whole seconds and a nanosecond part below one second. */
  type Nanos = n: nat | n < 1_000_000_000
  datatype Duration = Duration(secs: u64, nanos: Nanos)

  function TotalNanos(d: Duration): nat
  {
    d.secs * 1_000_000_000 + d.nanos
  }

  /** `Duration::as_millis`: whole milliseconds, rounded down. */
  function AsMillis(d: Duration): nat
  {
    d.secs * 1000 + d.nanos / 1_000_000
  }

  predicate IsZero(d: Duration)
  {
    d.secs == 0 && d.nanos == 0
  }

  /**
   * `duration_to_timeout`: the libusb timeout in milliseconds, where 0 means "wait
   * forever". Only a zero duration maps to 0; a shorter-than-1-ms duration waits 1 ms;
   * longer ones are cut to whole milliseconds and clamped to u32::MAX.
   */
  function DurationToTimeout(d: Duration): (t: u32)
    ensures t == 0 <==> IsZero(d)
    ensures !IsZero(d) && AsMillis(d) == 0 ==> t == 1
    ensures 1 <= AsMillis(d) <= U32_MAX ==> t == AsMillis(d)
    ensures AsMillis(d) > U32_MAX ==> t == U32_MAX
  {
    if IsZero(d) then 0
    else
      var millis := AsMillis(d);
      if millis == 0 then 1
      else if millis > U32_MAX then U32_MAX
      else millis
  }

  /** `as_millis` is the total nanosecond count divided by a million. */
  lemma AsMillisOfNanos(d: Duration)
    ensures AsMillis(d) == TotalNanos(d) / 1_000_000
  {
    var q := d.nanos / 1_000_000;
    var r := d.nanos % 1_000_000;
    assert TotalNanos(d) == (d.secs * 1000 + q) * 1_000_000 + r;
    DivModUnique(TotalNanos(d), 1_000_000, d.secs * 1000 + q, r);
  }

  /** A longer duration never gets a shorter timeout. */
  lemma {:induction false} TimeoutMonotone(d1: Duration, d2: Duration)
    requires TotalNanos(d1) <= TotalNanos(d2)
    ensures DurationToTimeout(d1) <= DurationToTimeout(d2)
  {
    AsMillisOfNanos(d1);
    AsMillisOfNanos(d2);
    DivMonotone(TotalNanos(d1), TotalNanos(d2), 1_000_000);
    var m1, m2 := AsMillis(d1), AsMillis(d2);
    assert m1 <= m2;
    assert IsZero(d2) ==> IsZero(d1) by { ZeroIffNoNanos(d1); ZeroIffNoNanos(d2); }
  }

  lemma ZeroIffNoNanos(d: Duration)
    ensures IsZero(d) <==> TotalNanos(d) == 0
  {
  }

  lemma DivMonotone(a: nat, b: nat, d: nat)
    requires a <= b && d > 0
    ensures a / d <= b / d
  {
    var qa, qb := a / d, b / d;
    if qa > qb {
      assert d * qa >= d * (qb + 1) by { MulLeft(d, qb + 1, qa); }
    }
  }

  lemma MulLeft(d: nat, a: nat, b: nat)
    requires a <= b
    ensures d * a <= d * b
  {
    assert d * b == d * a + d * (b - a);
  }
}
