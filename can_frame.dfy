/**
 * The CAN frame value the drivers exchange (`crosscan::can::CanFrame`). That crate is
 * not part of this model, so its constructors are modelled on a NAMED ASSUMPTION about
 * their validation, stated once here and used everywhere:
 *
 *   - `new(id, data)`: standard data frame; accepted iff id <= 0x7FF and at most 8 bytes;
 *   - `new_eff(id, data)`: extended data frame; accepted iff id <= 0x1FFFFFFF and at most 8 bytes;
 *   - `new_remote(id, dlc, extended)`: remote request with no payload bytes; accepted iff the
 *     id fits 11 (29 if extended) bits and dlc <= 8;
 *   - `new_error(id)`: error frame with no payload; accepted iff id <= 0x1FFFFFFF;
 *   - `dlc()` is the payload length of a data frame and the requested length of a remote
 *     frame (0 for an error frame); `set_timestamp` replaces the timestamp only.
 */
module CanFrames {
  import opened Wrappers
  import opened Bytes

  const SFF_MAX: nat := 0x7FF
  const EFF_MAX: nat := 0x1FFF_FFFF
  const CLASSIC_MAX_DLC: nat := 8

  datatype CanFrame = CanFrame(
    id: nat,
    extended: bool,
    rtr: bool,
    error: bool,
    dlc: nat,
    data: seq<byte>,
    timestamp: Option<u64>)

  /** What every constructor establishes (the named assumption above). */
  predicate ValidFrame(f: CanFrame)
  {
    && f.id <= (if f.extended then EFF_MAX else if f.error then EFF_MAX else SFF_MAX)
    && (f.error ==> !f.extended && !f.rtr && f.dlc == 0 && f.data == [])
    && (f.rtr ==> f.data == [] && f.dlc <= CLASSIC_MAX_DLC)
    && (!f.rtr && !f.error ==> f.dlc == |f.data| <= CLASSIC_MAX_DLC)
  }

  /** A data (not remote, not error) frame. */
  predicate IsDataFrame(f: CanFrame)
  {
    !f.rtr && !f.error
  }

  /** `CanFrame::new(id, data)`. */
  function New(id: nat, data: seq<byte>): (r: Option<CanFrame>)
    ensures r.Some? <==> id <= SFF_MAX && |data| <= CLASSIC_MAX_DLC
    ensures r.Some? ==> ValidFrame(r.value) && IsDataFrame(r.value) && !r.value.extended
    ensures r.Some? ==> r.value.id == id && r.value.data == data && r.value.timestamp == None
  {
    if id <= SFF_MAX && |data| <= CLASSIC_MAX_DLC
    then Some(CanFrame(id, false, false, false, |data|, data, None))
    else None
  }

  /** `CanFrame::new_eff(id, data)`. */
  function NewEff(id: nat, data: seq<byte>): (r: Option<CanFrame>)
    ensures r.Some? <==> id <= EFF_MAX && |data| <= CLASSIC_MAX_DLC
    ensures r.Some? ==> ValidFrame(r.value) && IsDataFrame(r.value) && r.value.extended
    ensures r.Some? ==> r.value.id == id && r.value.data == data && r.value.timestamp == None
  {
    if id <= EFF_MAX && |data| <= CLASSIC_MAX_DLC
    then Some(CanFrame(id, true, false, false, |data|, data, None))
    else None
  }

  /** `CanFrame::new_remote(id, dlc, extended)`. */
  function NewRemote(id: nat, dlc: nat, extended: bool): (r: Option<CanFrame>)
    ensures r.Some? <==> id <= (if extended then EFF_MAX else SFF_MAX) && dlc <= CLASSIC_MAX_DLC
    ensures r.Some? ==> ValidFrame(r.value) && r.value.rtr && r.value.extended == extended
    ensures r.Some? ==> r.value.id == id && r.value.dlc == dlc && r.value.timestamp == None
  {
    if id <= (if extended then EFF_MAX else SFF_MAX) && dlc <= CLASSIC_MAX_DLC
    then Some(CanFrame(id, extended, true, false, dlc, [], None))
    else None
  }

  /** `CanFrame::new_error(id)`. */
  function NewError(id: nat): (r: Option<CanFrame>)
    ensures r.Some? <==> id <= EFF_MAX
    ensures r.Some? ==> ValidFrame(r.value) && r.value.error && r.value.id == id && r.value.timestamp == None
  {
    if id <= EFF_MAX then Some(CanFrame(id, false, false, true, 0, [], None)) else None
  }

  /** `frame.set_timestamp(ts)`. */
  function SetTimestamp(f: CanFrame, ts: Option<u64>): (g: CanFrame)
    ensures g.timestamp == ts && ValidFrame(g) == ValidFrame(f)
    ensures g.(timestamp := f.timestamp) == f
  {
    f.(timestamp := ts)
  }
}
