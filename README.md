# win-can-utils, modelled in Dafny

win-can-utils bridges CAN adapters to Windows named pipes. A server (`canserver`)
brings up one adapter driver and relays frames between it and the pipes, and the
command-line tools (`cansend`, `candump`) talk to the server. Three adapter families
are driven:

- gs_usb (candleLight-style USB adapters), in three generations of the code:
  - the live tree under `src/drivers/gs_usb/`;
  - an older layout under `src/gs_usb/`;
  - a single-file driver `src/gs_usb.rs`.
- slcan serial adapters.
- PEAK adapters through the PCAN-Basic library.

This project models the byte- and text-level codecs and the state rules of those
drivers and tools, and proves properties of them.

Modules, one per source file or per concern:

| module | models |
|---|---|
| `Wrappers`, `Bytes`, `Text`, `Hex` | shared helpers: Option/Result and the I/O error kinds; little-endian integer layouts; the Rust string operations the parsers use (`trim`, `split`, `split_once`, `strip_prefix`, `from_str_radix`, zero-padded hex formatting); two-digit hex byte fields |
| `CanFrames` | the `CanFrame` value and its four constructors |
| `GsConstants`, `GsFrames`, `GsBitTiming`, `GsDevice`, `GsDriver` | the live gs_usb tree: constants, the receive decoder, the control payloads and bit-timing search, device and interface selection, and the driver with its USB event loop |
| `GsLegacyCodec`, `GsLegacyDriver` | the older gs_usb layout |
| `GsMono` | the single-file gs_usb driver |
| `Slcan`, `Pcan` | the slcan and PCAN drivers |
| `Cansend`, `Candump`, `Canserver` | the three command-line programs |

How the outside world is modelled:

- **USB transfers, serial reads and writes, PCAN-Basic calls.** These are never performed.
  - The outcome of each call is a parameter of the method that makes it.
  - The requests a driver issues are appended, in order, to a transcript field of its class (`issued`, `sent`, `written`).
  - Where the source calls a library with arguments, the model returns those arguments so that contracts can state them.
- **The channels between the live driver and its USB event loop** become direct method calls.
- **Frames read by the live driver** are the event loop's `delivered` sequence.
- **`crosscan::CanFrame`** is not part of this model. Its constructors are modelled on a named assumption, stated in `can_frame.dfy`:
  - `new` accepts ids up to 0x7FF with at most 8 bytes;
  - `new_eff` accepts ids up to 0x1FFFFFFF with at most 8 bytes;
  - `new_remote` accepts an id that fits its format, with dlc <= 8;
  - `new_error` accepts ids up to 0x1FFFFFFF.
- **Bit operations on ids and flags** are written as division and remainder on unbounded integers, which are restricted to the source's widths by subset types.
- **Wrap-around** is written out where the source relies on it:
  - the slcan timestamp high word wraps at 2^32;
  - the gs_usb timestamp carry wraps at 2^64.

Receive reassembly follows the same pattern in every driver: append a chunk, peel off
complete records with a cursor, drain the consumed prefix. Each receive method is a
loop proved against a recursive specification function:

- `GsDriver.Drain` for the gs_usb trees;
- `Slcan.LinesFrom` for slcan;
- `Pcan.Drain` for PCAN.

The properties of the reassembly (order, the kept tail, what a split stream decodes to)
are proved about those functions.

The three gs_usb generations share what they share: the DLC table, the byte layouts,
`duration_to_timeout` and the id decoding are identical in the three files and are
modelled once. `src/gs_usb.rs`'s `calc_bit_timing` is the same as
`src/gs_usb/bit_timing.rs`'s and is modelled by `GsLegacyCodec.CalcBitTiming`.

## Model

| member | source | states |
|---|---|---|
| Candump.FromChar | src/bin/candump.rs:108-118 | a mode exactly for `a`, `A`, `d` and `z`, and each letter gives the mode it names |
| Candump.FromModeChar | src/bin/candump.rs:108-118 | every selectable mode comes back from its own letter |
| Candump.ModeOf | src/bin/candump.rs:289-292 | there is no timestamp exactly when `-t` is absent or its letter is not one of the four; otherwise the mode is the one its letter names |
| Candump.Timestamp | src/bin/candump.rs:139-146 | with `-H`, the frame's own timestamp, or 0 when it has none, whatever the mode; without it, no timestamp exactly in the no-timestamp mode, and otherwise the selected clock's reading |
| Candump.TimestampTextReadsBack | src/bin/candump.rs:315-317 | the timestamp prints as `(` seconds `.` exactly six digits of microseconds `) `, and the two numbers read back give the timestamp |
| Candump.IdFieldLayout | src/bin/candump.rs:319-322 | the id column is eight wide: spaces, then the id in upper-case hex, eight digits for an extended frame and three for a standard one, which reads back as the id |
| Candump.DataTextReadsBack | src/bin/candump.rs:329-334 | the data column splits at its spaces into one two-digit upper-case hex text per byte, which reads back as the byte |
| Candump.DumpLine | src/bin/candump.rs:315-335 | the printed line starts with the timestamp text and the interface name, then a space and the id column, and ends with the data column |
| Candump.HexU32Format | src/bin/candump.rs:267-276 | `u32::from_str_radix(_, 16)` reads back any number formatted in hex, in either case and at any width |
| Candump.PlainHex | src/bin/candump.rs:267-276 | a text of hex digits carries neither prefix, so `parse_hex` parses it whole |
| Candump.ParseHexFormat | src/bin/candump.rs:267-276 | a hex-formatted number with no prefix, `0x` or `0X` parses back as itself |
| Candump.HexTextParse | src/bin/candump.rs:263-276 | a non-empty text for which `is_hex` holds parses as its value when that fits 32 bits, and as an overflow error when it does not |
| Candump.ParseInterfaceSpec | src/bin/candump.rs:204-252 | the token loop yields exactly the parse of the whole argument: its name, and its filters in order or the first token's error |
| Candump.SpecName | src/bin/candump.rs:206-211 | the interface name is the text before the first comma, or the whole argument when it has none |
| Candump.FiltersOutcome | src/bin/candump.rs:212-250 | the filters come out exactly when every token after the name parses; otherwise the error is that of the first token that fails |
| Candump.MaskToken | src/bin/candump.rs:221-226 | a `#` token whose rest parses is that error mask |
| Candump.ColonPair | src/bin/candump.rs:227-232 | a token with a `:` is a `Match` of the fields either side of its first `:` |
| Candump.TildePair | src/bin/candump.rs:233-238 | a token with no `:` and a `~` is a `NotMatch` of the fields either side of its first `~` |
| Candump.ParseFilterText | src/bin/candump.rs:212-250 | every filter has a token that parses back to it: `j`, `#mask`, `id:mask`, `id~mask`, or a bare id for a match under the all-ones mask |
| Candump.FiltersOfJoined | src/bin/candump.rs:206-216 | a comma-free name and comma-free tokens joined with commas split back into the name and the tokens, so the tokens' filters come back in order |
| Candump.SpecRoundTrip | src/bin/candump.rs:204-252 | an argument written from a comma-free name and any filters parses back to that name and those filters |
| Candump.BareHexId | src/bin/candump.rs:240-247 | a bare all-hex token matches its id under the all-ones mask when it fits 32 bits, and is an overflow error naming it otherwise |
| Candump.PrefixedBareIdUnrecognized | src/bin/candump.rs:240-250 | a bare `0x` id is not all hex, so it is an unrecognised token rather than a filter |
| Candump.ColonBeforeTilde | src/bin/candump.rs:227-238 | `:` is looked for before `~`: a hex id, a `:` and any rest is read as an id/mask pair |
| Candump.TildeNotHex | src/bin/candump.rs:267-276 | a field holding a `~` never parses as hex, with or without a prefix |
| Candump.TildeInMaskRejected | src/bin/candump.rs:227-232 | a `:` pair whose mask holds a `~` is an error, not a negated filter |
| CanFrames.New | src/bin/cansend.rs:95-103 | `CanFrame::new` under the stated assumption: a standard data frame exactly when id <= 0x7FF and there are at most 8 bytes; it carries that id and those bytes, dlc = byte count, no timestamp |
| CanFrames.NewEff | src/bin/cansend.rs:87-94 | `CanFrame::new_eff`: an extended data frame exactly when id <= 0x1FFFFFFF and there are at most 8 bytes, with that id and data |
| CanFrames.NewRemote | src/drivers/gs_usb/frames.rs:159-169 | `CanFrame::new_remote`: a remote request exactly when the id fits 11 (29 if extended) bits and dlc <= 8; it keeps id, dlc and format |
| CanFrames.NewError | src/drivers/gs_usb/frames.rs:156-157 | `CanFrame::new_error`: an error frame exactly when id <= 0x1FFFFFFF |
| CanFrames.SetTimestamp | src/drivers/gs_usb/frames.rs:191 | `set_timestamp` replaces the timestamp and nothing else; validity is unchanged |
| GsConstants.FrameSizes | src/drivers/gs_usb/constants.rs:23-29 | GS_MAX_FRAME_LEN = 12+4+64 = 80, GS_TX_FRAME_SIZE = 12+64 = 76, USB_READ_BYTES = 80 |
| Bytes.Pow2Bit | src/drivers/gs_usb/constants.rs:64-71 | testing the flag `1 << j` in the word `1 << k` finds it set exactly when j == k, so single-bit flags ORed into one word never show up in one another |
| GsConstants.ModeFlagsAreSingleBits | src/drivers/gs_usb/constants.rs:64-71 | every GS_CAN_MODE_* flag is the single bit its shift names (LISTEN_ONLY bit 0, HW_TIMESTAMP bit 4, PAD_PKTS bit 7, ...) |
| GsConstants.FeatureFlagsAreSingleBits | src/drivers/gs_usb/constants.rs:77-90 | the GS_CAN_FEATURE_* flags are bits 0 to 13 in declaration order |
| GsConstants.RequestTypeOut | src/drivers/gs_usb/constants.rs:119-122 | `request_type_out()` is 0x41, a host-to-device vendor request to an interface in the layout of section 9.3.1 of the USB 2.0 specification |
| GsConstants.RequestTypeIn | src/drivers/gs_usb/constants.rs:124-127 | `request_type_in()` is 0xC1, the device-to-host form of the same request |
| GsConstants.DurationToTimeout | src/drivers/gs_usb/constants.rs:129-143 | the timeout is 0 exactly for a zero duration; otherwise it is the whole milliseconds, raised to 1 when below 1 ms and clamped to u32::MAX, so a non-zero duration never means "wait forever" |
| GsConstants.AsMillisOfNanos | src/drivers/gs_usb/constants.rs:135 | `as_millis` is the total nanosecond count divided by one million, rounded down |
| GsConstants.TimeoutMonotone | src/drivers/gs_usb/constants.rs:129-143 | a longer duration never gets a shorter timeout |
| GsFrames.DlcToLen | src/drivers/gs_usb/frames.rs:9-22 | `dlc_to_len` keeps codes 0..8, maps codes above 15 to 0, and never exceeds 64 |
| GsFrames.DlcToLenIncreasing | src/drivers/gs_usb/frames.rs:9-22 | over the codes 0..15 the table is strictly increasing (so 9..15 give 12,16,20,24,32,48,64 in order and no two codes share a length) |
| GsFrames.RoundUp8 | src/drivers/gs_usb/frames.rs:24-27 | `roundup8(x)` is the least multiple of 8 that is >= x |
| GsFrames.AlignUp | src/drivers/gs_usb/frames.rs:29-32 | `align_up(x, m)` is x when m = 0, else the least multiple of m that is >= x |
| GsFrames.RecordLen | src/drivers/gs_usb/frames.rs:87-136 | a record is at least header + 8 payload bytes (+ 4 with timestamps) long |
| GsFrames.DecodePriority | src/drivers/gs_usb/frames.rs:156-174 | ERR flag gives an error frame with the low 29 bits; else RTR gives a remote frame with dlc min(dlc, 8) and the id masked by EFF; else EFF gives a 29-bit data frame, otherwise an 11-bit one; only a data payload over 8 bytes is rejected |
| GsFrames.UnwrapTimestamp | src/drivers/gs_usb/frames.rs:177-190 | the 64-bit timestamp's low 32 bits are the device's counter; with no previous value it is the counter itself; otherwise it is at or after the previous value and less than 2^32 beyond it, unless the high word is at its maximum |
| GsFrames.UnwrapCarryOverflow | src/drivers/gs_usb/frames.rs:182-186 | when the high word is already 0xFFFFFFFF and the counter wraps, the carry overflows (a release build wraps) and the result falls back to the bare counter |
| GsFrames.ParseHostFrameAt | src/drivers/gs_usb/frames.rs:51-200 | every consuming answer takes at least 1 and at most the buffer's bytes; any step other than a 1-byte resync consumes exactly one record length; a produced frame carries the new timestamp when timestamps are on; the timestamp state changes only for a produced, timestamped frame |
| GsFrames.ParseHostFrameAtAsWritten | src/drivers/gs_usb/frames.rs:106-154 | the function as the source writes it: it panics only with timestamps and padding both off, on a buffer holding a whole header but fewer bytes than header plus payload; a consuming answer needs a whole header and takes at least one byte, with no bound by the buffer length |
| GsFrames.ParseExtends | src/drivers/gs_usb/frames.rs:51-200 | once a prefix of the buffer is enough to consume, appending bytes does not change the answer (records decode the same however the stream is split into transfers) |
| GsFrames.ParseNeedsWholeRecord | src/drivers/gs_usb/frames.rs:62-69 | fewer bytes than a header, or than the whole record with timestamp and padding, means "need more bytes" and leaves the timestamp state alone |
| GsFrames.ParseResyncsByOneByte | src/drivers/gs_usb/frames.rs:82-85 | a DLC code above 15, or a whole record for another channel, is a 1-byte resync |
| GsFrames.ParseSkipsTxEcho | src/drivers/gs_usb/frames.rs:143-150 | a whole record whose echo id is not 0xFFFFFFFF (a TX echo) is skipped whole, with no frame |
| GsFrames.ParseDecodesRecord | src/drivers/gs_usb/frames.rs:152-199 | a whole record on the expected channel decodes to the frame its id, DLC and payload stand for, stamped with the unwrapped timestamp that follows the aligned payload, and consumes one record length; a rejected frame reads as "need more bytes" |
| GsFrames.RejectedRecordNeverConsumed | src/drivers/gs_usb/frames.rs:170-174 | a data record with DLC 9..15 is rejected by the classic constructor and, however many bytes follow, is never consumed |
| GsFrames.AsWrittenAgreesWhenChecked | src/drivers/gs_usb/frames.rs:95-136 | with timestamps or padding on, DLC 0, or the whole record present, the source as written gives exactly the corrected decoder's answer and never panics |
| GsFrames.AsWrittenSlicesPastEnd | src/drivers/gs_usb/frames.rs:152-154 | a 12-byte buffer holding a header for a 1-byte frame makes the source's payload slice panic when timestamps and padding are off |
| GsFrames.AsWrittenOverConsumes | src/drivers/gs_usb/frames.rs:143-150 | a 16-byte buffer with a TX echo header and DLC 4 is reported as consuming 20 bytes, more than it holds; the corrected decoder waits |
| Canserver.SelectDriver | src/bin/canserver.rs:240-253 | a driver exactly for the lower-cased names `slcan`, `pcan`, `gsusb` and `gs_usb`, the one listed under that name; otherwise an error echoing the lower-cased name |
| Canserver.SelectDriverName | src/bin/canserver.rs:240-253 | each driver is selected by the name it is listed under |
| Canserver.SelectDriverIgnoresCase | src/bin/canserver.rs:241 | names equal up to ASCII case select the same driver, or give the same error |
| Canserver.NextAutoChannel | src/bin/canserver.rs:19-33 | the name returned is the base followed by the least index whose inbound pipe does not exist |
| Canserver.AutoNamesDistinct | src/bin/canserver.rs:22-23 | different indices give different names, so the probe never tries a name twice |
| Canserver.ServerChannel | src/bin/canserver.rs:328-332 | the channel served is `next_auto_channel("can")` for `auto` in any case, and the given channel otherwise |
| Canserver.FirstAcceptedIsFirst | src/bin/canserver.rs:55-63 | the auto-detect search finds a name exactly when one is accepted, and then the earliest one |
| Canserver.AutoDetect | src/bin/canserver.rs:131-143 | the auto-detect loop stops at the first name that opens, and finds none only when none does |
| Canserver.PcanChannel | src/bin/canserver.rs:49-86 | an explicit channel is used as given and succeeds iff `PcanDriver::open` accepts it; `auto` succeeds iff one of the eight common channels opens, and then gives the first of them, in order, that does |
| Canserver.PcanAutoIsUsbBus1 | src/bin/canserver.rs:49-76 | since opening a PCAN channel only parses its name, `auto` always settles on `USBBUS1` |
| Canserver.SlcanPort | src/bin/canserver.rs:114-167 | an explicit port is used as given and succeeds iff it opens; `auto` succeeds iff the port listing worked and some listed port answered the version query, and then gives the first such port |
| Canserver.ExplicitBitrate | src/bin/canserver.rs:91-100 | the bitrate is the `-b` value when given, and otherwise the error with the driver's own message |
| Canserver.SlcanBitrate | src/bin/canserver.rs:183-206 | the `-b` value when given; without it, a rate only from Cyder-Canable firmware whose measured rate could be read, and otherwise the error for the case at hand |
| Canserver.CyderVersions | src/bin/canserver.rs:186 | any version starting with `CYDER-CANABLE` counts as that firmware, and the prefix is case-sensitive |
| Canserver.Start | src/bin/canserver.rs:104-106 | `set_bitrate`, `enable_timestamp`, `open_channel` are called in that order, each only when all before it succeeded; success means all three succeeded, and a failure is the first failing call's error |
| Canserver.StartOpensLast | src/bin/canserver.rs:104-106 | behind calls that never open the channel, the start sequence opens it as the very last call, right after a bitrate and timestamps |
| Canserver.PcanOrder | src/bin/canserver.rs:47-110 | `init_pcan` opens the channel only last, after its `-b` bitrate |
| Canserver.GsUsbOrder | src/bin/canserver.rs:218-237 | `init_gsusb` opens the channel only last, after its `-b` bitrate |
| Canserver.SlcanOrder | src/bin/canserver.rs:113-215 | `init_slcan` opens the channel only last, after the chosen bitrate |
| Canserver.BitrateBeforeOpen | src/bin/canserver.rs:240-253 | for every driver and every answer, the channel is opened only as the last call, just after a bitrate was set and timestamps enabled, and a successful bring-up made those three calls last with the `-b` bitrate when one was given |
| Canserver.BitrateSources | src/bin/canserver.rs:94-108 | pcan and gs_usb come up only with `-b`; slcan comes up without it only on Cyder-Canable firmware whose measured rate could be read, and then sets that rate |
| Canserver.PcanIgnoresClose | src/bin/canserver.rs:88-89 | a PCAN bring-up does not depend on how closing the channel went |
| Canserver.InitPcan | src/bin/canserver.rs:47-111 | a failed channel choice makes no call; otherwise the channel is closed first; without `-b` it fails and never opens the channel; it succeeds exactly when a channel was chosen, `-b` was given and the start sequence succeeds, and a success ends by opening the channel |
| Canserver.InitSlcan | src/bin/canserver.rs:113-216 | a failed port choice makes no call; otherwise the port is closed first; a failed version read after a good close stops with "Failed to get version"; the bitrate is measured only without `-b` on Cyder-Canable firmware; a success had a port, a good close, a version and a bitrate, and ends by opening the channel |
| Canserver.InitGsUsb | src/bin/canserver.rs:218-237 | a failed open makes no further call; otherwise the channel is closed first; without `-b` it fails and never opens the channel; it succeeds exactly when open and close succeed, `-b` was given and the start sequence succeeds, and a success ends by opening the channel |
| Canserver.InitializeDriver | src/bin/canserver.rs:240-253 | an unrecognised driver name fails with that error and makes no call; a success had a recognised name and ended by opening the channel |
| Canserver.Unframe | src/bin/canserver.rs:302-311 | a message read back carries at most 255 payload bytes |
| Canserver.FrameUnframe | src/bin/canserver.rs:302-311 | a framed payload unframes to itself, and a message that unframes is the framing of its payload |
| Canserver.Sent | src/bin/canserver.rs:299-313 | the payloads sent are at most 255 bytes each, at most one per frame |
| Canserver.Messages | src/bin/canserver.rs:308-310 | one message per sent payload |
| Canserver.ForwardBatch | src/bin/canserver.rs:299-313 | one batch queues exactly the framing of each encodable payload of at most 255 bytes, in frame order |
| Canserver.MessagesUnframe | src/bin/canserver.rs:302-311 | every queued message unframes to its payload, so reading them back gives the sent payloads in order |
| Canserver.SentAppend | src/bin/canserver.rs:299-313 | sending a batch is sending its parts one after the other |
| Canserver.OversizeDropped | src/bin/canserver.rs:304-307 | a frame whose serialization fails or exceeds 255 bytes is skipped whole, never cut, and the frames around it are sent as before |
| Canserver.SentOne | src/bin/canserver.rs:302-311 | one frame is sent whole or not at all |
| Canserver.ForwardCanToPipe | src/bin/canserver.rs:294-321 | the messages queued are those of every batch up to the first failed read, after which the loop stops |
| Canserver.Decoded | src/bin/canserver.rs:277-291 | at most one frame per inbound chunk |
| Canserver.ForwardPipeToCan | src/bin/canserver.rs:277-291 | every chunk that decodes is sent, in order, whatever earlier sends returned; chunks that do not decode are dropped; the failure count is the number of "Failed to send CAN frame" logs, one per refused send |
| Canserver.FailedSends | src/bin/canserver.rs:285-287 | the number of logged send failures is at most the number of frames and is zero iff every send succeeded |
| Canserver.FailedSendsSnoc | src/bin/canserver.rs:285-287 | one more send adds one logged failure exactly when the driver refuses it |
| Canserver.DecodedAppend | src/bin/canserver.rs:281-289 | decoding a stream is decoding its parts one after the other |
| Canserver.DecodedOne | src/bin/canserver.rs:281-289 | one chunk decodes to its frame or to nothing |
| Canserver.GarbageDropped | src/bin/canserver.rs:281-289 | a chunk that does not decode is dropped without disturbing the frames around it |
| Canserver.DecodedSent | src/bin/canserver.rs:277-313 | when decoding undoes encoding and every frame encodes within 255 bytes, what the outbound side sends the inbound side of a peer reads back frame for frame |
| GsBitTiming.ParseBtConst | src/drivers/gs_usb/bit_timing.rs:29-43 | the first 40 bytes of the buffer are exactly the BT_CONST layout of the result: ten little-endian u32s in field order |
| GsBitTiming.ParseBtConstRoundTrip | src/drivers/gs_usb/bit_timing.rs:29-43 | parsing the layout of any BT_CONST value gives that value back, whatever bytes follow |
| GsBitTiming.ToBytes | src/drivers/gs_usb/bit_timing.rs:45-55 | the BITTIMING payload is 20 bytes |
| GsBitTiming.ToBytesRoundTrip | src/drivers/gs_usb/bit_timing.rs:45-55 | reading the five u32s back from the payload recovers prop_seg, phase_seg1, phase_seg2, sjw and brp in that order |
| GsBitTiming.EncodeMode | src/drivers/gs_usb/bit_timing.rs:57-62 | the MODE payload is 8 bytes reading back as mode then flags |
| GsBitTiming.SplitTseg1Sound | src/drivers/gs_usb/bit_timing.rs:104-120 | inside the search space the split skips exactly tseg1 < 2, and otherwise gives phase_seg1 = tseg1/2 and prop_seg the rest, both at least 1 (the borrowing branch never runs) |
| GsBitTiming.Candidate | src/drivers/gs_usb/bit_timing.rs:93-130 | a point yields a timing exactly when it passes the 5% rate filter and tseg1 >= 2, and then the timing is (tseg1 - tseg1/2, tseg1/2, tseg2, min(sjw_max, tseg2), brp) |
| GsBitTiming.ChampionStep | src/drivers/gs_usb/bit_timing.rs:132-135 | the `best` update keeps, after each point, the first kept point of least score among those examined |
| GsBitTiming.ChampionDone | src/drivers/gs_usb/bit_timing.rs:90-140 | after the whole space, the champion is absent exactly when no point is kept, and otherwise has the least score of all kept points and is the first of them with that score |
| GsBitTiming.ScanTseg2 | src/drivers/gs_usb/bit_timing.rs:92-136 | the innermost loop leaves `best` holding the champion's timing and score for every point up to the next tseg1 |
| GsBitTiming.CalcBitTiming | src/drivers/gs_usb/bit_timing.rs:64-141 | None exactly when no point of the brp x tseg1 x tseg2 space passes the filter and the split; otherwise the timing of the first point of least score |
| GsDevice.LastBulkIsLast | src/drivers/gs_usb/device.rs:85-95 | the endpoint the loop keeps for a direction is the last bulk endpoint of that direction in the list; none exactly when there is no such endpoint |
| GsDevice.InfoOf | src/drivers/gs_usb/device.rs:76-83 | the information carries the alternate setting's interface and setting numbers |
| GsDevice.CollectEndpoints | src/drivers/gs_usb/device.rs:76-100 | the endpoint loop yields the last bulk IN, the last bulk OUT with its wMaxPacketSize (0 and 64 when absent) and the last interrupt IN |
| GsDevice.FirstFromSpec | src/drivers/gs_usb/device.rs:67-110 | the search finds nothing exactly when no alternate setting qualifies (vendor class 0xFF with both bulk endpoints), and otherwise the first one that does, interfaces first and settings second |
| GsDevice.FindInConfig | src/drivers/gs_usb/device.rs:65-110 | the nested loops return the search's answer for the configuration |
| GsDevice.FindGsUsbInterface | src/drivers/gs_usb/device.rs:54-110 | the active configuration is searched, or configuration 0 when there is none active; it errs exactly when the active lookup fails other than NotFound or the fallback fails |
| GsDevice.InterfaceOfQualifies | src/drivers/gs_usb/device.rs:71-105 | a chosen interface comes from a vendor-class setting with non-zero bulk IN and OUT endpoints, and no earlier setting qualifies |
| GsDevice.IndexSelects | src/drivers/gs_usb/device.rs:125-129 | a candidate's decimal index, as an identifier, selects it |
| GsDevice.BusAddressSelects | src/drivers/gs_usb/device.rs:143-146 | a candidate's own "BBB:AAA" text (three zero-padded decimal digits each) selects it, since trimming leaves it unchanged |
| GsDevice.AutoMatchesAll | src/drivers/gs_usb/device.rs:120-123 | "auto" in any case, with any surrounding whitespace, matches every candidate |
| GsDevice.FallbackLabelReadsBack | src/drivers/gs_usb/device.rs:149-156 | with neither product nor serial string the label is nine characters "vvvv:pppp" whose halves read back as the vendor and product ids in hex |
| GsDevice.SelectDevice | src/drivers/gs_usb/device.rs:158-239 | the loop with its result, index and error accumulators returns what the scan function says: a selection, the first error, the listing error, or NotFound naming the identifier |
| GsDevice.SelectedIsMatchingGsUsb | src/drivers/gs_usb/device.rs:167-212 | a selection always comes from a list entry with VID 0x1D50 and PID 0x606F, a usable interface and an open handle, which matches the identifier at the index counting the candidates before it; it is the first match: every earlier entry had a readable descriptor, no failed interface lookup or open if it was a gs_usb device, and did not match if it was a candidate |
| GsDevice.SelectedAtShift | src/drivers/gs_usb/device.rs:167-212 | an entry selected in the rest of the list, after a passed-over head entry, is selected in the whole list one place further on |
| GsDevice.ScanStopsEarly | src/drivers/gs_usb/device.rs:170-210 | devices after the point where the scan stops cannot change the result: the first error or the first match wins |
| GsDevice.AcceptAllFindsAny | src/drivers/gs_usb/device.rs:167-212 | with a matcher that accepts everything, as "auto" does, the scan reports no match only when every descriptor reads and no gs_usb device has a usable interface |
| GsDriver.TxCanIdFlags | src/drivers/gs_usb/driver.rs:792-807 | the EFF, RTR and ERR bits of the TX id word are exactly the frame's kind, and its low 29 / 11 bits are the masked id |
| GsDriver.TxRecord | src/drivers/gs_usb/driver.rs:785-861 | a TX record is header plus room bytes: echo id, flagged id word, DLC truncated to a byte, channel, two zero bytes, the payload cut to the room, then zeros |
| GsDriver.TxEchoIsSkipped | src/drivers/gs_usb/driver.rs:828-857 | the device's echo of a 20-byte TX record (echo id = counter mod 16) is skipped whole by the receive decoder and yields no frame |
| GsDriver.TxRecordDecodes | src/drivers/gs_usb/driver.rs:824-861 | with the "not an echo" marker, a 20-byte TX record of a valid frame decodes back to that frame (error frames lose all but 11 id bits) |
| GsDriver.TxIdDecodes | src/drivers/gs_usb/driver.rs:832-846 | the TX id word and payload decode, by the receive priority rules, to the frame they came from |
| GsDriver.PadTx | src/drivers/gs_usb/driver.rs:544-555 | with padding on and a non-zero wMaxPacketSize the buffer is zero-filled to the next multiple (less than one packet added); otherwise unchanged |
| GsDriver.ModeFlags | src/drivers/gs_usb/driver.rs:498-511 | the START flags word has HW_TIMESTAMP iff timestamps are on, PAD_PKTS iff padding is on, LISTEN_ONLY iff listen-only, and no other bit |
| GsDriver.ReadBtConst | src/drivers/gs_usb/driver.rs:707-736 | succeeds iff BT_CONST_EXT returns at least 40 bytes or BT_CONST does; the value is the layout of the first 40 bytes of the answer used |
| GsDriver.ReadFeatures | src/drivers/gs_usb/driver.rs:738-770 | the first LE u32 of a BT_CONST_EXT answer of at least 4 bytes, else of a BT_CONST answer of exactly 4 bytes; an error otherwise |
| GsDriver.OpenHandshake | src/drivers/gs_usb/driver.rs:448-474 | `open` succeeds iff HOST_FORMAT wrote 4 bytes, BT_CONST was read and DEVICE_CONFIG returned at least 4 bytes; the feature word is the little-endian value of the first four bytes of the extended BT_CONST answer when it has them, else of the plain 4-byte answer, and 0 when neither can be read |
| GsDriver.GsUsbDriver.constructor | src/drivers/gs_usb/driver.rs:404-474 | the driver after the handshake: channel 0, no bitrate, timestamps off, counter 0, padding iff the PAD_PKTS feature bit |
| GsDriver.GsUsbDriver.EncodeFrameMinimal | src/drivers/gs_usb/driver.rs:824-861 | a 20-byte record with echo id = counter mod 16; the counter advances by one, wrapping at 2^32 |
| GsDriver.GsUsbDriver.EncodeFrameTx76 | src/drivers/gs_usb/driver.rs:785-822 | the 76-byte record with the same echo id rule |
| GsDriver.GsUsbDriver.EncodeForDevice | src/drivers/gs_usb/driver.rs:864-871 | 76-byte records iff the FD feature bit is set |
| GsDriver.GsUsbDriver.MaybePadTx | src/drivers/gs_usb/driver.rs:544-555 | the remainder arithmetic gives exactly the padded buffer |
| GsDriver.GsUsbDriver.TryTx | src/drivers/gs_usb/driver.rs:884-927 | one bulk write; a stall with padding on turns padding off and sends one freshly encoded unpadded record; success iff a write covers its whole record; errors otherwise as the transfers report |
| GsDriver.GsUsbDriver.SendFrame | src/drivers/gs_usb/driver.rs:863-882 | encode, pad, then `try_tx`: the requests, the padding flag, the counter and the result in terms of the two transfers |
| GsDriver.GsUsbDriver.OpenWithFlags | src/drivers/gs_usb/driver.rs:498-542 | MODE RESET then MODE START with the flags word; a failed RESET stops before START |
| GsDriver.GsUsbDriver.OpenChannel | src/drivers/gs_usb/driver.rs:1070-1078 | refused with InvalidInput and nothing sent until a bitrate is set; otherwise RESET then START without LISTEN_ONLY |
| GsDriver.GsUsbDriver.OpenListenOnly | src/drivers/gs_usb/driver.rs:487-496 | the same with LISTEN_ONLY in the START flags |
| GsDriver.GsUsbDriver.CloseChannel | src/drivers/gs_usb/driver.rs:976-988 | one MODE RESET; its result |
| GsDriver.GsUsbDriver.EnableTimestamp | src/drivers/gs_usb/driver.rs:997-1025 | sends TIMESTAMP with the LE word 1 and, whatever the answer, enables timestamps and succeeds |
| GsDriver.GsUsbDriver.SetBitrate | src/drivers/gs_usb/driver.rs:1027-1064 | errs without BT_CONST or without a timing for the rate, sending nothing; otherwise RESET then BITTIMING with the search's best timing, recording the bitrate only when both succeed; a failed RESET stops after sending RESET alone, a failed BITTIMING after sending both, each returning the transfer's error |
| GsDriver.AlignUpOfRem | src/drivers/gs_usb/driver.rs:548-551 | adding m - n mod m (when non-zero) reaches align_up(n, m) |
| GsDriver.GsDecoderWellBehaved | src/drivers/gs_usb/driver.rs:226-245 | the record decoder the event loop uses asks for more without touching the timestamp state, consumes 1..len bytes, and is stable under appending. That decoder is the corrected GsFrames.ParseHostFrameAt (see Findings), not the source as written |
| GsDriver.Drain | src/drivers/gs_usb/driver.rs:226-245 | never consumes more than the buffer. What the drain means is stated about it elsewhere: GsDriver.PeelRecords (the loop computes it), GsDriver.DrainLeavesIncompleteTail (what is left) and GsDriver.DrainConcat (independence from how the stream is split) |
| GsDriver.DrainLeavesIncompleteTail | src/drivers/gs_usb/driver.rs:226-249 | what is left is shorter than a header or an incomplete record |
| GsDriver.DrainConcat | src/drivers/gs_usb/driver.rs:219-252 | draining a chunk and then its leftover followed by the next chunk gives the frames, byte count and timestamp state of draining both at once |
| GsDriver.PeelRecords | src/drivers/gs_usb/driver.rs:226-245 | the offset loop computes the drain of the buffer: its frames in order, the bytes consumed and the timestamp state |
| GsDriver.UsbEventLoop.constructor | src/drivers/gs_usb/driver.rs:44-70 | empty buffer, no timestamp seen, channel 0, timestamps off |
| GsDriver.UsbEventLoop.ProcessRxChunk | src/drivers/gs_usb/driver.rs:219-252 | an empty chunk changes nothing; otherwise the frames of the drain of buffer + chunk are delivered in order and exactly the undecoded tail is kept. Records are decoded by the corrected GsFrames.ParseHostFrameAt, which waits for a truncated record where the source panics or over-consumes (see Findings) |
| GsDriver.UsbEventLoop.DrainRecords | src/drivers/gs_usb/driver.rs:226-249 | delivers the drain's frames and drops the consumed prefix, decoding with the corrected GsFrames.ParseHostFrameAt (see Findings) |
| GsDriver.UsbEventLoop.RecoverAfterStall | src/drivers/gs_usb/driver.rs:274-296 | MODE RESET then MODE START with no flags, stopping at the first failure |
| GsDriver.UsbEventLoop.BulkWrite | src/drivers/gs_usb/driver.rs:254-272 | a stall or would-block clears the halt; a stall also restarts the channel, whose failure replaces the write's result |
| GsDriver.UsbEventLoop.HandleCommand | src/drivers/gs_usb/driver.rs:130-205 | each command's request and reply; MODE sets the channel index to the value's low byte and TIMESTAMP sets timestamps from the first data byte whatever the transfer's outcome; only Shutdown stops |
| GsDriver.UsbEventLoop.HandleRxCompletion | src/drivers/gs_usb/driver.rs:207-217 | a chunk is processed; NotConnected is returned; any other error clears the IN halt and is swallowed, leaving the buffer alone |
| GsLegacyCodec.FrameSizes | src/gs_usb/constants.rs:12-22 | GS_CAN_FRAME_LEN = 20, GS_TX_FRAME_SIZE = 76, GS_MAX_FRAME_LEN = 80 in this tree |
| GsLegacyCodec.ModeFlagsAreSingleBits | src/gs_usb/constants.rs:49-56 | this tree's MODE flags are bits 1 to 6 (LISTEN_ONLY bit 2, HW_TIMESTAMP bit 5, PAD_PKTS bit 6), unlike the live table |
| GsLegacyCodec.FeatureFlagsAreSingleBits | src/gs_usb/constants.rs:61-70 | the feature flags are bits 0-6 and 8-10 |
| GsLegacyCodec.ModeFlags | src/gs_usb/driver.rs:428-442 | the START flags word of this tree: HW_TIMESTAMP iff timestamps, PAD_PKTS iff padding, LISTEN_ONLY iff listen-only, no other bit |
| GsLegacyCodec.PlausibleIsChannelMatch | src/gs_usb/frames.rs:23-34 | the length test in `plausible_header` is vacuous: a header is plausible exactly when it is whole and on the channel |
| GsLegacyCodec.RecordLen | src/gs_usb/frames.rs:54-56 | a record here is the header plus exactly the DLC's length, 12 to 76 bytes |
| GsLegacyCodec.ParseHostFrameAt | src/gs_usb/frames.rs:36-92 | a consuming answer takes 1 to |bytes| bytes, and one record length unless it is a 1-byte resync; frames carry no timestamp |
| GsLegacyCodec.ParseShortOrForeign | src/gs_usb/frames.rs:42-48 | under 12 bytes waits; a header for another channel resyncs by one byte |
| GsLegacyCodec.OversizeGuardUnreachable | src/gs_usb/frames.rs:56-59 | the "longer than 80 bytes" guard can never fire |
| GsLegacyCodec.ParseNeedsWholeRecord | src/gs_usb/frames.rs:60-62 | a header on the channel whose record is not all there waits |
| GsLegacyCodec.ParseSkipsTxEcho | src/gs_usb/frames.rs:67-69 | a whole TX echo record is skipped whole |
| GsLegacyCodec.ParseDecodesRecord | src/gs_usb/frames.rs:64-91 | a whole received record decodes by the same id rules as the live tree, from the payload after the header, consuming header plus payload |
| GsLegacyCodec.InvalidDlcIsHeaderOnly | src/gs_usb/frames.rs:9-69 | a DLC byte above 15 makes a bare 12-byte record here, where the live decoder resyncs by one byte |
| GsLegacyCodec.ConsumesUnpaddedLength | src/gs_usb/frames.rs:54-91 | a 20-byte classic record with DLC 0 is consumed as 12 bytes here and as 20 by the live decoder |
| GsLegacyCodec.ParseExtends | src/gs_usb/frames.rs:36-92 | appending bytes does not change a decision to consume |
| GsLegacyCodec.CalcBitTiming | src/gs_usb/bit_timing.rs:33-96 | the live search over the fixed limits (48 MHz, tseg1 1..16, tseg2 1..8, sjw 4, brp 1..1024): None iff no point passes, else the first point of least score |
| GsLegacyCodec.FixedTimingShape | src/gs_usb/bit_timing.rs:59-85 | a returned timing splits tseg1 into two non-empty segments, sets phase_seg2 = tseg2, sjw = min(4, tseg2) and brp in 1..1024 |
| GsLegacyCodec.StandardRatesHaveTiming | src/gs_usb/bit_timing.rs:45-54 | 10k, 125k, 250k, 500k and 1M bit/s each have a point that passes the filter exactly |
| GsLegacyCodec.ZeroBitrateHasNoTiming | src/gs_usb/bit_timing.rs:49-53 | a bitrate of 0 passes no filter, so the search finds nothing |
| GsLegacyDriver.LegacyDecoderWellBehaved | src/gs_usb/driver.rs:177-208 | this tree's decoder, as the receive loop uses it, keeps the timestamp state, consumes 1..len bytes and is stable under appending |
| GsLegacyDriver.GsUsbDriver.constructor | src/gs_usb/driver.rs:311-415 | the driver after the handshake: channel 0, no bitrate, timestamps off, counter 0, padding iff this tree's PAD_PKTS feature bit |
| GsLegacyDriver.GsUsbDriver.EncodeFrameMinimal | src/gs_usb/driver.rs:755-792 | a 20-byte record with echo id = counter mod 16; the counter advances, wrapping at 2^32 |
| GsLegacyDriver.GsUsbDriver.EncodeFrameTx76 | src/gs_usb/driver.rs:716-753 | the 76-byte record with the same echo id rule |
| GsLegacyDriver.GsUsbDriver.EncodeForDevice | src/gs_usb/driver.rs:794-802 | 76-byte records iff this tree's FD feature bit is set |
| GsLegacyDriver.GsUsbDriver.MaybePadTx | src/gs_usb/driver.rs:475-486 | zero-fill to a multiple of wMaxPacketSize when padding is on |
| GsLegacyDriver.GsUsbDriver.TryTx | src/gs_usb/driver.rs:815-858 | one bulk write; a stall with padding on disables padding and retries once with a fresh unpadded record; success iff a write covers its whole record |
| GsLegacyDriver.GsUsbDriver.SendFrame | src/gs_usb/driver.rs:794-813 | encode, pad, `try_tx`, in terms of the two transfers |
| GsLegacyDriver.GsUsbDriver.OpenWithFlags | src/gs_usb/driver.rs:428-473 | MODE RESET then MODE START with this tree's flags word, stopping at a failed RESET |
| GsLegacyDriver.GsUsbDriver.OpenChannel | src/gs_usb/driver.rs:984-992 | InvalidInput and nothing sent before a bitrate is set; otherwise RESET then START |
| GsLegacyDriver.GsUsbDriver.OpenListenOnly | src/gs_usb/driver.rs:417-426 | the same with LISTEN_ONLY (bit 2 here) |
| GsLegacyDriver.GsUsbDriver.CloseChannel | src/gs_usb/driver.rs:907-919 | one MODE RESET; its result |
| GsLegacyDriver.GsUsbDriver.EnableTimestamp | src/gs_usb/driver.rs:928-939 | sends TIMESTAMP with the LE word 1; timestamps are enabled only when it succeeds, and a failure is returned |
| GsLegacyDriver.GsUsbDriver.SetBitrate | src/gs_usb/driver.rs:941-978 | errs without BT_CONST or without a timing, sending nothing; otherwise RESET then BITTIMING with the best timing, recording the bitrate only when both succeed |
| GsLegacyDriver.UsbEventLoop.constructor | src/gs_usb/driver.rs:40-60 | empty buffer, no timestamp, channel 0, timestamps off |
| GsLegacyDriver.UsbEventLoop.ProcessRxChunk | src/gs_usb/driver.rs:177-208 | an empty chunk changes nothing; otherwise the drain's frames are delivered in order, exactly the undecoded tail is kept, and the timestamp state is unchanged |
| GsLegacyDriver.UsbEventLoop.HandleRxCompletion | src/gs_usb/driver.rs:165-175 | a chunk is processed; NotConnected is returned; any other error clears the IN halt and is swallowed |
| GsLegacyDriver.UsbEventLoop.RecoverAfterStall | src/gs_usb/driver.rs:230-252 | MODE RESET then MODE START with no flags, stopping at the first failure |
| GsLegacyDriver.UsbEventLoop.BulkWrite | src/gs_usb/driver.rs:210-228 | a stall or would-block clears the halt; a stall also restarts the channel, whose failure replaces the result |
| GsLegacyDriver.UsbEventLoop.HandleCommand | src/gs_usb/driver.rs:96-163 | each command's request and reply; MODE sets the channel index and TIMESTAMP the timestamp flag whatever the outcome; only Shutdown stops |
| GsLegacyDriver.LegacyDrainKeepsTimestamp | src/gs_usb/driver.rs:184-201 | draining with this tree's decoder never changes the timestamp state |
| GsLegacyDriver.TxRecordDecodes | src/gs_usb/driver.rs:755-792 | this tree's 20-byte TX record of a valid frame, with the "not an echo" marker, decodes to that frame, consuming header plus the DLC's length |
| GsMono.HostConfigBytes | src/gs_usb.rs:157-160 | the HOST_FORMAT payload is the four bytes EF BE 00 00, which read back little-endian as 0xBEEF |
| GsMono.TimestampRequestIsBerrCode | src/gs_usb.rs:32-37 | the TIMESTAMP request code this file sends (3) is the protocol's BERR request, not its TIMESTAMP request (6); its TX record size is 80 |
| GsMono.PlausibleIsChannelMatch | src/gs_usb.rs:858-897 | since `dlc_to_len` never exceeds 64, `plausible_header` holds exactly when there is a full 12-byte header whose channel byte is the expected one |
| GsMono.UnwrapAgrees | src/gs_usb.rs:1008-1023 | this file's 32-to-64-bit timestamp extension equals the live tree's, so its low word is the device's value and it never goes backwards unless the high word is at its maximum |
| GsMono.ParseHostFrameAt | src/gs_usb.rs:899-1043 | "need more bytes" leaves the timestamp state alone; a step consumes 12 to 80 bytes and never more than the buffer holds; a frame comes only from a non-echo record for this channel, and the state changes exactly to a frame's attached timestamp |
| GsMono.ParseDecodesPlainRecord | src/gs_usb.rs:921-1005 | a record for this channel that fits in the plain layout and is not followed by a plausible header after a timestamp is decoded with its payload at 12 and no timestamp |
| GsMono.ParseDecodesTimestampedRecord | src/gs_usb.rs:921-1024 | a record for this channel followed by a plausible header after 4 timestamp bytes is decoded with its payload at 16 and the unwrapped timestamp |
| GsMono.ParseSkipsForeign | src/gs_usb.rs:970-973 | an echo, or a record for another channel, is consumed whole and yields no frame |
| GsMono.Advance | src/gs_usb.rs:1226-1230 | the read loop's step guard returns at least 1 and leaves every step of 12 to 80 bytes unchanged |
| GsMono.MonoDecoderIsParser | src/gs_usb.rs:1213-1236 | with the guard applied, the decode loop's step is exactly the parser's and always stays inside the buffer |
| GsMono.LayoutDependsOnLookahead | src/gs_usb.rs:921-964 | a timestamped DLC-0 record alone in the buffer is taken as a 12-byte untimestamped record, and the same bytes with a following header as a 16-byte timestamped one, so the decoder depends on bytes after the record |
| GsMono.TxCanId | src/gs_usb.rs:1141-1151 | the TX id word is the frame id with EFF, RTR and ERR set exactly when the frame is extended, remote or an error frame |
| GsMono.TxRecord | src/gs_usb.rs:1138-1161 | the 80-byte TX record: echo word 0, the flagged id, dlc, channel, zeros over 10..16, the data from offset 16 and zeros after it |
| GsMono.TxCanIdVersusLive | src/gs_usb.rs:1141-1151 | this id word equals the live driver's exactly unless the frame is an error frame with an id above 0x7FF, which the live driver masks to 11 bits |
| GsMono.Written | src/gs_usb.rs:1081-1100 | a transfer succeeds exactly when it wrote the expected count; an I/O error passes through, and a short write is an error |
| GsMono.Gather | src/gs_usb.rs:1177-1211 | the read phase is idle exactly when the first read timed out or came back empty |
| GsMono.GsUsbDriver.constructor | src/gs_usb.rs:1052-1065 | the driver `open` builds: channel 0, no bitrate, timestamps off, an empty buffer and no timestamp state |
| GsMono.GsUsbDriver.SendControl | src/gs_usb.rs:1081-1100 | one control-OUT request to the claimed interface is recorded, and the result is that of a transfer that must write all its data |
| GsMono.GsUsbDriver.Open | src/gs_usb.rs:1067-1072 | HOST_FORMAT with the byte-order probe is sent first; MODE RESET follows only if it succeeded, and the first failure is returned |
| GsMono.GsUsbDriver.EnableTimestampAsWritten | src/gs_usb.rs:1105-1110 | as written: request 3 with the word 1; the flag is set only when all 4 bytes were written |
| GsMono.GsUsbDriver.EnableTimestamp | src/gs_usb.rs:1105-1110 | corrected: the same transfer with the protocol's TIMESTAMP request, with the same flag rule |
| GsMono.GsUsbDriver.SetBitrate | src/gs_usb.rs:1112-1127 | no timing within the fixed limits gives InvalidInput with nothing sent; on success MODE RESET and then BITTIMING with a best-scoring candidate's bytes were sent; the bitrate is recorded only on success, and success means both transfers were written in full |
| GsMono.GsUsbDriver.OpenChannel | src/gs_usb.rs:1133-1136 | MODE START with flags 0 is sent whether or not a bitrate was set |
| GsMono.GsUsbDriver.CloseChannel | src/gs_usb.rs:1245-1248 | MODE RESET with flags 0 is sent |
| GsMono.GsUsbDriver.SendFrame | src/gs_usb.rs:1138-1174 | one bulk write of the 80-byte record on the current channel; success exactly when all 80 bytes were written |
| GsMono.GsUsbDriver.ReadChunks | src/gs_usb.rs:1177-1211 | the chunks read before the first timeout, empty read or error are appended to the buffer in order, and a stall clears the IN halt |
| GsMono.GsUsbDriver.ReadFrames | src/gs_usb.rs:1176-1243 | an idle first read returns no frames and changes nothing; a failed read returns its error with the chunks kept; otherwise the frames are those the decoder peels from the whole buffer, in order, and exactly the consumed prefix is drained |
| Slcan.Chars | src/slcan.rs:44-48 | reading a line's bytes as characters keeps its length and maps each byte to the character with that code, which is what the hex and digit parses see |
| Slcan.StampAt | src/slcan.rs:102-107 | the timestamp is present exactly when the eight digits parse as hex, and its value is the high word times 2^32 plus those digits |
| Slcan.ParseText | src/slcan.rs:39-117 | a `J` line advances the high word modulo 2^32 and nothing else does; a frame comes only from a `t` or `T` line, is a valid data frame, and is extended exactly for `T` |
| Slcan.ParseTextAsWritten | src/slcan.rs:50-58 | the parser as the source writes it panics only on a `t` or `T` line of two or more characters that is shorter than its header |
| Slcan.AsWrittenPanicsOnlyOnShortLines | src/slcan.rs:50-58 | the parser as written indexes out of bounds exactly on `t` lines of 2 to 4 characters and `T` lines of 2 to 9 characters, and returns what the guarded parser returns on every other line |
| Slcan.AsWrittenPanicsOnTruncatedLine | src/slcan.rs:50-58 | the line `t\r` makes the parser as written panic, where the guarded parser yields nothing |
| Slcan.ParsedFrameLayout | src/slcan.rs:50-107 | a parsed frame's id, DLC digit and data pairs are the line's, and it has a timestamp exactly when the line is header + 2 * DLC + 9 characters long and the eight digits parse |
| Slcan.ParsedIsFrameLine | src/slcan.rs:66-100 | a line that yields a frame is at least a header long, with the length guards passed before any field is read |
| Slcan.EncodeParse | src/slcan.rs:261-281 | parsing the line `send_frame` writes for a standard or extended data frame gives back the same frame, without a timestamp, and leaves the high word alone |
| Slcan.BitrateCommand | src/slcan.rs:232-248 | a command exists exactly for the nine supported rates, and the i-th supported rate gets `S<i>\r` |
| Slcan.ClosestIsLowest | src/slcan.rs:167-170 | on an ascending list, `min_by_key` by distance picks a rate no farther than any other, and the lower one of two at the same distance |
| Slcan.MeasuredBitrateNearest | src/slcan.rs:119-173 | a reading under 5000 is an error; otherwise the result is a supported rate, as near the reading as any, the lower one on a tie, and one `set_bitrate` accepts |
| Slcan.FindCrFirst | src/slcan.rs:296 | the `\r` search finds the first `\r` from the cursor on, and finds none only when there is none |
| Slcan.LinesFromRest | src/slcan.rs:296-308 | the line loop stops past every `\r`, so the kept tail holds none, and a cursor that moved stops just after a `\r` |
| Slcan.TakeLines | src/slcan.rs:295-304 | the cursor loop yields exactly the frames, final cursor and high word of parsing the complete lines in order |
| Slcan.SlcanDriver.constructor | src/slcan.rs:23-37 | an opened driver has an empty buffer, high word 0, no bitrate and has written nothing |
| Slcan.SlcanDriver.EnableTimestamp | src/slcan.rs:226-230 | writes `Z1\r` and returns the write's result |
| Slcan.SlcanDriver.SetBitrate | src/slcan.rs:232-254 | an unsupported rate gives InvalidInput naming the rate, with nothing written or recorded; a supported one is recorded and its `S` command written, and stays recorded if the write fails |
| Slcan.SlcanDriver.OpenChannel | src/slcan.rs:256-259 | writes `O\r` whether or not a bitrate was set |
| Slcan.SlcanDriver.SendFrame | src/slcan.rs:261-281 | writes exactly the encoded line of the frame |
| Slcan.SlcanDriver.ReadFrames | src/slcan.rs:283-311 | a read error changes nothing; otherwise the chunk is appended, the frames are those of every complete line in order, exactly the parsed prefix is drained, and the kept tail holds no `\r`. Lines are parsed by the corrected Slcan.ParseText, which skips a frame line shorter than its header where the source panics (see Findings) |
| Slcan.SlcanDriver.CloseChannel | src/slcan.rs:314-319 | writes `C\r`, then flushes; the first failure is returned |
| Pcan.ChannelIndex | src/drivers/pcan.rs:31-60 | on the trimmed, upper-cased name without one `PCAN_`, the bus chosen is the first of USBBUS, PCIBUS, LANBUS whose suffix is a decimal number from 1 to 16, and there is none exactly when no prefix has such a number |
| Pcan.ParseChannelAsWritten | src/drivers/pcan.rs:31-60 | `parse_channel` as written: a handle exactly for the names Pcan.ChannelIndex accepts, equal to the PCAN-Basic handle exactly for channels 1 to 8 and for every LAN channel |
| Pcan.ParseChannel | src/drivers/pcan.rs:31-60 | the corrected `parse_channel`: a handle exactly for the names Pcan.ChannelIndex accepts, always one of the PCAN-Basic USB, PCI or LAN channel handles |
| Pcan.ChannelHandleInjective | src/drivers/pcan.rs:40-58 | distinct bus channels have distinct PCAN-Basic handles |
| Pcan.AsWrittenHandleAgreesIff | src/drivers/pcan.rs:40-58 | the handle `base + (n - 1)` equals the PCAN-Basic handle exactly for channels 1 to 8 and for every LAN channel |
| Pcan.ChannelIndexOfCanonical | src/drivers/pcan.rs:31-60 | a name written as bus prefix plus channel number, with or without `PCAN_`, selects that bus and number |
| Pcan.ParseCanonicalChannel | src/drivers/pcan.rs:31-60 | such a name parses to that channel's PCAN-Basic handle, and as written to `base + (n - 1)` |
| Pcan.AsWrittenMisnamesUsbBus9 | src/drivers/pcan.rs:40-45 | `USBBUS9` parses as written to 0x59, where its PCAN-Basic handle is 0x509 |
| Pcan.BaudCode | src/drivers/pcan.rs:62-80 | a code exists exactly for the fourteen listed rates, and each listed rate gets its own code in table order |
| Pcan.BaudCodeInjective | src/drivers/pcan.rs:62-80 | two supported rates with the same code are the same rate |
| Pcan.Payload | src/drivers/pcan.rs:133-135 | the eight message bytes are the frame's bytes in order followed by zeros |
| Pcan.TimestampMicros | src/drivers/pcan.rs:195-197 | the microsecond timestamp is (overflow * 2^32 + millis) * 1000 + micros: the shift and OR do not overlap |
| Pcan.TimestampSplits | src/drivers/pcan.rs:195-197 | with micros under 1000, dividing the timestamp by 1000 gives back the 48-bit millisecond count and the remainder gives back the micros |
| Pcan.RxFrame | src/drivers/pcan.rs:181-198 | a received message gives a frame exactly when its id fits 29 bits (extended type) or 11 bits (standard type), else InvalidData; the frame is a data frame with that id and format, the first min(LEN, 8) bytes and the microsecond timestamp |
| Pcan.PackRx | src/drivers/pcan.rs:121-198 | receiving the message `send_frame` packs for a data frame gives back the same frame, stamped |
| Pcan.DrainOk | src/drivers/pcan.rs:150-207 | the receive loop succeeds exactly when every status before the first empty-queue status is OK and each of those messages gives a frame, and then the frames are exactly those, in order |
| Pcan.PcanDriver.Open | src/drivers/pcan.rs:19-28 | an unknown channel name gives InvalidInput "Unknown PCAN channel"; otherwise a new driver with no bitrate, on the handle the corrected Pcan.ParseChannel gives. The source stores `parse_channel`'s `base + (n - 1)` (Pcan.ParseChannelAsWritten), which differs for USB and PCI channels 9 to 16 (see Findings) |
| Pcan.PcanDriver.constructor | src/drivers/pcan.rs:23-27 | the driver `open` builds: the parsed channel and no bitrate |
| Pcan.PcanDriver.EnableTimestamp | src/drivers/pcan.rs:84-87 | always succeeds and changes nothing |
| Pcan.PcanDriver.SetBitrate | src/drivers/pcan.rs:89-101 | an unsupported rate gives InvalidInput naming the rate and keeps the recorded rate; a supported one is recorded and nothing is sent |
| Pcan.PcanDriver.OpenChannel | src/drivers/pcan.rs:103-119 | without a recorded rate it fails with "Bitrate not set" and calls nothing; otherwise it initialises the channel with the rate's code, and a status other than OK is an error |
| Pcan.PcanDriver.SendFrame | src/drivers/pcan.rs:121-148 | the message written is the frame's id, its extended or standard type, its DLC and its payload zero-filled to 8; a status other than OK is an error naming CAN_Write |
| Pcan.PcanDriver.ReadFrames | src/drivers/pcan.rs:150-207 | the result is the receive loop over the successive answers up to the empty queue |
| Pcan.PcanDriver.CloseChannel | src/drivers/pcan.rs:210-220 | a status other than OK from CAN_Uninitialize is an error naming it |
| Pcan.PcanDriver.GetBitrate | src/drivers/pcan.rs:222-224 | the recorded rate, which is always one with a baud-rate code |
| Cansend.ParseCansendFrame | src/bin/cansend.rs:66-104 | a frame exactly for an argument with one `#`, a hex id of at most 29 bits before it and an even number (at most sixteen) of hex-pair characters after it; the frame is the data frame with that id and those bytes, extended exactly when the id is above 0x7FF, with no timestamp |
| Cansend.CansendTextParts | src/bin/cansend.rs:66-85 | the plainest argument for a data frame splits at its `#` into id digits that read back as the id and data digits that read back pair by pair as the bytes |
| Cansend.CansendRoundTrip | src/bin/cansend.rs:66-104 | every data frame whose format matches its id's size parses back from its plainest argument |

## Left out

- The libusb FFI and the asynchronous transfer machinery (`libusb-async`, `src/gs_usb/context.rs`): the model never opens a device. Device, configuration and interface descriptors are given as values, and the outcome of every transfer is a parameter.
- The `select!` loop of `UsbEventLoop::run` and its `FuturesUnordered` set, in both gs_usb trees: the model treats commands and RX completions as sequential method calls in whatever order the loop would serve them, so it does not model concurrency or wake-up order.
- A failed RX transfer in the gs_usb event loops: `run()` only logs it and never passes it to the completion handler, so the model has no error path there.
- The `mpsc`/`oneshot` proxies between the gs_usb drivers and their event loops, the spawned thread and the `UpdateConfig` plumbing: they only carry messages, and the model calls the event loop directly.
- The channel on which the live and older gs_usb drivers receive frames: the event loop's `delivered` sequence stands in for it.
- The `get_bitrate` and `device_label` accessors of the gs_usb drivers: they only return a stored field.
- `find_gs_usb_interface`, `device_matches_identifier`, `read_product_label` and `select_device` in `src/gs_usb.rs`: they repeat the scan of `src/drivers/gs_usb/device.rs` (modelled in `GsDevice`) against libusb handles, with no VID/PID filter and no alt-setting or endpoint size, so they are not modelled separately.
- The older tree's `set_bitrate` calls a two-argument `calc_bit_timing` and a `GsBtConst` that `src/gs_usb/bit_timing.rs` does not define. `GsLegacyDriver.GsUsbDriver.SetBitrate` therefore uses the live search over the device's BT_CONST limits.
- The floating-point sample-point score of the bit-timing search: it is a function parameter `score`. The 5% bitrate-error filter is computed exactly in integers, so `f64` rounding at its boundary is not modelled.
- `candump`'s wall-clock timestamp modes (absolute, absolute with date, delta, zero): the current time is a `clock` parameter, and date formatting is not modelled.
- Case-insensitive driver names in `canserver`: the model lowercases ASCII letters only, where Rust's `to_lowercase` covers all of Unicode.
- `cansend`'s byte-offset slicing of its argument, which panics on a multi-byte character: the model works on characters.
- Serial-port I/O of the slcan driver: opening the port, the version query, the timed read loop that measures the bitrate, and port enumeration. Their results are parameters.
- Slcan.SlcanDriver.ReadFrames: the model does not prove that the frames read are independent of how the serial stream was split into chunks.
- The PCAN-Basic library calls (`CAN_Initialize`, `CAN_Read`, `CAN_Write`, `CAN_Uninitialize`, `CAN_GetValue`): their status codes and messages are parameters.
- `bincode` serialization of frames on the pipes: the encoder and decoder are parameters of the forwarding functions, and only the length prefix and the message boundaries are modelled.
- `try_send` failing because the pipe queue is full: the model treats every send as accepted.
- The `canserver` task spawning, `select!` shutdown and task abort, and the pipe I/O in `thread_manager_async`: the model relays batches of bytes and frames as values.
- Canserver.NextAutoChannel: requires that some name is still free, where the source would loop forever when every `can<N>` name is taken. The source's counter `idx` is an `i32` (`let mut idx = 0` has no other type constraint). Past 2^31 - 1 its increment panics in a debug build and wraps to a negative suffix in a release build. The model's index is an unbounded natural number, so it has neither behaviour.
- GsMono.ParseHostFrameAt: the single-file driver guesses the record layout from the bytes that follow, so there is no lemma that reassembly is independent of chunk boundaries. `GsMono.LayoutDependsOnLookahead` shows that the property fails.
- Pcan.PcanDriver.Open: stores the handle of the corrected `Pcan.ParseChannel`. The source stores `parse_channel`'s `base + (n - 1)` (`Pcan.ParseChannelAsWritten`), so the model does not reproduce the wrong handle the source opens for USB and PCI channels 9 to 16 (see Findings).
- Slcan.SlcanDriver.ReadFrames: parses lines with the corrected `Slcan.ParseText`, so the model skips a `t`/`T` line shorter than its header where the source panics (see Findings).
- GsDriver.UsbEventLoop.ProcessRxChunk: decodes with the corrected `GsFrames.ParseHostFrameAt`. With timestamps and padding off, the model waits for a truncated record where the source panics or consumes more than it holds (see Findings).
- GsFrames.ParseHostFrameAt: keeps the source's handling of a data record with DLC 9 to 15 (a CAN FD payload). The classic frame constructor rejects it, and the `?` turns that rejection into "need more bytes", so the stream stalls on that record (`GsFrames.RejectedRecordNeverConsumed`). The model has no corrected decoder for this case.
- GsLegacyCodec.ParseHostFrameAt: keeps the older tree's consumption of header plus DLC length, where the live tree consumes the record padded to 8 bytes (`GsLegacyCodec.ConsumesUnpaddedLength`). The model has no corrected decoder for this tree.
- `src/bin/cangen.rs` and `src/bin/can_dump.rs`: they are outside the modelled core.

## Findings

| source | as written | input that shows it | evidently intended | confidence | as-written member | corrected member |
|---|---|---|---|---|---|---|
| src/drivers/gs_usb/frames.rs:106-154 | With hardware timestamps and PAD_PKTS both off, nothing checks that the whole padded record is in the buffer. The payload is sliced, and the padded length is returned as consumed, regardless of how many bytes arrived. | A 12-byte buffer holding a received header with DLC 1: the payload slice runs past the end and panics. A 16-byte buffer holding a TX-echo header with DLC 4: 20 bytes are reported consumed, so the caller's `drain(..20)` panics. | Answer "need more bytes" until the whole padded record has arrived. | not executed | `GsFrames.ParseHostFrameAtAsWritten`, shown by `GsFrames.AsWrittenSlicesPastEnd` and `GsFrames.AsWrittenOverConsumes` | `GsFrames.ParseHostFrameAt` |
| src/slcan.rs:50-58 | For a line of two or more characters that starts with `t` (`T`), the timestamp test reads the DLC digit at index 4 (9) before any length check. | The two-byte line `t\r`: index 4 is past its end, so the read panics. | Treat a frame line shorter than its header as an unrecognised line and skip it. | not executed | `Slcan.ParseTextAsWritten`, shown by `Slcan.AsWrittenPanicsOnTruncatedLine` and `Slcan.AsWrittenPanicsOnlyOnShortLines` | `Slcan.ParseText` |
| src/gs_usb.rs:32-37 | `GS_USB_BREQ_TIMESTAMP` is defined as 3, which is the bus-error request (`_GS_USB_BREQ_BERR` at `src/drivers/gs_usb/constants.rs` line 40, `GS_USB_BREQ_BERR` at `src/gs_usb/constants.rs` line 33). The gs_usb timestamp request is 6. | Any call of `enable_timestamp`: the device receives request 3 with the value 1. | Send request 6, as the live tree does. | not executed | `GsMono.GsUsbDriver.EnableTimestampAsWritten`, shown by `GsMono.TimestampRequestIsBerrCode` | `GsMono.GsUsbDriver.EnableTimestamp` |
| src/drivers/pcan.rs:40-58 | The handle is computed as channel 1's handle plus `n - 1` for every channel number from 1 to 16. | `"USBBUS9"` gives 0x59, where PCAN_USBBUS9 is 0x509. The same holds for every USB or PCI channel from 9 to 16. | Look the handle up in the PCAN-Basic table, where USB and PCI channels 9 to 16 start again at 0x509 and 0x409. | not executed | `Pcan.ParseChannelAsWritten`, shown by `Pcan.AsWrittenMisnamesUsbBus9` and `Pcan.AsWrittenHandleAgreesIff` | `Pcan.ParseChannel` |
