# monome client core, modelled in Dafny

This project models the core of `monome-rs` (`src/lib.rs`). It is a client library for monome
grids and arcs. It talks OSC to the serialosc daemon and then to one device. The model covers
these parts:

- **Device kinds and descriptors** (`device.dfy`). A type string read from the daemon gives a
  device kind. The device descriptor is what enumeration produces.
- **Argument encodings** (`encoding.dfy`). These are the `IntoAddrAndArgs` conversions: `i32` and
  `bool` single values, and the `[u8; 64]`, `[u8; 8]`, `u8` and `[bool; 64]` list shapes. The last
  one packs eight rows of leds into bytes with the rotate-and-or loop. The same file holds
  `toidx` and the two quadrant loops of `set_all` and `set_all_intensity`, which work over arrays.
- **Commands** (`commands.dfy`). The messages every command sends, before the prefix is added. It
  also cuts a whole grid into the per-quadrant `map` messages and proves that the device can
  rebuild every led of every whole quadrant from them.
- **The setup handshake** (`handshake.dfy`). `MonomeInfo` is a class whose `fill` updates it in
  place. `setup` runs a receive loop until the info is complete. Whatever order the six replies
  arrive in, the handshake ends after exactly those six, holding the device's values.
- **Device discovery** (`discovery.dfy`). The enumeration loop runs over a trace of datagrams and
  timeouts. `new_with_port` takes the first device or returns its error. The device-change
  watcher has its `need_notify_msg` flag. It registers first, registers again after every
  add/remove callback, and crashes exactly where the source indexes an empty argument list (a
  case the codec never produces; see "Left out").
- **Event decoding** (`events.dfy`). This is `parse`: daemon and setup traffic are shadowed, the
  four event addresses are routed by prefix, and the panics are modelled. Every event survives
  being sent and parsed.
- **The session object** (`session.dfy`). `Monome` is a class with the device's settings, an
  outbox for the bounded send channel and an inbox for the bounded receive queue. Every command
  method is proved against the messages it must queue. Grid-only and arc-only commands leave the
  outbox untouched on the other kind of device. Nothing but the outbox changes, except where
  `set_rotation` and `set_prefix` update their field.

Shared OSC values, integer widths and string predicates are in `osc.dfy`. A step of the source
that can panic returns `Outcome` (`Done` or `Panic`). An error the source returns is a
`Result`. Rust's `as` casts are written out as `WrapI32` (`usize`/`u32` to `i32`) and
`I32AsUsize` (`i32` to `usize`).

Sockets, the codec and the daemon are not run. Each loop that reads from the network is
modelled over a given sequence of decoded packets (a *trace*). Each loop that writes to it
appends to a sequence of messages.

## Model

| member | source | states |
|---|---|---|
| Osc.ContainsAt | src/lib.rs:393-401 | `contains` holds exactly when the pattern occurs at some index |
| Osc.WrapI32 | src/lib.rs:1215-1226 | `as i32` agrees with its argument modulo 2^32 and is the identity below 2^31 |
| Osc.I32AsUsize | src/lib.rs:1525-1551 | `as usize` on an `i32` agrees with it modulo 2^64 and is below 2^31 exactly for non-negative inputs |
| Device.DeviceTypeFrom | src/lib.rs:393-401 | a type string gives `Arc` exactly when "arc" occurs in it, and `Grid` otherwise; never `Unknown` |
| Device.DeviceTypeName | src/lib.rs:403-415 | the `Display` text of a kind; pinned by `DeviceTypeNameRoundTrip` |
| Device.NewDevice | src/lib.rs:441-447 | `MonomeDevice::new`: the kind is `DeviceTypeFrom` of the type string; pinned by `Announced` and `AnnouncementsList` |
| Device.DeviceTypeNameRoundTrip | src/lib.rs:393-415 | printing a known kind and reading it back gives the same kind; `Unknown` prints as "arc" and reads back as an arc |
| Encoding.ToIdx | src/lib.rs:39-41 | `toidx`: row-major offset; pinned by `QuadCellInBounds`, `MaskBit` and `LevelAt` |
| Encoding.RotateLeft8 | src/lib.rs:1008 | `u8::rotate_left(1)`; pinned by `ShiftInColumn` |
| Encoding.PackLeds | src/lib.rs:359-380 | eight leds to a byte, row by row; pinned by `PackThenUnpack`, `UnpackThenPack`, `BitOfPacked` |
| Encoding.RowByte | src/lib.rs:359-380 | a packed row's bit k is the led at column k |
| Encoding.PackThenUnpack | src/lib.rs:359-380 | unpacking the eight packed masks gives the 64 leds back |
| Encoding.UnpackThenPack | src/lib.rs:359-380 | packing is onto: any eight masks are the packing of their unpacked leds |
| Encoding.BitOfPacked | src/lib.rs:359-380 | bit k of mask i is led 8i + k |
| Encoding.QuadCellInBounds | src/lib.rs:39-41 | inside a quadrant that fits, every `toidx` of its cells is a valid index |
| Encoding.QuadOfWhole | src/lib.rs:359-380 | a 64-cell, 8-wide array is its own quadrant at the origin, which is how the `[bool; 64]` encoder indexes it |
| Encoding.ShiftInColumn | src/lib.rs:1002-1009 | one rotate-left-and-or step turns the mask of columns j..7 into the mask of columns j-1..7, without overflowing the byte |
| Encoding.RowMask | src/lib.rs:1000-1010 | the inner packing loop yields the packed byte of row i of the quadrant |
| Encoding.FillRowMasks | src/lib.rs:998-1011 | after the row loop the mask array is the packing of the quadrant |
| Encoding.FillQuad | src/lib.rs:1052-1059 | after the copying loop, `quad[8i + j]` is the cell at column x0 + j of row y0 + i |
| Encoding.LevelEncoding | src/lib.rs:314-325 | the `i32` and `bool` conversions; pinned by `LevelEncodingRoundTrip` |
| Encoding.GridArgEncoding | src/lib.rs:327-380 | the list conversions; pinned by `GridArgEncodingShape` and `LedsEncodingBits` |
| Encoding.LevelEncodingRoundTrip | src/lib.rs:314-325 | an intensity goes under "level/" and an on/off as 0 or 1, and a device reads back the value that was sent |
| Encoding.LedsEncodingBits | src/lib.rs:359-380 | `[bool; 64]` encodes as the eight packed masks; bit k of argument i is led 8i + k, and unpacking gives the leds back |
| Encoding.EncodeGridArg | src/lib.rs:327-380 | the list encoders, with the packing loop, produce the specified fragment and arguments |
| Commands.SetFrame | src/lib.rs:925-938 | the `set` message: "/grid/led/" + fragment + "set", then x, y and the value; its queueing is `Monome.Set` |
| Commands.AllFrame | src/lib.rs:957-967 | the `all` message; its queueing is `Monome.All` |
| Commands.OffsetFrame | src/lib.rs:1091-1193 | the `map`, `row` and `col` messages: the offsets, then the encoded list (`GridArgEncodingShape`) |
| Commands.RingSetFrame | src/lib.rs:1215-1226 | "/ring/set" with every number through `as i32` (`WrapI32`) |
| Commands.RingAllFrame | src/lib.rs:1246-1256 | "/ring/all" with every number through `as i32` |
| Commands.RingRangeFrame | src/lib.rs:1279-1291 | "/ring/range" with every number through `as i32` |
| Commands.RingMapFrame | src/lib.rs:1314-1322 | "/ring/map": the encoder number then the 64 intensities (`Ints`) |
| Commands.TiltFrame | src/lib.rs:1326-1331 | "/tilt/set" for sensor 0, 1 for on and 0 for off |
| Commands.RotationFrame | src/lib.rs:1334-1337 | "/sys/rotation" with the rotation |
| Commands.PrefixFrame | src/lib.rs:1340-1343 | "/sys/prefix" with the new prefix |
| Commands.QuadFitsAt | src/lib.rs:989-1015 | every quadrant (a, b) of a covered grid lies inside the led slice, and its offsets 8a and 8b fit in an `i32` |
| Commands.QuadIndex | src/lib.rs:996-997 | position a*(W/8) + b of the row-by-row order is quadrant (a, b), and it is a valid position |
| Commands.QuadIndexInverse | src/lib.rs:996-997 | every position below (H/8)*(W/8) is some quadrant (a, b) |
| Commands.SetAllLayout | src/lib.rs:989-1015 | `set_all` sends (H/8)*(W/8) messages; message a*(W/8) + b is a "/grid/led/map" at offsets (8b, 8a) with that quadrant's packed rows |
| Commands.MaskBit | src/lib.rs:989-1015 | the led at (8b + k, 8a + i) is bit k of mask i of the message for quadrant (a, b) |
| Commands.SetAllIntensityLayout | src/lib.rs:1040-1063 | `set_all_intensity` sends the same number of messages in the same order, each a "/grid/led/level/map" with the quadrant's 64 intensities |
| Commands.LevelAt | src/lib.rs:1040-1063 | the intensity at (8b + k, 8a + i) is argument 2 + 8i + k of the message for quadrant (a, b) |
| Handshake.Complete | src/lib.rs:100-107 | `complete`: all six fields set; pinned by `ProjectionsDetermine` |
| Handshake.FillInfo | src/lib.rs:108-147 | `fill` on values; pinned by `FillSetsOneField`, `FillOnFieldAddr` and `FillIgnores`, and implemented in place by `MonomeInfo.Fill` |
| Handshake.Accumulate | src/lib.rs:632-647 | the receive loop on values; pinned by `ReadyAtFirstComplete` and `HandshakeInAnyOrder`, and run by `Setup` |
| Handshake.HandshakeRequests | src/lib.rs:596-627 | the four requests, unprefixed and in order; sent by `Setup`, and their shapes checked by `EchoedRequests` |
| Handshake.MonomeInfo.constructor | src/lib.rs:90-99 | a fresh info has all six fields unset |
| Handshake.MonomeInfo.Fill | src/lib.rs:108-147 | `fill` updates the object to the specified next info, or panics and changes nothing |
| Handshake.ProjectionsDetermine | src/lib.rs:100-107 | an info is fixed by its six fields, and it is complete exactly when all six are set |
| Handshake.FieldAddrsDistinct | src/lib.rs:108-147 | no reply address is a prefix of another, and all are under "/sys" |
| Handshake.FillSetsOneField | src/lib.rs:108-147 | a well-formed reply sets its own field and leaves the other five unchanged |
| Handshake.FillIgnoresTrailing | src/lib.rs:108-147 | `fill` reads only the first argument (the first two for the size): a reply with extra arguments after those fills exactly as the bare reply does |
| Handshake.FillOnFieldAddr | src/lib.rs:108-147 | a reply address with an empty argument list panics, and one with a wrongly typed argument changes nothing |
| Handshake.FillIgnores | src/lib.rs:108-147 | bundles, non-"/sys" messages, messages without arguments and unknown "/sys" addresses leave the info unchanged |
| Handshake.ReadyAtFirstComplete | src/lib.rs:632-647 | the receive loop stops at the first prefix of the replies after which the info is complete |
| Handshake.Setup | src/lib.rs:577-649 | sends the four requests in order, then the loop, run on a `MonomeInfo` object, ends as `Accumulate` specifies: ready after n packets, stalled, or crashed |
| Handshake.FilledPrefix | src/lib.rs:632-647 | after k replies of a permutation, the info holds exactly the fields seen so far, with the device's values |
| Handshake.PermutedReplies | src/lib.rs:632-647 | a permutation of a device's replies holds each field's reply exactly once |
| Handshake.HandshakeInAnyOrder | src/lib.rs:577-650 | in whatever order the six replies arrive, the handshake completes after exactly six, with the device's values |
| Handshake.EchoedRequests | src/lib.rs:596-627 | the requests have the shapes `fill` reads: read back by `fill`, they set exactly the port, host and prefix that were sent, and the info request fills nothing |
| Discovery.Enumerate | src/lib.rs:700-741 | the enumeration loop on values; pinned by `EnumerateUpToFirstEnd`, `DaemonAnswer` and `StrayEventIgnored`, and run by `EnumerateDevices` |
| Discovery.Announced | src/lib.rs:709-723 | at most one device per datagram; a device is announced exactly by "/serialosc/device" with an argument list of exactly `[Str, Str, Int]`, and it is the device with that name, the kind read from that type string, and that port |
| Discovery.EnumerateDevices | src/lib.rs:680-741 | the loop, pushing onto a growing list, ends as specified |
| Discovery.AllAnnouncedCons | src/lib.rs:709-723 | devices are listed in the order they are announced |
| Discovery.EnumerateUpToFirstEnd | src/lib.rs:700-741 | the result is the devices announced before the first timeout or argument-less device message, or the loop is still waiting |
| Discovery.DaemonAnswer | src/lib.rs:700-741 | the daemon's answer, one announcement per device and then silence, lists exactly those devices in order |
| Discovery.AnnouncementsList | src/lib.rs:709-723 | announcing devices one by one lists each with its kind read from the type string |
| Discovery.StrayEventIgnored | src/lib.rs:700-741 | a key press, bundle or other message arriving during enumeration changes nothing |
| Discovery.FirstDevice | src/lib.rs:830-839 | "No devices detected" exactly for an empty list, otherwise the first device |
| Discovery.React | src/lib.rs:521-543 | a panic happens exactly for an empty argument list under add/remove; "/serialosc/add" re-arms whatever its first argument is, "/serialosc/remove" only when it is a string, and nothing else re-arms; `Added(id)` exactly for add with first argument `Str(id)`, `Removed(id)` exactly for remove (not under add) with first argument `Str(id)`; every callback comes with a re-registration |
| Discovery.Watch | src/lib.rs:509-548 | the watcher loop on values; pinned by `RegistersFirst`, `CallbackThenNotify`, `WatchAccounts` and `WatchCrashes`, and run by `WatchDeviceChanges` |
| Discovery.WatchDeviceChanges | src/lib.rs:509-548 | the loop with its `need_notify_msg` flag produces the specified effects and crash |
| Discovery.RegistersFirst | src/lib.rs:509-519 | the watcher registers before anything else |
| Discovery.CallbackThenNotify | src/lib.rs:509-548 | every callback is followed at once by a new registration |
| Discovery.CallbacksAppend | src/lib.rs:509-548 | the callbacks of a run split over its parts |
| Discovery.CountNotifyAppend | src/lib.rs:509-548 | the registrations of a run split over its parts |
| Discovery.WatchAccounts | src/lib.rs:509-548 | without panics, the callbacks are exactly the trace's add/remove events in order, and the registrations are one plus one per re-arming packet |
| Discovery.WatchCrashes | src/lib.rs:521-543 | the watcher crashes exactly when some packet panics |
| Events.Parse | src/lib.rs:1461-1564 | `parse`; pinned by `ParsedEventOrigin`, `ParsePanics`, `ShadowedYieldsNothing`, `ParseGridKey`, `GridKeyNeedsThreeInts`, `UnknownSuffixYieldsNothing` and `EventRoundTrip` |
| Events.DirectionOf | src/lib.rs:1500-1504 | a key is down exactly when its state is 1 |
| Events.StartsWithConcat | src/lib.rs:1490-1551 | an address under prefix + suffix is under the prefix |
| Events.SuffixesExclusive | src/lib.rs:1490-1551 | no event suffix extends another, so an address routes to at most one event kind |
| Events.ParsedEventOrigin | src/lib.rs:1461-1564 | every event comes from a non-shadowed message under the prefix and the event's suffix, with exactly the event's number of integer arguments |
| Events.ParsePanics | src/lib.rs:1466-1480 | `parse` panics exactly on a bundle and on "/serialosc/add" with an empty argument list |
| Events.ShadowedYieldsNothing | src/lib.rs:1467-1489 | daemon and setup messages never yield an event |
| Events.ParseGridKey | src/lib.rs:1490-1511 | a key message with three integers is a key event, pressed exactly when the state is 1 |
| Events.GridKeyNeedsThreeInts | src/lib.rs:1490-1511 | any other argument list on a key address yields nothing |
| Events.UnknownSuffixYieldsNothing | src/lib.rs:1489-1553 | an address under the prefix with none of the four suffixes yields nothing |
| Events.EventRoundTrip | src/lib.rs:1490-1551 | every event, sent as a device sends it and parsed back, is the same event (encoder numbers below 2^31) |
| Session.WithPrefix | src/lib.rs:1395-1398 | `send`: the current prefix in front of the address; used by `Monome.Send` |
| Session.Offer | src/lib.rs:1401-1417 | `send_no_prefix`: a bounded channel that drops when full; pinned by `OfferAllKeepsOrder` and `OfferAllAppend` |
| Session.PrefixAll | src/lib.rs:1395-1398 | prefixing keeps the number of messages |
| Session.OfferAllKeepsOrder | src/lib.rs:1401-1417 | offering a burst keeps what was queued and adds the longest prefix of the burst that fits |
| Session.OfferAllAppend | src/lib.rs:1401-1417 | offering a burst in two parts is offering it at once |
| Session.MaskRowsAll | src/lib.rs:996-1013 | the nested loops' rows, concatenated, are all `set_all` sends, row a starting at a*(W/8) |
| Session.LevelRowsAll | src/lib.rs:1047-1061 | the same for `set_all_intensity` |
| Session.Monome.constructor | src/lib.rs:871-899 | name, kind and port come from the device, the prefix from the caller, the rest from the completed info; both queues are empty |
| Session.Monome.SendNoPrefix | src/lib.rs:1401-1417 | the message is queued if there is room and dropped otherwise |
| Session.Monome.Send | src/lib.rs:1395-1398 | the same, with the current prefix in front of the address |
| Session.Monome.Set | src/lib.rs:925-938 | on a grid, queues the `set` message; on anything else nothing changes |
| Session.Monome.All | src/lib.rs:957-967 | on a grid, queues the `all` message; otherwise nothing changes |
| Session.Monome.Map | src/lib.rs:1091-1108 | on a grid, queues the `map` message; otherwise nothing changes |
| Session.Monome.Row | src/lib.rs:1133-1150 | on a grid, queues the `row` message; otherwise nothing changes |
| Session.Monome.Col | src/lib.rs:1176-1193 | on a grid, queues the `col` message; otherwise nothing changes |
| Session.Monome.SetAll | src/lib.rs:989-1015 | on a grid, offers every quadrant message of `set_all` in order; otherwise nothing changes |
| Session.Monome.SendMaskRow | src/lib.rs:997-1013 | the inner loop offers quadrant row a, left to right |
| Session.Monome.SendMaskQuad | src/lib.rs:998-1012 | one quadrant is packed into the reused mask array and offered as a `map` |
| Session.Monome.SetAllIntensity | src/lib.rs:1040-1063 | on a grid, offers every quadrant message of `set_all_intensity` in order; otherwise nothing changes |
| Session.Monome.SendLevelRow | src/lib.rs:1048-1061 | the inner loop offers quadrant row a, left to right |
| Session.Monome.SendLevelQuad | src/lib.rs:1049-1060 | one quadrant is copied into the reused buffer and offered as a `level/map` |
| Session.Monome.RingSet | src/lib.rs:1215-1226 | on an arc, queues "/ring/set" with every number cast to `i32`; otherwise nothing changes |
| Session.Monome.RingAll | src/lib.rs:1246-1256 | on an arc, queues "/ring/all"; otherwise nothing changes |
| Session.Monome.RingRange | src/lib.rs:1279-1291 | on an arc, queues "/ring/range"; otherwise nothing changes |
| Session.Monome.RingMap | src/lib.rs:1314-1322 | queues "/ring/map" with 65 arguments, on any kind of device |
| Session.Monome.TiltAll | src/lib.rs:1326-1331 | queues "/tilt/set" for sensor 0 under the prefix, on any kind of device |
| Session.Monome.SetRotation | src/lib.rs:1334-1337 | queues "/sys/rotation" without the prefix, then records the rotation |
| Session.Monome.SetPrefix | src/lib.rs:1340-1343 | queues "/sys/prefix" without the prefix, then uses the new prefix for later messages |
| Session.Monome.Poll | src/lib.rs:1452-1459 | an empty queue gives no event; otherwise the oldest packet is removed and parsed with the current prefix |
| Session.Monome.Deliver | src/lib.rs:209-225 | a received packet is queued if there is room and dropped otherwise |
| Session.Monome.TakeOutbound | src/lib.rs:183-206 | the network thread sends the queued messages oldest first and empties the queue |
| Session.FromDevice | src/lib.rs:871-899 | the four handshake requests are sent; a session exists exactly when the handshake completes, and it holds the device's settings and the info's values |

## Left out

- The tokio transport's sockets, `new_bound_socket`, the port search from 10000, and the socket
  addresses. Network I/O is not modelled. Traces of decoded packets and the outbox/inbox
  sequences stand in for it.
- The OSC byte codec (`rosc` `encode`/`decode`) and its `unwrap` panics. Packets are modelled
  already decoded, because the codec is a foreign library. The library's own test
  (src/lib.rs:1703-1704) shows that the codec decodes an empty argument list as an absent one.
  So a message carrying `Some([])` never reaches `fill`, the watcher or `parse` from the network.
  The panics on an empty list modelled by `FillOnFieldAddr`, `React`/`WatchCrashes` and
  `ParsePanics` are therefore what the code does with such a packet, not something the running
  library can hit. For the same reason, the `/sys/info` request is modelled as a message with
  an empty argument list.
- Logging (`info!`, `debug!`, `error!`). It has no effect on state. The unreachable
  "/serialosc/remove" check inside `parse` only logs, so it is modelled as doing nothing.
- `Debug`/`Display` of `Monome` and `MonomeDevice`, the getters (`name` … `height`), and the
  `new`/`enumerate_devices`/`register_device_change_callback` wrappers that only pass the default
  port. These are formatting or pass-through code.
- The 500 ms enumeration delay. It is a `Timeout` event in the trace, because clocks are not
  modelled.
- The channel capacities 16 and 32. They are the parameters `outCap` and `inCap`. The futures
  channel's extra per-sender slot is not modelled.
- Threads and `thread::spawn`. The network thread's two loops are the `TakeOutbound` and
  `Deliver` methods, and no interleaving is modelled. That thread never ends, so the channel
  never disconnects. The model of `send_no_prefix` (`Offer`) therefore has only the full
  channel's drop, not the disconnected channel's drop (src/lib.rs:1409-1415).
- The example program `examples/random.rs`. It is not part of the library.
- Session.Monome.SetAll: the source indexes past the end of `leds` and panics when the slice is
  too short for the device's size. The model demands `GridCovered` instead of modelling that
  panic.
- Session.Monome.SetAllIntensity: the same precondition replaces the same out-of-bounds panic.
- Encoding.QuadCellInBounds: `toidx` computes in `i32`. The model uses unbounded integers, which
  agree with the source whenever width × height stays below 2^31.
- Handshake.Setup: a handshake that never completes blocks forever in the source. The model ends
  it as `Stalled` when the trace runs out.
- Discovery.EnumerateDevices: a receive error panics in the source. The trace has no error
  events, so the model does not include that panic.

## Behaviour taken from the code

Where the code's behaviour is not what a reader of its documentation or comments would expect,
the model follows the code:

- The 500 ms enumeration window restarts after every datagram, including key presses and
  bundles (src/lib.rs:700-705). It does not restart only after a device message, as the comment
  at src/lib.rs:34-35 says.
- In the watcher, "/serialosc/add" re-arms the registration whatever its first argument is. "/serialosc/remove" re-arms it only when that argument is a string.
- `tilt_all` sends its message under the application prefix.
- `fill` ignores a bundle instead of failing on it.
- In `parse`, the check for "/serialosc/remove" is nested inside the "/serialosc/add" branch and can never hold. A remove announcement therefore yields no event and never panics.
