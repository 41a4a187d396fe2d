# ANT+ heart-rate monitor bridge — protocol core in Dafny

This project models the protocol engine of a small Go program that reads an
ANT+ heart-rate strap through an ANT USB stick and tints a smart light by the
wearer's heart rate. It covers:

- **Framing** (`frame.dfy`, module `Frame`): `send` builds
  `[0xA4][length][msgId][payload][checksum]` with an XOR checksum, following
  the message-structure chapter of Dynastream's *ANT Message Protocol and
  Usage*; the framing checks of `parsePacket` run in the code's order: size
  4..56, then checksum, then sync byte, then declared length.
- **Dispatch and broadcast decoding** (`packet.dfy`, module `Packet`):
  `parsePacket` on channel responses (`0x40`), broadcast data (`0x4E`), the
  start-up message (`0x6F`) and unknown ids. The broadcast offsets are kept
  exactly as the code has them (see below).
- **Channel handshake** (`handshake.dfy`, module `Handshake`):
  `configureAndOpenChannel` with the fixed heart-rate profile sends nine
  commands. Each one is written, then answered by one read and parsed
  (`sendAndWaitCxt`). The transport is a script of `Exchange`s, one per
  command. The close-channel command bytes are modelled too.
- **Telemetry loop** (`telemetry.dfy`, module `Telemetry`): the body of the
  `for` loop in `main` is a step function over one read result. It skips,
  stops, or merges the non-zero fields into the running `packetInfo` and
  notifies on a heart-rate change. The loop itself is a fold (`Poll`) over a
  finite sequence of read results.
- **Light colour** (`notify.dfy`, module `Notify`): the saturation arithmetic
  of `notifyHR` and the constant parts of the light state.

`bytes.dfy` holds the XOR fold and the 16-bit split/join. `wrappers.dfy`
holds `Option`/`Result`. `transport.dfy` (module `Transport`) holds what one
read or one write-then-read of the stick can return.

Bytes on the wire are `bv8`. The Go code's `uint16` fields are `bv16`.
Go's truncating `/` is written out as `Notify.TruncDiv`.

In these places the model follows the Go code:

- The checksum is checked before the sync byte, so a frame with a bad sync
  byte and a bad checksum reports the checksum.
- `send` does not check the payload length. The model therefore states its
  properties for well-formed commands (`Frame.WellFormedCommand`) and
  does not reject other input.
- Only reset, network key and RF frequency abort the handshake. Errors on
  the other six steps are wrapped, then discarded, and the function still
  returns nil.
- For data page 2, the manufacturer id is the page byte itself (`pkt[4]`),
  and the serial is read from `pkt[5..6]`. With extended data (declared
  length 20), the device number is `pkt[15] | pkt[14] << 8`. The ANT+ heart-rate
  profile places these fields one byte later and in the other byte order;
  the code's offsets are kept unchanged, as named constants in `Packet`.

## Model

| member | source | states |
|---|---|---|
| Bytes.XorAllAppend | main.go:263-266 | the checksum fold over a concatenation is the XOR of the folds of the parts |
| Bytes.XorAllUpdate | main.go:302-305 | replacing one byte changes the checksum fold by exactly the old byte XOR the new one |
| Bytes.JoinValue | main.go:349 | `lo` OR `hi << 8` equals `lo + 256 * hi`, and its low and high bytes are `lo` and `hi` again |
| Bytes.JoinSplit | main.go:156-157 | splitting a 16-bit value into `byte(v & 0xFF)` and `byte((v & 0xFF00) >> 8)` and recombining gives the value back |
| Frame.Send | main.go:259-267 | the frame is one byte longer at each end than `data`: it starts with 0xA4, carries `data` unchanged, and the XOR of the whole frame is 0 |
| Frame.CheckFrame | main.go:298-319 | a frame passes iff its size is 4..56, its XOR is 0, it starts with 0xA4 and its size is the declared length plus 4; each error, with its payload (size, sync byte, declared length), is returned exactly when its own check fails and every earlier check passed |
| Frame.SendIsFramed | main.go:259-319 | every well-formed command written by `send` passes all four framing checks |
| Frame.FramedIsSent | main.go:298-319 | every frame that passes the framing checks is exactly what `send` writes for its inner bytes, which form a well-formed command |
| Frame.CorruptByteFailsChecksum | main.go:298-308 | changing any single byte of an accepted frame yields the checksum error |
| Packet.DecodeBroadcast | main.go:339-363 | hr is always `pkt[11]`; manuID `pkt[4]` and serial bytes `pkt[5]`, `pkt[6]` exactly when the page is 2 (else both 0); device number bytes low `pkt[15]`, high `pkt[14]` exactly when the declared length is 20 (else 0) |
| Packet.Dispatch | main.go:323-377 | results carry error code 0; only broadcasts yield non-zero fields; the start-up message and unknown ids yield an all-zero result and no error |
| Packet.Parse | main.go:291-378 | a framing error exactly when the framing checks fail; an error response only for a 7-byte channel event with non-zero code, carrying `pkt[3..5]`; the channel-event length error only for a framed channel event not declaring 3 bytes; the broadcast length error only for a framed broadcast declaring fewer than 9 |
| Packet.ChannelEventOutcome | main.go:324-338 | a framed channel event parses iff it declares 3 bytes and has code 0, and then reports nothing; a non-zero code gives `errorResponse{pkt[3], pkt[4], pkt[5]}`; a wrong length gives the length error |
| Packet.BroadcastOutcome | main.go:339-363 | a framed broadcast declaring fewer than 9 bytes gets the broadcast length error; one declaring 9 or more parses to exactly the decoded page |
| Packet.SendThenParse | main.go:259-377 | a well-formed command's frame never gives a framing error, and for an id other than 0x40/0x4E it parses to all zeros with no error |
| Packet.CorruptFrameIsChecksumError | main.go:298-308 | a single changed byte of an accepted frame makes `parsePacket` report the checksum error |
| Packet.ManufacturerPageExample | main.go:339-351 | page `[0x02, 0x34, 0x12, 0, 0, 0, 0, 0x96]` on channel 1 gives manuID 2, serial 0x1234, hr 150 |
| Handshake.SendAndWait | main.go:238-250 | success iff the write and the read succeeded and the reply parsed, returning the parsed info; a parse failure carries the parse error |
| Handshake.RunSendsInOrder | main.go:101-209 | the frames written are the commands' frames in order, one per command attempted |
| Handshake.RunOpens | main.go:101-209 | the handshake opens iff every command got a reply and no fatal step failed; it has then sent every command |
| Handshake.RunAborts | main.go:101-123 | an abort happens at the first failed fatal step, with that step's error, and nothing is sent after it |
| Handshake.RunStalls | main.go:238-247 | running out of replies leaves the handshake blocked in the next step's read, after that step's frame was written; every reply was consumed and no fatal step failed |
| Handshake.RunIgnoresNonFatalReplies | main.go:129-207 | reply scripts that agree on the fatal steps give the same handshake |
| Handshake.CommandsWellFormed | main.go:101-207 | each of the nine commands has a length byte equal to its payload size and fits a frame |
| Handshake.CommandIds | main.go:101-207 | the commands' ids are 0x4A, 0x46, 0x42, 0x45, 0x51, 0x43, 0x44, 0x6E, 0x4B in that order |
| Handshake.CloseChannelCommand | main.go:48-52 | the close-channel command `[1, 0x4C, 1]` is well formed and its frame passes the framing checks |
| Handshake.ChannelIdCarriesDeviceNumber | main.go:151-175 | the channel-ID frame carries the device number low byte then high byte, and the period frame carries the period the same way; both recombine exactly |
| Handshake.FatalFlags | main.go:108-206 | the steps that abort on error are exactly reset, network key and RF frequency |
| Handshake.ConfigureSendsInOrder | main.go:101-209 | with the heart-rate profile, the frames written are a prefix of the nine commands in order |
| Handshake.ConfigureOpens | main.go:101-209 | the channel opens iff nine replies exist and reset, network key and RF succeeded, whatever the other six replies were; all nine frames were then sent |
| Handshake.ConfigureAborts | main.go:108-149 | an abort happens only at reset, network key or RF, on the first of them that failed, with its error, and nothing is sent after it |
| Handshake.ConfigureIgnoresNonFatalReplies | main.go:136-207 | replies to the six steps whose errors are discarded do not change the handshake |
| Telemetry.MergeKeepsAndTakes | main.go:79-95 | merging never clears a known field and never touches the error code; every non-zero field of the fragment is taken; an all-zero fragment changes nothing |
| Telemetry.MergeLaws | main.go:79-95 | merging two fragments in turn equals merging their merge, and a repeated fragment changes nothing |
| Telemetry.Notification | main.go:79-84 | `notifyHR` is called iff the fragment's hr is non-zero and differs from the running hr, with that hr, which becomes the running hr; otherwise the running hr is unchanged |
| Telemetry.StepOf | main.go:61-95 | an iteration skips iff the frame is an error response with code 2; it stops iff the read failed or any other parse error occurred; otherwise it merges and notifies |
| Telemetry.StepNotifies | main.go:79-86 | after a continuing iteration, the running hr is the notified one, or the old one when nothing was notified |
| Telemetry.PollNotifiesChanges | main.go:61-98 | over a whole run every notified rate is non-zero and differs from the one before, the first differs from the starting rate, and the final running rate is the last notified |
| Telemetry.PollNotifiesEachChange | main.go:79-86 | in a running loop, an iteration calls `notifyHR` exactly when it changes the running rate, with the new rate, and otherwise calls nothing |
| Telemetry.PollKeepsKnownFields | main.go:85-95 | over a whole run no known field of the running state is ever cleared and the error code is untouched |
| Telemetry.PollAppend | main.go:61-98 | running the loop over `a + b` is running it over `a` and then continuing with `b`, and a stopped run stays stopped |
| Telemetry.PollSkipsRxFail | main.go:69-75 | inserting a code-2 error response anywhere in the input changes nothing |
| Telemetry.PollStopsOnError | main.go:63-77 | a read error or another parse error stops the loop with the state and notifications it had |
| Telemetry.RepeatedRateNotifiesOnce | main.go:79-86 | two frames in a row with the same non-zero rate, whatever their other fields, give at most one notification, and only if the rate differs from the running rate |
| Telemetry.MergeExample | main.go:85-89 | hr 80 then device number 1234 merge to hr 80 with device number 1234 |
| Notify.Saturation | notify.go:39-52 | saturation is 0 at 70 bpm or below, 255 at 170 or above, and `(hr-70)*255/100` in between with no clamping; always 0..255 |
| Notify.SaturationMonotone | notify.go:44-52 | the saturation never decreases as the heart rate rises |
| Notify.NotifyHR | notify.go:30-59 | the light state is on, brightness 255, hue 65535, with the saturation of `hr`; the sensor id does not affect it |

## Left out

- USB discovery and endpoint binding (`accessANT`, `Close`) and the endpoint `Write`/`ReadContext` calls. These are device plumbing. Each command's write and read are an `Exchange`, and the loop's reads are `ReadResult`s.
- The 56-byte read buffer is not modelled separately. A read result is any byte sequence, and `parsePacket`'s size check rejects anything over 56.
- The interrupt listener and context cancellation (main.go:38-44). This is concurrency. Cancelling a read appears as a failed read.
- The 500 ms sleep after reset (main.go:112). This is timing only; the model keeps just the order of the commands.
- The deferred close-channel exchange and its `log.Fatalf` (main.go:46-57). Only the command bytes are modelled (`Handshake.CloseChannel`). The exit ordering against cancellation is process lifetime, not protocol.
- Console output: the progress spinner and `fmt`/`log` printing, including printing unknown frames (main.go:97, 374).
- Flag parsing, and the truncation of the `-device` flag from `uint` to `uint16` in `main`. `Handshake.Configure` takes the 16-bit device number directly.
- Sensor registration and every HTTP, JSON and TLS call in notify.go (`hueUpdate`, `ensureSensor` and the rest). These are network clients. The light state that `notifyHR` would send is `Notify.NotifyHR`. Whether the call fails is only logged by the loop, so `Telemetry.Poll` has no input for it.
- The `packetInfo` that `parsePacket` returns together with an error (with `errorCode` set) is dropped. No caller reads it.
- The `deviceNumber` field of `antDeviceType` is kept, but no command uses it; the code sends the function's parameter instead.
- What happens after the replies run out. The real read would block there, after that step's frame was written. The handshake model reports this as the `Stalled` outcome, with that frame counted as sent, and makes no claim beyond it.
- The endless run of the telemetry loop. The loop never ends on its own, but the fold covers only finite input; `halted == None` means it is still polling.
