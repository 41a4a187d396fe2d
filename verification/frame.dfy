/** ANT serial message framing: `[0xA4][length][msgId][payload][checksum]`,
    where the checksum makes the XOR of the whole frame zero. */
module Frame {
  import opened Bytes
  import opened Wrappers

  /** The sync byte every frame starts with. */
  const Sync: bv8 := 0xA4

  /** Sizes `parsePacket` accepts, in bytes. */
  const MinFrameSize: nat := 4
  const MaxFrameSize: nat := 56

  /** The largest declared length a frame of at most 56 bytes can carry. */
  const MaxPayload: nat := MaxFrameSize - 4

  /** `data` as `send` takes it: a length byte, a message id, and exactly that
      many payload bytes, small enough to fit a frame. */
  predicate WellFormedCommand(data: seq<bv8>)
  {
    2 <= |data| && data[0] as int == |data| - 2 && data[0] as nat <= MaxPayload
  }

  /** The bytes `send` writes for `data`: the sync byte, `data`, and a last
      byte set to the XOR of everything before it. */
  function Send(data: seq<bv8>): (frame: seq<bv8>)
    ensures |frame| == |data| + 2
    ensures frame[0] == Sync
    ensures frame[1..|frame| - 1] == data
    ensures XorAll(frame) == 0
  {
    var packet := [Sync] + data + [0];
    var last := |packet| - 1;
    assert packet[..last] == [Sync] + data;
    assert XorAll(packet) == XorAll([Sync] + data);
    var frame := packet[last := XorAll(packet)];
    assert frame[..last] == [Sync] + data;
    frame
  }

  /** Why `parsePacket` rejects a frame before looking at its message id. */
  datatype FramingError =
    | InvalidPacketLength(size: nat)
    | InvalidChecksum
    | InvalidSync(sync: bv8)
    | UnexpectedPacketLength(size: nat, declared: bv8)

  /** The frame's size is one `parsePacket` accepts. */
  predicate SizeInRange(pkt: seq<bv8>)
  {
    MinFrameSize <= |pkt| <= MaxFrameSize
  }

  /** The framing checks of `parsePacket`, in the Go code's order: size, then
      checksum, then sync byte, then declared length. Each error is reported
      exactly when its own check fails and every earlier one passed. `None`
      means the frame passed all four. */
  function CheckFrame(pkt: seq<bv8>): (r: Option<FramingError>)
    ensures r == None <==>
      && SizeInRange(pkt)
      && XorAll(pkt) == 0
      && pkt[0] == Sync
      && |pkt| == pkt[1] as int + 4
    ensures (r.Some? && r.value.InvalidPacketLength?) <==> !SizeInRange(pkt)
    ensures !SizeInRange(pkt) ==> r == Some(InvalidPacketLength(|pkt|))
    ensures r == Some(InvalidChecksum) <==> SizeInRange(pkt) && XorAll(pkt) != 0
    ensures (r.Some? && r.value.InvalidSync?) <==>
      SizeInRange(pkt) && XorAll(pkt) == 0 && pkt[0] != Sync
    ensures SizeInRange(pkt) && XorAll(pkt) == 0 && pkt[0] != Sync ==>
      r == Some(InvalidSync(pkt[0]))
    ensures (r.Some? && r.value.UnexpectedPacketLength?) <==>
      SizeInRange(pkt) && XorAll(pkt) == 0 && pkt[0] == Sync && |pkt| != pkt[1] as int + 4
    ensures SizeInRange(pkt) && XorAll(pkt) == 0 && pkt[0] == Sync && |pkt| != pkt[1] as int + 4 ==>
      r == Some(UnexpectedPacketLength(|pkt|, pkt[1]))
  {
    if |pkt| < MinFrameSize || |pkt| > MaxFrameSize then Some(InvalidPacketLength(|pkt|))
    else if XorAll(pkt) != 0 then Some(InvalidChecksum)
    else if pkt[0] != Sync then Some(InvalidSync(pkt[0]))
    else if |pkt| != pkt[1] as int + 4 then Some(UnexpectedPacketLength(|pkt|, pkt[1]))
    else None
  }

  /** A frame that passed the framing checks. */
  predicate Framed(pkt: seq<bv8>)
  {
    CheckFrame(pkt) == None
  }

  /** Every command `send` is given correctly framed passes `parsePacket`'s
      framing checks. */
  lemma SendIsFramed(data: seq<bv8>)
    requires WellFormedCommand(data)
    ensures Framed(Send(data))
  {
  }

  /** Conversely, every frame that passes the framing checks is what `send`
      writes for its inner bytes. */
  lemma FramedIsSent(pkt: seq<bv8>)
    requires Framed(pkt)
    ensures WellFormedCommand(pkt[1..|pkt| - 1])
    ensures pkt == Send(pkt[1..|pkt| - 1])
  {
    var data := pkt[1..|pkt| - 1];
    var frame := Send(data);
    var last := |pkt| - 1;
    assert pkt[..last] == [pkt[0]] + data;
    assert frame[..last] == [frame[0]] + frame[1..last];
    ChecksumFixesLastByte(pkt, frame);
  }

  /** Two sequences with XOR zero that agree on all but their last byte agree
      on that one too. */
  lemma ChecksumFixesLastByte(a: seq<bv8>, b: seq<bv8>)
    requires |a| == |b| > 0
    requires a[..|a| - 1] == b[..|b| - 1]
    requires XorAll(a) == 0 && XorAll(b) == 0
    ensures a == b
  {
  }

  /** Changing any single byte of an accepted frame makes the checksum fail,
      because the size check passes as before and runs first. */
  lemma {:induction false} CorruptByteFailsChecksum(pkt: seq<bv8>, i: nat, b: bv8)
    requires Framed(pkt)
    requires i < |pkt| && b != pkt[i]
    ensures CheckFrame(pkt[i := b]) == Some(InvalidChecksum)
  {
    XorAllUpdate(pkt, i, b);
  }
}
