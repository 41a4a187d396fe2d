/** `parsePacket`: the framing checks followed by dispatch on the message id,
    decoding channel responses and heart-rate broadcast pages. */
module Packet {
  import opened Bytes
  import opened Wrappers
  import opened Frame

  /** Inbound message ids the dispatcher recognises. */
  const ChannelEvent: bv8 := 0x40
  const BroadcastData: bv8 := 0x4E
  const StartUp: bv8 := 0x6F

  /** The declared length of a channel response: channel, message id, code. */
  const ChannelEventLength: bv8 := 3
  /** The shortest broadcast: channel number plus an 8-byte data page. */
  const MinBroadcastLength: bv8 := 9
  /** The declared length of a broadcast carrying extended data. */
  const ExtendedBroadcastLength: bv8 := 20
  /** The manufacturer-information data page. */
  const ManufacturerPage: bv8 := 2

  /** Offsets into the whole frame used by the broadcast decoder, kept exactly
      as `parsePacket` has them (`pkt[4]` is the page byte itself; the device
      number bytes are read high byte first). */
  const PageOffset: nat := 4
  const SerialLowOffset: nat := 5
  const SerialHighOffset: nat := 6
  const HeartRateOffset: nat := 11
  const DeviceHighOffset: nat := 14
  const DeviceLowOffset: nat := 15

  /** What one frame tells about the sensor; zero stands for "not present". */
  datatype PacketInfo = PacketInfo(
    hr: bv8,
    deviceNumber: bv16,
    errorCode: bv8,
    manuID: bv8,
    serial: bv16)

  const Empty: PacketInfo := PacketInfo(0, 0, 0, 0, 0)

  /** The errors `parsePacket` returns. */
  datatype ParseError =
    | Framing(cause: FramingError)
    | IncorrectLength
    | IncorrectBroadcastLength
    | ErrorResponse(channelID: bv8, msgID: bv8, code: bv8)

  /** The fields of a broadcast frame of declared length at least 9. */
  function DecodeBroadcast(pkt: seq<bv8>): (pi: PacketInfo)
    requires Framed(pkt) && pkt[1] >= MinBroadcastLength
    ensures pi.hr == pkt[HeartRateOffset] && pi.errorCode == 0
    ensures pi.manuID != 0 ==> pkt[PageOffset] & 0x7F == ManufacturerPage
    ensures pkt[PageOffset] & 0x7F == ManufacturerPage ==>
      pi.manuID == pkt[PageOffset] &&
      Low(pi.serial) == pkt[SerialLowOffset] && High(pi.serial) == pkt[SerialHighOffset]
    ensures pkt[PageOffset] & 0x7F != ManufacturerPage ==> pi.manuID == 0 && pi.serial == 0
    ensures pkt[1] == ExtendedBroadcastLength ==>
      Low(pi.deviceNumber) == pkt[DeviceLowOffset] && High(pi.deviceNumber) == pkt[DeviceHighOffset]
    ensures pkt[1] != ExtendedBroadcastLength ==> pi.deviceNumber == 0
  {
    var isManufacturerPage := pkt[PageOffset] & 0x7F == ManufacturerPage;
    var manuID := if isManufacturerPage then pkt[PageOffset] else 0;
    var serial := if isManufacturerPage then Join16(pkt[SerialLowOffset], pkt[SerialHighOffset]) else 0;
    var deviceNumber :=
      if pkt[1] == ExtendedBroadcastLength then
        JoinValue(pkt[DeviceLowOffset], pkt[DeviceHighOffset]);
        Join16(pkt[DeviceLowOffset], pkt[DeviceHighOffset])
      else 0;
    JoinValue(pkt[SerialLowOffset], pkt[SerialHighOffset]);
    PacketInfo(pkt[HeartRateOffset], deviceNumber, 0, manuID, serial)
  }

  /** Classification of a frame that passed the framing checks. */
  function Dispatch(pkt: seq<bv8>): (r: Result<PacketInfo, ParseError>)
    requires Framed(pkt)
    ensures r.Ok? ==> r.value.errorCode == 0
    ensures pkt[2] != BroadcastData && r.Ok? ==> r.value == Empty
    ensures pkt[2] != ChannelEvent && pkt[2] != BroadcastData ==> r == Ok(Empty)
  {
    var ll := pkt[1];
    if pkt[2] == ChannelEvent then
      if ll != ChannelEventLength then Err(IncorrectLength)
      else if pkt[5] != 0 then Err(ErrorResponse(pkt[3], pkt[4], pkt[5]))
      else Ok(Empty)
    else if pkt[2] == BroadcastData then
      if ll < MinBroadcastLength then Err(IncorrectBroadcastLength)
      else Ok(DecodeBroadcast(pkt))
    else
      // the start-up message and unknown ids are no-ops
      Ok(Empty)
  }

  /** `parsePacket`: framing checks first, then dispatch. */
  function Parse(pkt: seq<bv8>): (r: Result<PacketInfo, ParseError>)
    ensures r.Err? && r.error.Framing? <==> !Framed(pkt)
    ensures r.Ok? ==> r.value.errorCode == 0
    ensures r.Err? && r.error.ErrorResponse? ==>
      && Framed(pkt) && pkt[2] == ChannelEvent && |pkt| == 7 && r.error.code != 0
      && r.error == ErrorResponse(pkt[3], pkt[4], pkt[5])
    ensures r.Err? && r.error.IncorrectLength? ==>
      Framed(pkt) && pkt[2] == ChannelEvent && pkt[1] != ChannelEventLength
    ensures r.Err? && r.error.IncorrectBroadcastLength? ==>
      Framed(pkt) && pkt[2] == BroadcastData && pkt[1] < MinBroadcastLength
  {
    match CheckFrame(pkt)
    case Some(e) => Err(Framing(e))
    case None => Dispatch(pkt)
  }

  /** A channel response is accepted exactly when it is framed, declares three
      bytes and carries code 0, and then reports nothing. */
  lemma ChannelEventOutcome(pkt: seq<bv8>)
    requires Framed(pkt) && pkt[2] == ChannelEvent
    ensures Parse(pkt).Ok? <==> pkt[1] == ChannelEventLength && pkt[5] == 0
    ensures Parse(pkt).Ok? ==> Parse(pkt).value == Empty
    ensures pkt[1] == ChannelEventLength && pkt[5] != 0 ==>
      Parse(pkt) == Err(ErrorResponse(pkt[3], pkt[4], pkt[5]))
    ensures pkt[1] != ChannelEventLength ==> Parse(pkt) == Err(IncorrectLength)
  {
  }

  /** A broadcast is accepted exactly when it is framed and declares at least
      nine bytes (channel number plus an 8-byte page), and then reports the
      decoded page; a shorter one gets the broadcast length error. */
  lemma BroadcastOutcome(pkt: seq<bv8>)
    requires Framed(pkt) && pkt[2] == BroadcastData
    ensures pkt[1] < MinBroadcastLength ==> Parse(pkt) == Err(IncorrectBroadcastLength)
    ensures pkt[1] >= MinBroadcastLength ==> Parse(pkt) == Ok(DecodeBroadcast(pkt))
  {
  }

  /** Round trip: a well-formed command written by `send` passes every framing
      check, and one whose id is neither a channel response nor a broadcast
      parses to an all-zero packet info with no error. */
  lemma SendThenParse(data: seq<bv8>)
    requires WellFormedCommand(data)
    ensures !(Parse(Send(data)).Err? && Parse(Send(data)).error.Framing?)
    ensures data[1] != ChannelEvent && data[1] != BroadcastData ==> Parse(Send(data)) == Ok(Empty)
  {
  }

  /** Changing any single byte of a frame that passed the framing checks makes
      `parsePacket` report a checksum error. */
  lemma CorruptFrameIsChecksumError(pkt: seq<bv8>, i: nat, b: bv8)
    requires Framed(pkt)
    requires i < |pkt| && b != pkt[i]
    ensures Parse(pkt[i := b]) == Err(Framing(InvalidChecksum))
  {
    CorruptByteFailsChecksum(pkt, i, b);
  }

  /** The manufacturer-information page `[0x02, 0x34, 0x12, 0, 0, 0, 0, 0x96]`
      on channel 1 reports manufacturer 2, serial 0x1234 and heart rate 150. */
  lemma ManufacturerPageExample()
    ensures Parse(Send([9, BroadcastData, 0x01, 0x02, 0x34, 0x12, 0, 0, 0, 0, 0x96])) ==
      Ok(PacketInfo(150, 0, 0, 2, 0x1234))
  {
  }
}
