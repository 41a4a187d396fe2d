/** `configureAndOpenChannel`: the nine commands that reset the radio and open
    channel 1 for a heart-rate monitor, each written and then answered by one
    read, plus the close-channel command used at exit. */
module Handshake {
  import opened Bytes
  import opened Wrappers
  import opened Frame
  import opened Packet
  import opened Transport

  /** Per-device-class channel parameters (`antDeviceType`). */
  datatype DeviceType = DeviceType(
    channelType: bv8,
    rfChannel: bv8,
    transmissionType: bv8,
    deviceType: bv8,
    deviceNumber: bv16,
    channelPeriod: bv16,
    searchTimeout: bv8)

  /** The compiled-in heart-rate profile: RF channel 57, device type 120, a
      period of 8070 (32768/8070, about four messages a second) and a search
      timeout of 12 (30 seconds). */
  const HeartRate: DeviceType := DeviceType(0x00, 57, 0, 120, 0, 8070, 12)

  /** The ANT+ network key written to network 1. */
  const NetworkKey: seq<bv8> := [0xB9, 0xA5, 0x21, 0xFB, 0xBD, 0x72, 0xC3, 0x45]

  /** Why `sendAndWait` failed. */
  datatype ExchangeError = WriteError | ReadError | ParseFailed(cause: ParseError)

  /** `sendAndWaitCxt` after the frame has been written: the outcome of the
      write, then the parse of the reply read back. */
  function SendAndWait(ex: Exchange): (r: Result<PacketInfo, ExchangeError>)
    ensures r.Ok? <==> ex.Replied? && ex.read.Received? && Parse(ex.read.bytes).Ok?
    ensures r.Ok? ==> r.value == Parse(ex.read.bytes).value
    ensures r.Err? && r.error.ParseFailed? ==>
      ex.Replied? && ex.read.Received? && Parse(ex.read.bytes) == Err(r.error.cause)
  {
    match ex
    case WriteFailed => Err(WriteError)
    case Replied(ReadFailed) => Err(ReadError)
    case Replied(Received(bytes)) =>
      match Parse(bytes)
      case Ok(pi) => Ok(pi)
      case Err(e) => Err(ParseFailed(e))
  }

  /** One handshake step: the bytes given to `send` and whether an error on it
      ends the handshake (`configureAndOpenChannel` wraps and discards most
      errors). */
  datatype Command = Command(data: seq<bv8>, abortsOnError: bool)

  /** The handshake's commands in the order `configureAndOpenChannel` sends
      them. */
  function Commands(dt: DeviceType, deviceNumber: bv16): (cmds: seq<Command>)
    ensures |cmds| == 9
  {
    [ Command([0x01, 0x4A, 0x00], true),                            // system reset
      Command([0x09, 0x46, 0x01] + NetworkKey, true),               // set network key
      Command([0x03, 0x42, 1, dt.channelType, 1], false),           // assign channel
      Command([0x02, 0x45, 1, dt.rfChannel], true),                 // set channel RF
      Command([0x05, 0x51, 1, Low(deviceNumber), High(deviceNumber),
               dt.deviceType, dt.transmissionType], false),         // set channel ID
      Command([0x03, 0x43, 1, Low(dt.channelPeriod), High(dt.channelPeriod)], false), // set channel period
      Command([0x02, 0x44, 1, dt.searchTimeout], false),            // set search timeout
      Command([0x02, 0x6E, 0, 0xE0], false),                        // enable extended messages
      Command([0x01, 0x4B, 1], false) ]                             // open channel
  }

  /** The close-channel command for channel 1. */
  const CloseChannel: seq<bv8> := [0x01, 0x4C, 1]

  /** How the handshake ended: the channel was opened (`configureAndOpenChannel`
      returns nil), a step whose error is fatal failed, or the transport had
      no reply for the given step, whose frame has been written, and the
      program is still blocked in that step's read. */
  datatype Outcome = Opened | Aborted(step: nat, cause: ExchangeError) | Stalled(step: nat)

  /** The frames written, in order, and the outcome. */
  datatype Handshake = Handshake(sent: seq<seq<bv8>>, outcome: Outcome)

  /** The frames `send` writes for a list of commands. */
  function Frames(cmds: seq<Command>): (frames: seq<seq<bv8>>)
    ensures |frames| == |cmds|
    ensures forall i :: 0 <= i < |cmds| ==> frames[i] == Send(cmds[i].data)
  {
    if |cmds| == 0 then [] else [Send(cmds[0].data)] + Frames(cmds[1..])
  }

  /** Runs `cmds` against the transport replies `exs`, one reply per command,
      numbering steps from `done`. */
  function Run(cmds: seq<Command>, exs: seq<Exchange>, done: nat): Handshake
    decreases |cmds|
  {
    if |cmds| == 0 then Handshake([], Opened)
    else if |exs| == 0 then Handshake([Send(cmds[0].data)], Stalled(done))
    else
      var frame := Send(cmds[0].data);
      var r := SendAndWait(exs[0]);
      if r.Err? && cmds[0].abortsOnError then Handshake([frame], Aborted(done, r.error))
      else
        var rest := Run(cmds[1..], exs[1..], done + 1);
        Handshake([frame] + rest.sent, rest.outcome)
  }

  /** No fatal step among the first `n` commands failed. */
  ghost predicate FatalStepsSucceed(cmds: seq<Command>, exs: seq<Exchange>, n: nat)
    requires n <= |cmds| && n <= |exs|
  {
    forall i :: 0 <= i < n && cmds[i].abortsOnError ==> SendAndWait(exs[i]).Ok?
  }

  /** The frames written are the commands' frames, in order, one per command
      attempted. */
  lemma {:induction false} RunSendsInOrder(cmds: seq<Command>, exs: seq<Exchange>, done: nat)
    ensures |Run(cmds, exs, done).sent| <= |cmds|
    ensures Run(cmds, exs, done).sent == Frames(cmds)[..|Run(cmds, exs, done).sent|]
    decreases |cmds|
  {
    if |cmds| > 0 && |exs| > 0 {
      RunSendsInOrder(cmds[1..], exs[1..], done + 1);
      assert Frames(cmds) == [Send(cmds[0].data)] + Frames(cmds[1..]);
    }
  }

  /** The handshake opens exactly when there is a reply for every command and
      no step whose error is fatal failed; it has then sent every command. */
  lemma {:induction false} RunOpens(cmds: seq<Command>, exs: seq<Exchange>, done: nat)
    ensures Run(cmds, exs, done).outcome == Opened <==>
      |exs| >= |cmds| && FatalStepsSucceed(cmds, exs, |cmds|)
    ensures Run(cmds, exs, done).outcome == Opened ==> |Run(cmds, exs, done).sent| == |cmds|
    decreases |cmds|
  {
    if |cmds| > 0 && |exs| > 0 {
      RunOpens(cmds[1..], exs[1..], done + 1);
      if |exs| >= |cmds| {
        ShiftFatalSteps(cmds, exs, |cmds|);
      }
    }
  }

  /** A handshake that aborts does so at the first fatal step that failed,
      with that step's error, and sends nothing after it. */
  lemma {:induction false} RunAborts(cmds: seq<Command>, exs: seq<Exchange>, done: nat)
    ensures var h := Run(cmds, exs, done);
      h.outcome.Aborted? ==>
      var k := h.outcome.step - done;
      && done <= h.outcome.step
      && k < |cmds| && k < |exs|
      && |h.sent| == k + 1
      && cmds[k].abortsOnError
      && SendAndWait(exs[k]) == Err(h.outcome.cause)
      && FatalStepsSucceed(cmds, exs, k)
    decreases |cmds|
  {
    if |cmds| == 0 || |exs| == 0 {
      return;
    }
    var r := SendAndWait(exs[0]);
    if !(r.Err? && cmds[0].abortsOnError) {
      RunAborts(cmds[1..], exs[1..], done + 1);
      var h := Run(cmds, exs, done);
      if h.outcome.Aborted? {
        ShiftFatalSteps(cmds, exs, h.outcome.step - done);
      }
    }
  }

  /** A handshake stalls only when the replies run out before the commands;
      every reply was then consumed, no fatal step had failed, and the frame
      of the step left waiting for its reply has been written. */
  lemma {:induction false} RunStalls(cmds: seq<Command>, exs: seq<Exchange>, done: nat)
    ensures var h := Run(cmds, exs, done);
      h.outcome.Stalled? ==>
      && h.outcome.step == done + |exs|
      && |exs| < |cmds|
      && |h.sent| == |exs| + 1
      && FatalStepsSucceed(cmds, exs, |exs|)
    decreases |cmds|
  {
    if |cmds| > 0 && |exs| > 0 {
      RunStalls(cmds[1..], exs[1..], done + 1);
      if |exs| < |cmds| {
        ShiftFatalSteps(cmds, exs, |exs|);
      }
    }
  }

  /** `FatalStepsSucceed` over `n` steps is the first step's condition plus
      the condition over the remaining `n - 1`. */
  lemma ShiftFatalSteps(cmds: seq<Command>, exs: seq<Exchange>, n: nat)
    requires 0 < n <= |cmds| && n <= |exs|
    ensures FatalStepsSucceed(cmds, exs, n) <==>
      (cmds[0].abortsOnError ==> SendAndWait(exs[0]).Ok?) && FatalStepsSucceed(cmds[1..], exs[1..], n - 1)
  {
  }

  /** Replies to steps whose errors are discarded do not matter: two reply
      scripts of the same length that agree on every fatal step give the same
      handshake. */
  lemma {:induction false} RunIgnoresNonFatalReplies(
    cmds: seq<Command>, exs: seq<Exchange>, exs': seq<Exchange>, done: nat)
    requires |exs| == |exs'|
    requires forall i :: 0 <= i < |cmds| && i < |exs| && cmds[i].abortsOnError ==>
      SendAndWait(exs[i]) == SendAndWait(exs'[i])
    ensures Run(cmds, exs, done) == Run(cmds, exs', done)
    decreases |cmds|
  {
    if |cmds| > 0 && |exs| > 0 {
      forall i | 0 <= i < |cmds[1..]| && i < |exs[1..]| && cmds[1..][i].abortsOnError
        ensures SendAndWait(exs[1..][i]) == SendAndWait(exs'[1..][i])
      {
        assert cmds[1..][i] == cmds[i + 1];
      }
      RunIgnoresNonFatalReplies(cmds[1..], exs[1..], exs'[1..], done + 1);
    }
  }

  /** The message ids of the handshake, in sending order: reset, network key,
      assign channel, RF frequency, channel ID, channel period, search timeout,
      extended messages, open channel. */
  const HandshakeIds: seq<bv8> := [0x4A, 0x46, 0x42, 0x45, 0x51, 0x43, 0x44, 0x6E, 0x4B]

  /** The steps whose failure ends the handshake: reset, network key, RF. */
  const FatalSteps: set<nat> := {0, 1, 3}

  /** Every command of the handshake is correctly framed for `send`. */
  lemma CommandsWellFormed(dt: DeviceType, deviceNumber: bv16)
    ensures forall i :: 0 <= i < 9 ==> WellFormedCommand(Commands(dt, deviceNumber)[i].data)
  {
  }

  /** The handshake's commands carry, in order, the ids reset, network key,
      assign channel, RF frequency, channel ID, channel period, search
      timeout, extended messages, open channel. */
  lemma CommandIds(dt: DeviceType, deviceNumber: bv16)
    ensures forall i :: 0 <= i < 9 ==> Commands(dt, deviceNumber)[i].data[1] == HandshakeIds[i]
  {
  }

  /** The close-channel command is correctly framed, carries id 0x4C for
      channel 1, and its frame passes the framing checks. */
  lemma CloseChannelCommand()
    ensures WellFormedCommand(CloseChannel) && CloseChannel[1] == 0x4C && CloseChannel[2] == 1
    ensures Framed(Send(CloseChannel))
  {
  }

  /** The channel-ID command carries the device number low byte first, and
      the channel-period command carries the period the same way; the radio
      recombines both exactly. */
  lemma ChannelIdCarriesDeviceNumber(dt: DeviceType, deviceNumber: bv16)
    ensures var id := Send(Commands(dt, deviceNumber)[4].data);
      Join16(id[4], id[5]) == deviceNumber
    ensures var period := Send(Commands(dt, deviceNumber)[5].data);
      Join16(period[4], period[5]) == dt.channelPeriod
  {
  }

  /** For the handshake's commands, "no fatal step failed" means reset,
      network key and RF frequency each got an accepted reply. */
  lemma FatalStepsOfHandshake(dt: DeviceType, deviceNumber: bv16, exs: seq<Exchange>, n: nat)
    requires n <= 9 && n <= |exs|
    ensures FatalStepsSucceed(Commands(dt, deviceNumber), exs, n) <==>
      (forall j :: j in FatalSteps && j < n ==> SendAndWait(exs[j]).Ok?)
  {
    FatalFlags(dt, deviceNumber);
  }

  /** `configureAndOpenChannel` with the heart-rate profile. */
  function Configure(deviceNumber: bv16, exs: seq<Exchange>): Handshake
  {
    Run(Commands(HeartRate, deviceNumber), exs, 0)
  }

  /** The frames `configureAndOpenChannel` writes are a prefix of the nine
      commands in order. */
  lemma ConfigureSendsInOrder(deviceNumber: bv16, exs: seq<Exchange>)
    ensures var h := Configure(deviceNumber, exs);
      && |h.sent| <= 9
      && h.sent == Frames(Commands(HeartRate, deviceNumber))[..|h.sent|]
  {
    RunSendsInOrder(Commands(HeartRate, deviceNumber), exs, 0);
  }

  /** `configureAndOpenChannel` opens the channel exactly when every command
      was answered and reset, network key and RF frequency succeeded, whatever
      the other six replies were; it has then sent all nine commands. */
  lemma ConfigureOpens(deviceNumber: bv16, exs: seq<Exchange>)
    ensures var h := Configure(deviceNumber, exs);
      && (h.outcome == Opened <==>
           |exs| >= 9 && SendAndWait(exs[0]).Ok? && SendAndWait(exs[1]).Ok? && SendAndWait(exs[3]).Ok?)
      && (h.outcome == Opened ==> |h.sent| == 9)
  {
    var cmds := Commands(HeartRate, deviceNumber);
    RunOpens(cmds, exs, 0);
    if |exs| >= 9 {
      FatalStepsOfHandshake(HeartRate, deviceNumber, exs, 9);
    }
  }

  /** `configureAndOpenChannel` aborts only on reset, network key or RF
      frequency, on the first of them that failed, with that step's error,
      and sends nothing after it. */
  lemma ConfigureAborts(deviceNumber: bv16, exs: seq<Exchange>)
    ensures var h := Configure(deviceNumber, exs);
      h.outcome.Aborted? ==>
      && h.outcome.step in FatalSteps
      && h.outcome.step < |exs|
      && |h.sent| == h.outcome.step + 1
      && SendAndWait(exs[h.outcome.step]) == Err(h.outcome.cause)
      && (forall j :: j in FatalSteps && j < h.outcome.step ==> SendAndWait(exs[j]).Ok?)
  {
    var cmds := Commands(HeartRate, deviceNumber);
    var h := Run(cmds, exs, 0);
    RunAborts(cmds, exs, 0);
    if h.outcome.Aborted? {
      FatalFlags(HeartRate, deviceNumber);
      FatalStepsOfHandshake(HeartRate, deviceNumber, exs, h.outcome.step);
    }
  }

  /** The handshake's fatal steps are exactly reset, network key and RF. */
  lemma FatalFlags(dt: DeviceType, deviceNumber: bv16)
    ensures forall i :: 0 <= i < 9 ==> (Commands(dt, deviceNumber)[i].abortsOnError <==> i in FatalSteps)
  {
  }

  /** Errors on assign channel, channel ID, channel period, search timeout,
      extended messages and open channel are discarded: two reply scripts of
      the same length that agree on reset, network key and RF frequency give
      the same handshake. */
  lemma ConfigureIgnoresNonFatalReplies(deviceNumber: bv16, exs: seq<Exchange>, exs': seq<Exchange>)
    requires |exs| == |exs'|
    requires forall j :: j in FatalSteps && j < |exs| ==> SendAndWait(exs[j]) == SendAndWait(exs'[j])
    ensures Configure(deviceNumber, exs) == Configure(deviceNumber, exs')
  {
    FatalFlags(HeartRate, deviceNumber);
    RunIgnoresNonFatalReplies(Commands(HeartRate, deviceNumber), exs, exs', 0);
  }
}
