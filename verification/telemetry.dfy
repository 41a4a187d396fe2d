/** The body of the telemetry loop in `main`: read a frame, parse it, skip
    "no data" channel events, stop on any other error, merge the non-zero
    fields into the running state and notify on every change of heart rate. */
module Telemetry {
  import opened Bytes
  import opened Wrappers
  import opened Packet
  import opened Transport

  /** The channel event code the loop treats as "nothing received this
      period" (EVENT_RX_FAIL in the ANT message protocol). */
  const RxFail: bv8 := 2

  /** Why the loop stopped: the read failed, or the frame did not parse. */
  datatype LoopError = ReadFault | ParseFault(cause: ParseError)

  /** The outcome of one iteration: skip it, stop, or continue with a new
      running state, having called `notifyHR` with `notify` if present. */
  datatype Step = Skip | Fatal(error: LoopError) | Continue(state: PacketInfo, notify: Option<bv8>)

  /** A 16-bit field keeps its old value unless the fragment has a non-zero one. */
  function Prefer16(prev: bv16, next: bv16): bv16
  {
    if next != 0 then next else prev
  }

  /** An 8-bit field keeps its old value unless the fragment has a non-zero one. */
  function Prefer8(prev: bv8, next: bv8): bv8
  {
    if next != 0 then next else prev
  }

  /** Merging a fragment `pi` into the running state `fpi`: every non-zero
      field of the fragment overwrites, every zero field leaves the state as
      it was; the error code is never merged. */
  function Merge(fpi: PacketInfo, pi: PacketInfo): PacketInfo
  {
    PacketInfo(
      Prefer8(fpi.hr, pi.hr),
      Prefer16(fpi.deviceNumber, pi.deviceNumber),
      fpi.errorCode,
      Prefer8(fpi.manuID, pi.manuID),
      Prefer16(fpi.serial, pi.serial))
  }

  /** Every field of `s` that is non-zero is non-zero in `t` too. */
  predicate KeepsKnownFields(s: PacketInfo, t: PacketInfo)
  {
    && (s.hr != 0 ==> t.hr != 0)
    && (s.deviceNumber != 0 ==> t.deviceNumber != 0)
    && (s.manuID != 0 ==> t.manuID != 0)
    && (s.serial != 0 ==> t.serial != 0)
  }

  /** Merging never forgets a known field, never touches the error code, and
      takes each field of the fragment that is known. */
  lemma MergeKeepsAndTakes(fpi: PacketInfo, pi: PacketInfo)
    ensures var m := Merge(fpi, pi);
      && KeepsKnownFields(fpi, m)
      && m.errorCode == fpi.errorCode
      && (pi.hr != 0 ==> m.hr == pi.hr)
      && (pi.deviceNumber != 0 ==> m.deviceNumber == pi.deviceNumber)
      && (pi.manuID != 0 ==> m.manuID == pi.manuID)
      && (pi.serial != 0 ==> m.serial == pi.serial)
      && (pi.hr == 0 && pi.deviceNumber == 0 && pi.manuID == 0 && pi.serial == 0 ==> m == fpi)
  {
  }

  /** Merging is associative and idempotent: merging two fragments one after
      the other is merging their own merge, and a repeated fragment changes
      nothing. */
  lemma MergeLaws(s: PacketInfo, a: PacketInfo, b: PacketInfo)
    ensures Merge(Merge(s, a), b) == Merge(s, Merge(a, b))
    ensures Merge(Merge(s, a), a) == Merge(s, a)
  {
  }

  /** The heart rate `notifyHR` is called with, if any: a non-zero rate that
      differs from the running one. */
  function Notification(fpi: PacketInfo, pi: PacketInfo): (n: Option<bv8>)
    ensures n.Some? <==> pi.hr != 0 && pi.hr != fpi.hr
    ensures n.Some? ==> n.value == pi.hr && n.value == Merge(fpi, pi).hr
    ensures n.None? ==> Merge(fpi, pi).hr == fpi.hr
  {
    if pi.hr != 0 && pi.hr != fpi.hr then Some(pi.hr) else None
  }

  /** The read result whose parse is a channel event with code 2. */
  predicate IsRxFail(read: ReadResult)
  {
    read.Received? && Parse(read.bytes).Err? && Parse(read.bytes).error.ErrorResponse?
    && Parse(read.bytes).error.code == RxFail
  }

  /** One iteration of the loop on one read result. */
  function StepOf(fpi: PacketInfo, read: ReadResult): (st: Step)
    ensures st.Skip? <==> IsRxFail(read)
    ensures st.Fatal? <==> read.ReadFailed? || (Parse(read.bytes).Err? && !IsRxFail(read))
    ensures st.Fatal? && read.Received? ==> st.error == ParseFault(Parse(read.bytes).error)
    ensures st.Continue? ==>
      read.Received? && Parse(read.bytes).Ok?
      && st.state == Merge(fpi, Parse(read.bytes).value)
      && st.notify == Notification(fpi, Parse(read.bytes).value)
  {
    match read
    case ReadFailed => Fatal(ReadFault)
    case Received(bytes) =>
      match Parse(bytes)
      case Err(e) => if e.ErrorResponse? && e.code == RxFail then Skip else Fatal(ParseFault(e))
      case Ok(pi) => Continue(Merge(fpi, pi), Notification(fpi, pi))
  }

  /** Where a run of the loop got to: the running state, the heart rates
      `notifyHR` was called with, in order, and the error that stopped it, if
      any (with none, the loop is still waiting for its next read). */
  datatype Polled = Polled(state: PacketInfo, notified: seq<bv8>, halted: Option<LoopError>)

  /** The loop over a finite sequence of read results, from running state
      `fpi`. A failed notification is only logged, so it has no input here. */
  function Poll(fpi: PacketInfo, frames: seq<ReadResult>): Polled
    decreases |frames|
  {
    if |frames| == 0 then Polled(fpi, [], None)
    else
      match StepOf(fpi, frames[0])
      case Skip => Poll(fpi, frames[1..])
      case Fatal(e) => Polled(fpi, [], Some(e))
      case Continue(s, n) =>
        var rest := Poll(s, frames[1..]);
        Polled(rest.state, (if n.Some? then [n.value] else []) + rest.notified, rest.halted)
  }

  /** Continues a run that reached `p` with further frames: a halted run stays
      as it is. */
  function Resume(p: Polled, frames: seq<ReadResult>): Polled
  {
    if p.halted.Some? then p
    else
      var q := Poll(p.state, frames);
      Polled(q.state, p.notified + q.notified, q.halted)
  }

  /** The notifications of a run from `start` to `final`: each is a non-zero
      heart rate different from the one before it (the first differs from
      the starting rate), and the final rate is the last one notified. */
  predicate NotifiesChanges(start: bv8, notified: seq<bv8>, final: bv8)
  {
    && (forall i :: 0 <= i < |notified| ==> notified[i] != 0)
    && (forall i :: 0 < i < |notified| ==> notified[i] != notified[i - 1])
    && (|notified| > 0 ==> notified[0] != start)
    && final == (if |notified| > 0 then notified[|notified| - 1] else start)
  }

  /** After one iteration that continues, the running heart rate is the one
      notified, or the old one when nothing was notified. */
  lemma StepNotifies(fpi: PacketInfo, read: ReadResult)
    requires StepOf(fpi, read).Continue?
    ensures var st := StepOf(fpi, read);
      && (st.notify.Some? ==> st.notify.value != 0 && st.notify.value != fpi.hr && st.state.hr == st.notify.value)
      && (st.notify.None? ==> st.state.hr == fpi.hr)
  {
  }

  /** Over any run, every call of `notifyHR` is with a new non-zero heart
      rate, and the running rate is the last one notified. That no change goes
      unnotified is `PollNotifiesEachChange`. */
  lemma {:induction false} PollNotifiesChanges(fpi: PacketInfo, frames: seq<ReadResult>)
    ensures var p := Poll(fpi, frames);
      NotifiesChanges(fpi.hr, p.notified, p.state.hr)
    decreases |frames|
  {
    if |frames| > 0 {
      match StepOf(fpi, frames[0])
      case Skip => PollNotifiesChanges(fpi, frames[1..]);
      case Fatal(e) =>
      case Continue(s, n) =>
        StepNotifies(fpi, frames[0]);
        PollNotifiesChanges(s, frames[1..]);
        var rest := Poll(s, frames[1..]);
        if n.Some? {
          ConsNotification(fpi.hr, n.value, rest.notified, rest.state.hr);
        } else {
          assert [] + rest.notified == rest.notified;
        }
    }
  }

  /** Each iteration of a running loop calls `notifyHR` exactly when it
      changes the running heart rate, and then with the new rate: the
      notifications are exactly the sequence of rate changes. */
  lemma PollNotifiesEachChange(fpi: PacketInfo, a: seq<ReadResult>, x: ReadResult)
    requires Poll(fpi, a).halted.None?
    ensures var p, q := Poll(fpi, a), Poll(fpi, a + [x]);
      && (q.state.hr != p.state.hr <==> q.notified == p.notified + [q.state.hr])
      && (q.state.hr == p.state.hr ==> q.notified == p.notified)
  {
    var p := Poll(fpi, a);
    PollAppend(fpi, a, [x]);
    assert [x][1..] == [];
    match StepOf(p.state, x)
    case Skip =>
      assert Poll(p.state, [x]) == Poll(p.state, []);
      assert p.notified + [] == p.notified;
    case Fatal(e) =>
      assert Poll(p.state, [x]) == Polled(p.state, [], Some(e));
      assert p.notified + [] == p.notified;
    case Continue(s, n) =>
      StepNotifies(p.state, x);
      assert Poll(s, []) == Polled(s, [], None);
      if n.Some? {
        assert Poll(p.state, [x]) == Polled(s, [n.value], None);
      } else {
        assert Poll(p.state, [x]) == Polled(s, [], None);
        assert p.notified + [] == p.notified;
        assert |p.notified + [s.hr]| != |p.notified|;
      }
  }

  /** Prepending a notification of a new non-zero rate to the notifications
      of a run that started from that rate keeps them a record of changes. */
  lemma ConsNotification(start: bv8, hr: bv8, notified: seq<bv8>, final: bv8)
    requires hr != 0 && hr != start
    requires NotifiesChanges(hr, notified, final)
    ensures NotifiesChanges(start, [hr] + notified, final)
  {
  }

  /** Over any run, no known field is forgotten and the error code is
      untouched. */
  lemma {:induction false} PollKeepsKnownFields(fpi: PacketInfo, frames: seq<ReadResult>)
    ensures var p := Poll(fpi, frames);
      KeepsKnownFields(fpi, p.state) && p.state.errorCode == fpi.errorCode
    decreases |frames|
  {
    if |frames| > 0 {
      match StepOf(fpi, frames[0])
      case Skip => PollKeepsKnownFields(fpi, frames[1..]);
      case Fatal(e) =>
      case Continue(s, n) =>
        PollKeepsKnownFields(s, frames[1..]);
        MergeKeepsAndTakes(fpi, Parse(frames[0].bytes).value);
    }
  }

  /** Running the loop over `a + b` is running it over `a` and resuming with
      `b`: the loop carries nothing between iterations but its state. */
  lemma {:induction false} PollAppend(fpi: PacketInfo, a: seq<ReadResult>, b: seq<ReadResult>)
    ensures Poll(fpi, a + b) == Resume(Poll(fpi, a), b)
    decreases |a|
  {
    if |a| == 0 {
      assert a + b == b;
    } else {
      assert (a + b)[0] == a[0];
      assert (a + b)[1..] == a[1..] + b;
      match StepOf(fpi, a[0])
      case Skip => PollAppend(fpi, a[1..], b);
      case Fatal(e) =>
      case Continue(s, n) =>
        PollAppend(s, a[1..], b);
        var prefix := if n.Some? then [n.value] else [];
        var p := Poll(s, a[1..]);
        if p.halted.None? {
          var q := Poll(p.state, b);
          assert prefix + (p.notified + q.notified) == (prefix + p.notified) + q.notified;
        }
    }
  }

  /** A channel event with code 2 anywhere in the frames changes nothing: the
      iteration is skipped with the running state as it was. */
  lemma PollSkipsRxFail(fpi: PacketInfo, a: seq<ReadResult>, x: ReadResult, b: seq<ReadResult>)
    requires IsRxFail(x)
    ensures Poll(fpi, a + [x] + b) == Poll(fpi, a + b)
  {
    PollAppend(fpi, a, [x] + b);
    PollAppend(fpi, a, b);
    assert a + [x] + b == a + ([x] + b);
    var p := Poll(fpi, a);
    if p.halted.None? {
      assert ([x] + b)[1..] == b;
    }
  }

  /** A read error or a parse error other than code 2 stops the loop at once
      with the state it had. */
  lemma PollStopsOnError(fpi: PacketInfo, a: seq<ReadResult>, x: ReadResult, b: seq<ReadResult>)
    requires Poll(fpi, a).halted.None?
    requires StepOf(Poll(fpi, a).state, x).Fatal?
    ensures var p := Poll(fpi, a + [x] + b);
      && p.halted == Some(StepOf(Poll(fpi, a).state, x).error)
      && p.state == Poll(fpi, a).state
      && p.notified == Poll(fpi, a).notified
  {
    PollAppend(fpi, a, [x] + b);
    assert a + [x] + b == a + ([x] + b);
    assert ([x] + b)[0] == x;
  }

  /** Two frames in a row with the same non-zero heart rate, whatever their
      other fields, are notified once: only if the rate differs from the
      running one, and never for the second frame. */
  lemma RepeatedRateNotifiesOnce(fpi: PacketInfo, x: ReadResult, y: ReadResult)
    requires x.Received? && Parse(x.bytes).Ok? && Parse(x.bytes).value.hr != 0
    requires y.Received? && Parse(y.bytes).Ok? && Parse(y.bytes).value.hr == Parse(x.bytes).value.hr
    ensures var hr := Parse(x.bytes).value.hr;
      Poll(fpi, [x, y]).notified == (if hr != fpi.hr then [hr] else [])
  {
    var pi, pj := Parse(x.bytes).value, Parse(y.bytes).value;
    assert [x, y][1..] == [y];
    assert [y][1..] == [];
    MergeKeepsAndTakes(fpi, pi);
    var s := Merge(fpi, pi);
    assert StepOf(fpi, x) == Continue(s, Notification(fpi, pi));
    assert s.hr == pi.hr;
    assert StepOf(s, y) == Continue(Merge(s, pj), None);
    assert Poll(s, [y]).notified == [];
  }

  /** Merging a fragment with heart rate 80 and then one with device number
      1234 keeps both. */
  lemma MergeExample()
    ensures Merge(Merge(Empty, PacketInfo(80, 0, 0, 0, 0)), PacketInfo(0, 1234, 0, 0, 0)) ==
      PacketInfo(80, 1234, 0, 0, 0)
  {
  }
}
