/**
 One pump of the driver: feed everything received, tick, send everything outbound, hand up one event.
 The transport is an arbitrary environment with a finite receive queue; any send may fail.
 */
module Drivers {
  import opened Can
  import opened Clock
  import opened Sessions

  // ----- events with bounded payload

  datatype FixedEvent =
    | FixedClaimed(address: byte)
    | FixedMessage(pgn: nat, data: seq<byte>, source: byte, destination: byte, priority: nat, timestamp: nat)
    | MessageOverflow(pgn: nat, source: byte, destination: byte, payloadLen: nat, capacity: nat)

  function FixedView(e: Event, capacity: nat): FixedEvent {
    match e
    case AddressClaimed(a) => FixedClaimed(a)
    case MessageEvent(m) =>
      if |m.data| <= capacity then FixedMessage(m.pgn, m.data, m.source, m.destination, m.priority, m.timestamp)
      else MessageOverflow(m.pgn, m.source, m.destination, |m.data|, capacity)
  }

  // Nothing is cut short: two events look alike through the bounded view exactly when they are the same
  // event, or both are messages too long for it with the same header and length.
  lemma FixedViewLosesOnlyOverflow(x: Event, y: Event, capacity: nat)
    ensures FixedView(x, capacity) == FixedView(y, capacity) <==>
            || x == y
            || (&& x.MessageEvent? && y.MessageEvent? && |x.message.data| == |y.message.data| > capacity
                && x.message.pgn == y.message.pgn && x.message.source == y.message.source
                && x.message.destination == y.message.destination)
  {
  }

  // What is handed up: the whole message if it fits, and otherwise its header, its length and the room there was.
  lemma FixedViewFields(e: Event, capacity: nat)
    ensures var v := FixedView(e, capacity);
            match e
            case AddressClaimed(a) => v.FixedClaimed? && v.address == a
            case MessageEvent(m) =>
              if |m.data| <= capacity then
                && v.FixedMessage? && v.data == m.data && v.pgn == m.pgn && v.source == m.source
                && v.destination == m.destination && v.priority == m.priority && v.timestamp == m.timestamp
              else
                && v.MessageOverflow? && v.payloadLen == |m.data| && v.capacity == capacity && v.pgn == m.pgn
                && v.source == m.source && v.destination == m.destination
  {
  }

  // ----- the transport

  /** `accepts` scripts the sends to come; past its end every send succeeds. */
  class Transport {
    var rx: seq<Packet>
    var accepts: seq<bool>
    var sent: seq<Packet>

    constructor (rx: seq<Packet>, accepts: seq<bool>)
      ensures this.rx == rx && this.accepts == accepts && sent == []
    {
      this.rx, this.accepts, this.sent := rx, accepts, [];
    }

    method Recv() returns (r: Option<Packet>)
      modifies this`rx
      ensures old(rx) == [] ==> r == None && rx == []
      ensures old(rx) != [] ==> r == Some(old(rx)[0]) && rx == old(rx)[1..]
    {
      if rx == [] {
        return None;
      }
      r := Some(rx[0]);
      rx := rx[1..];
    }

    method Send(p: Packet) returns (ok: bool)
      modifies this`accepts, this`sent
      ensures ok == (old(accepts) == [] || old(accepts)[0])
      ensures accepts == if old(accepts) == [] then [] else old(accepts)[1..]
      ensures sent == if ok then old(sent) + [p] else old(sent)
    {
      ok := true;
      if accepts != [] {
        ok := accepts[0];
        accepts := accepts[1..];
      }
      if ok {
        sent := sent + [p];
      }
    }
  }

  function FeedAll(s: State, packets: seq<Packet>, now: Instant): State
    decreases |packets|
  {
    if packets == [] then s else FeedAll(StepAt(s, now, Some(packets[0])), packets[1..], now)
  }

  /** The session after everything received has been fed and the tick has run. */
  function Pumped(s: State, packets: seq<Packet>, now: Instant): State {
    StepAt(FeedAll(s, packets, now), now, None)
  }

  /** How many of `n` sends succeed before the first failure. */
  function Sendable(accepts: seq<bool>, n: nat): (k: nat)
    ensures k <= n
    decreases n
  {
    if n == 0 then 0
    else if accepts == [] then n
    else if accepts[0] then 1 + Sendable(accepts[1..], n - 1)
    else 0
  }

  datatype PollResult<+E> = SendFailed | Polled(event: Option<E>)

  function Viewed(r: PollResult<Event>, capacity: nat): PollResult<FixedEvent> {
    match r
    case SendFailed => SendFailed
    case Polled(None) => Polled(None)
    case Polled(Some(e)) => Polled(Some(FixedView(e, capacity)))
  }

  /** What arrives before one poll, when it happens, and which of its sends succeed. */
  datatype Pump = Pump(now: Instant, rx: seq<Packet>, accepts: seq<bool>)

  /** The frames one poll sends, the one it loses, and its result. */
  datatype Answer = Answer(sent: seq<Packet>, lost: seq<Packet>, result: PollResult<Event>)

  /** `poll_at` on values. */
  function PumpOnce(s: State, p: Pump): (State, Answer) {
    var q := Pumped(s, p.rx, p.now);
    var out := q.net.outbound;
    var k := Sendable(p.accepts, |out|);
    if k < |out| then
      (q.(net := q.net.(outbound := out[k + 1..])), Answer(out[..k], [out[k]], SendFailed))
    else
      (q.(net := q.net.(outbound := []), events := if q.events == [] then [] else q.events[1..]),
       Answer(out, [], Polled(if q.events == [] then None else Some(q.events[0]))))
  }

  class Driver {
    const session: Session
    const transport: Transport

    constructor (session: Session, transport: Transport)
      ensures this.session == session && this.transport == transport
    {
      this.session, this.transport := session, transport;
    }

    /**
     Pump the session and send. `ok` is false when a send failed: that one frame is gone, the frames behind
     it stay outbound, and no event has been taken.
     */
    method Exchange(now: Instant) returns (ok: bool)
      modifies session, transport
      ensures transport.rx == []
      ensures var p := Pumped(old(session.View()), old(transport.rx), now);
              var k := Sendable(old(transport.accepts), |p.net.outbound|);
              && transport.sent == old(transport.sent) + p.net.outbound[..k]
              && ok == (k == |p.net.outbound|)
              && session.View() == p.(net := p.net.(outbound := if ok then [] else p.net.outbound[k + 1..]))
    {
      FeedReceived(now);
      session.Tick(now);
      ok := SendOutbound();
    }

    method FeedReceived(now: Instant)
      modifies session, transport`rx
      ensures transport.rx == []
      ensures session.View() == FeedAll(old(session.View()), old(transport.rx), now)
    {
      var next := transport.Recv();
      while next.Some?
        invariant FeedAll(old(session.View()), old(transport.rx), now)
                  == FeedAll(session.View(), (if next.Some? then [next.value] else []) + transport.rx, now)
        invariant next.None? ==> transport.rx == []
        invariant transport.accepts == old(transport.accepts) && transport.sent == old(transport.sent)
        decreases |transport.rx| + if next.Some? then 1 else 0
      {
        assert ([next.value] + transport.rx)[1..] == transport.rx;
        session.Feed(next.value.0, next.value.1, now);
        next := transport.Recv();
      }
    }

    method SendOutbound() returns (ok: bool)
      modifies session`net, transport`accepts, transport`sent
      ensures var n := old(session.net);
              var k := Sendable(old(transport.accepts), |n.outbound|);
              && transport.sent == old(transport.sent) + n.outbound[..k]
              && ok == (k == |n.outbound|)
              && session.net == n.(outbound := if ok then [] else n.outbound[k + 1..])
    {
      ghost var n, a := session.net, transport.accepts;
      ghost var done := 0;
      ok := true;
      while session.net.outbound != []
        invariant 0 <= done <= |n.outbound|
        invariant session.net == n.(outbound := n.outbound[done..])
        invariant transport.sent == old(transport.sent) + n.outbound[..done]
        invariant Sendable(a, |n.outbound|) == done + Sendable(transport.accepts, |n.outbound| - done)
        decreases |n.outbound| - done
      {
        assert n.outbound[done..][1..] == n.outbound[done + 1..];
        assert n.outbound[..done + 1] == n.outbound[..done] + [n.outbound[done]];
        var next := session.PollTransmit();
        var sent := transport.Send(next.value);
        if !sent {
          return false;
        }
        done := done + 1;
      }
    }

    /** `poll_at`. */
    method PollAt(now: Instant) returns (r: PollResult<Event>)
      modifies session, transport
      ensures transport.rx == []
      ensures var (s, a) := PumpOnce(old(session.View()), Pump(now, old(transport.rx), old(transport.accepts)));
              session.View() == s && transport.sent == old(transport.sent) + a.sent && r == a.result
    {
      var ok := Exchange(now);
      if !ok {
        return SendFailed;
      }
      var e := session.PollEvent();
      r := Polled(e);
    }

    /** `poll_fixed_at`: the same pump, with the event seen through the bounded view. */
    method PollFixedAt(now: Instant, capacity: nat) returns (r: PollResult<FixedEvent>)
      modifies session, transport
      ensures transport.rx == []
      ensures var (s, a) := PumpOnce(old(session.View()), Pump(now, old(transport.rx), old(transport.accepts)));
              session.View() == s && transport.sent == old(transport.sent) + a.sent && r == Viewed(a.result, capacity)
    {
      var ok := Exchange(now);
      if !ok {
        return SendFailed;
      }
      var e := session.PollEvent();
      r := Polled(if e.None? then None else Some(FixedView(e.value, capacity)));
    }
  }

  // ----- conservation

  /** From what was produced and is outbound at one time to a later time with nothing sent in between. */
  predicate Grows<T(==)>(produced: seq<T>, outbound: seq<T>, produced': seq<T>, outbound': seq<T>) {
    && |produced| <= |produced'| && produced == produced'[..|produced|]
    && outbound' == outbound + produced'[|produced|..]
  }

  lemma GrowsTrans<T>(p: seq<T>, o: seq<T>, p': seq<T>, o': seq<T>, p'': seq<T>, o'': seq<T>)
    requires Grows(p, o, p', o') && Grows(p', o', p'', o'')
    ensures Grows(p, o, p'', o'')
  {
    var x, y := p'[|p|..], p''[|p'|..];
    assert p' == p + x && p'' == p' + y;
    assert p''[|p|..] == x + y;
    assert (o + x) + y == o + (x + y);
  }

  /** What the network still has to send, after what it has been asked to send. */
  predicate Owes(old_: Network, new_: Network) {
    Grows(old_.produced, old_.outbound, new_.produced, new_.outbound)
  }

  lemma StepOwes(s: State, now: Instant, frame: Option<Packet>)
    ensures Owes(s.net, StepAt(s, now, frame).net)
    ensures StepAt(s, now, frame).net.fed == s.net.fed + (if frame.Some? then [frame.value] else [])
  {
    var t := AdvanceTime(s, now);
    assert Owes(s.net, t.net);
    if frame.Some? {
      var u := NetFeed(t.net, frame.value.0, frame.value.1);
      assert Owes(t.net, u);
      OwesTrans(s.net, t.net, u);
    }
  }

  lemma OwesTrans(a: Network, b: Network, c: Network)
    requires Owes(a, b) && Owes(b, c)
    ensures Owes(a, c)
  {
    GrowsTrans(a.produced, a.outbound, b.produced, b.outbound, c.produced, c.outbound);
  }

  lemma {:induction false} FeedAllFacts(s: State, packets: seq<Packet>, now: Instant)
    ensures Owes(s.net, FeedAll(s, packets, now).net)
    ensures FeedAll(s, packets, now).net.fed == s.net.fed + packets
    decreases |packets|
  {
    if packets == [] {
      assert s.net.fed + packets == s.net.fed;
    } else {
      var s' := StepAt(s, now, Some(packets[0]));
      StepOwes(s, now, Some(packets[0]));
      FeedAllFacts(s', packets[1..], now);
      OwesTrans(s.net, s'.net, FeedAll(s, packets, now).net);
      assert packets == [packets[0]] + packets[1..];
    }
  }

  lemma PumpedFacts(s: State, rx: seq<Packet>, now: Instant)
    ensures Owes(s.net, Pumped(s, rx, now).net) && Pumped(s, rx, now).net.fed == s.net.fed + rx
  {
    FeedAllFacts(s, rx, now);
    var f := FeedAll(s, rx, now);
    StepOwes(f, now, None);
    OwesTrans(s.net, f.net, Pumped(s, rx, now).net);
  }

  // ----- any number of polls

  function Drives(s: State, pumps: seq<Pump>): (State, seq<Answer>)
    decreases |pumps|
  {
    if pumps == [] then (s, [])
    else
      var (s1, a) := PumpOnce(s, pumps[0]);
      var (s2, as_) := Drives(s1, pumps[1..]);
      (s2, [a] + as_)
  }

  function AllSent(as_: seq<Answer>): seq<Packet> {
    if as_ == [] then [] else as_[0].sent + AllSent(as_[1..])
  }

  /** Everything taken off the outbound queue, in order. */
  function TakenOff(as_: seq<Answer>): seq<Packet> {
    if as_ == [] then [] else as_[0].sent + as_[0].lost + TakenOff(as_[1..])
  }

  function Arrived(pumps: seq<Pump>): seq<Packet> {
    if pumps == [] then [] else pumps[0].rx + Arrived(pumps[1..])
  }

  function PolledEvents(as_: seq<Answer>): seq<Event> {
    if as_ == [] then []
    else (match as_[0].result case Polled(Some(e)) => [e] case _ => []) + PolledEvents(as_[1..])
  }

  ghost predicate AreResults(results: seq<PollResult<Event>>, as_: seq<Answer>) {
    |results| == |as_| && forall i :: 0 <= i < |as_| ==> results[i] == as_[i].result
  }

  // A driver polled again and again does what the values say.
  method Drive(d: Driver, pumps: seq<Pump>) returns (results: seq<PollResult<Event>>)
    modifies d.session, d.transport
    ensures var (s, as_) := Drives(old(d.session.View()), pumps);
            && d.session.View() == s && d.transport.sent == old(d.transport.sent) + AllSent(as_)
            && AreResults(results, as_)
    decreases |pumps|
  {
    if pumps == [] {
      return [];
    }
    var r, a := ServeOnce(d, pumps[0]);
    ghost var as_ := Drives(d.session.View(), pumps[1..]).1;
    assert ([a] + as_)[1..] == as_;
    var rest := Drive(d, pumps[1..]);
    results := [r] + rest;
  }

  method ServeOnce(d: Driver, p: Pump) returns (r: PollResult<Event>, ghost a: Answer)
    modifies d.session, d.transport
    ensures (d.session.View(), a) == PumpOnce(old(d.session.View()), p)
    ensures d.transport.sent == old(d.transport.sent) + a.sent && r == a.result
  {
    d.transport.rx, d.transport.accepts := p.rx, p.accepts;
    a := PumpOnce(d.session.View(), p).1;
    r := d.PollAt(p.now);
  }

  lemma PumpAccounts(s: State, p: Pump)
    ensures var (s', a) := PumpOnce(s, p);
            && |s.net.produced| <= |s'.net.produced| && s.net.produced == s'.net.produced[..|s.net.produced|]
            && a.sent + a.lost + s'.net.outbound == s.net.outbound + s'.net.produced[|s.net.produced|..]
            && |a.lost| <= 1 && (a.lost != [] <==> a.result == SendFailed)
            && s'.net.fed == s.net.fed + p.rx
  {
    PumpedFacts(s, p.rx, p.now);
    var out := Pumped(s, p.rx, p.now).net.outbound;
    var k := Sendable(p.accepts, |out|);
    if k < |out| {
      assert out == out[..k] + [out[k]] + out[k + 1..];
    }
  }

  /** From one state of the network to a later one, with `taken` taken off the outbound queue in between. */
  ghost predicate Accounted(n: Network, n': Network, taken: seq<Packet>, fed: seq<Packet>) {
    && |n.produced| <= |n'.produced| && n.produced == n'.produced[..|n.produced|]
    && taken + n'.outbound == n.outbound + n'.produced[|n.produced|..]
    && n'.fed == n.fed + fed
  }

  lemma AccountedTrans(a: Network, b: Network, c: Network, t1: seq<Packet>, t2: seq<Packet>, f1: seq<Packet>,
                       f2: seq<Packet>)
    requires Accounted(a, b, t1, f1) && Accounted(b, c, t2, f2)
    ensures Accounted(a, c, t1 + t2, f1 + f2)
  {
    Balance(a.produced, a.outbound, b.produced, b.outbound, c.produced, c.outbound, t1, t2);
    assert a.fed + f1 + f2 == a.fed + (f1 + f2);
  }

  lemma Balance<T>(p: seq<T>, o: seq<T>, p': seq<T>, o': seq<T>, p'': seq<T>, o'': seq<T>, t1: seq<T>, t2: seq<T>)
    requires |p| <= |p'| <= |p''| && p == p'[..|p|] && p' == p''[..|p'|]
    requires t1 + o' == o + p'[|p|..] && t2 + o'' == o' + p''[|p'|..]
    ensures p == p''[..|p|] && (t1 + t2) + o'' == o + p''[|p|..]
  {
    var x, y := p'[|p|..], p''[|p'|..];
    assert p' == p + x && p'' == p' + y;
    assert p''[|p|..] == x + y;
    assert (t1 + t2) + o'' == t1 + (t2 + o'') == t1 + (o' + y) == (t1 + o') + y == (o + x) + y == o + (x + y);
  }

  // MAIN RESULT. However often the driver is polled, whatever arrives and whichever sends fail: the frames
  // sent and lost, in order, followed by what is still outbound, are what was outbound at first followed by
  // all that was produced since; a poll loses one frame if it reports a failed send and none otherwise; and
  // the network has been fed exactly what arrived, in order.
  lemma {:induction false} PollsConserveFrames(s: State, pumps: seq<Pump>)
    ensures var (s', as_) := Drives(s, pumps);
            && |as_| == |pumps| && Accounted(s.net, s'.net, TakenOff(as_), Arrived(pumps))
            && forall i :: 0 <= i < |as_| ==> |as_[i].lost| <= 1 && (as_[i].lost != [] <==> as_[i].result == SendFailed)
    decreases |pumps|
  {
    if pumps == [] {
      assert s.net.fed + [] == s.net.fed && [] + s.net.outbound == s.net.outbound + [];
    } else {
      var (s1, a) := PumpOnce(s, pumps[0]);
      PumpAccounts(s, pumps[0]);
      PollsConserveFrames(s1, pumps[1..]);
      var (s2, as_) := Drives(s1, pumps[1..]);
      AccountedTrans(s.net, s1.net, s2.net, a.sent + a.lost, TakenOff(as_), pumps[0].rx, Arrived(pumps[1..]));
      assert ([a] + as_)[1..] == as_;
    }
  }

  // ----- the events of a driver are the session's history

  function Feeds(packets: seq<Packet>, now: Instant): seq<Op> {
    seq(|packets|, i requires 0 <= i < |packets| => StepOp(now, Some(packets[i])))
  }

  function Transmits(n: nat): seq<Op> {
    seq(n, _ => PollTransmitOp)
  }

  /** The session operations one poll performs. */
  function PumpOps(s: State, p: Pump): seq<Op> {
    var out := Pumped(s, p.rx, p.now).net.outbound;
    var k := Sendable(p.accepts, |out|);
    Feeds(p.rx, p.now) + [StepOp(p.now, None)]
    + (if k < |out| then Transmits(k + 1) else Transmits(|out|) + [PollEventOp])
  }

  function DriveOps(s: State, pumps: seq<Pump>): seq<Op>
    decreases |pumps|
  {
    if pumps == [] then [] else PumpOps(s, pumps[0]) + DriveOps(PumpOnce(s, pumps[0]).0, pumps[1..])
  }

  lemma {:induction false} TraceConcat(s: State, a: seq<Op>, b: seq<Op>)
    ensures var r := RunFrom(s, a);
            && RunFrom(s, a + b).state == RunFrom(r.state, b).state
            && RunFrom(s, a + b).polled == r.polled + RunFrom(r.state, b).polled
    decreases |a|
  {
    if a == [] {
      assert a + b == b;
    } else {
      assert (a + b)[1..] == a[1..] + b;
      match a[0] {
        case StepOp(now, frame) => TraceConcat(StepAt(s, now, frame), a[1..], b);
        case PollTransmitOp =>
          TraceConcat(s.(net := s.net.(outbound := if s.net.outbound == [] then [] else s.net.outbound[1..])),
                      a[1..], b);
        case PollEventOp => TraceConcat(if s.events == [] then s else s.(events := s.events[1..]), a[1..], b);
      }
    }
  }

  lemma {:induction false} FeedsRun(s: State, packets: seq<Packet>, now: Instant)
    ensures RunFrom(s, Feeds(packets, now)) == Trace(FeedAll(s, packets, now), [])
    decreases |packets|
  {
    if packets != [] {
      assert Feeds(packets, now)[1..] == Feeds(packets[1..], now);
      FeedsRun(StepAt(s, now, Some(packets[0])), packets[1..], now);
    }
  }

  lemma {:induction false} TransmitsRun(s: State, n: nat)
    requires n <= |s.net.outbound|
    ensures RunFrom(s, Transmits(n)) == Trace(s.(net := s.net.(outbound := s.net.outbound[n..])), [])
    decreases n
  {
    if n > 0 {
      assert Transmits(n)[1..] == Transmits(n - 1);
      var s1 := s.(net := s.net.(outbound := s.net.outbound[1..]));
      TransmitsRun(s1, n - 1);
      assert s.net.outbound[1..][n - 1..] == s.net.outbound[n..];
    }
  }

  lemma PumpRun(s: State, p: Pump)
    ensures var (s', a) := PumpOnce(s, p);
            RunFrom(s, PumpOps(s, p)) == Trace(s', match a.result case Polled(Some(e)) => [e] case _ => [])
  {
    var q := Pumped(s, p.rx, p.now);
    var out := q.net.outbound;
    var k := Sendable(p.accepts, |out|);
    var head, tick := Feeds(p.rx, p.now), [StepOp(p.now, None)];
    FeedsRun(s, p.rx, p.now);
    TraceConcat(s, head, tick);
    assert tick[1..] == [];
    assert RunFrom(s, head + tick) == Trace(q, []);
    var n := if k < |out| then k + 1 else |out|;
    TransmitsRun(q, n);
    TraceConcat(s, head + tick, Transmits(n));
    if k == |out| {
      TraceConcat(s, head + tick + Transmits(n), [PollEventOp]);
      assert PumpOps(s, p) == head + tick + Transmits(n) + [PollEventOp];
      assert [PollEventOp][1..] == [];
    }
  }

  lemma {:induction false} DriveRun(s: State, pumps: seq<Pump>)
    ensures var (s', as_) := Drives(s, pumps); RunFrom(s, DriveOps(s, pumps)) == Trace(s', PolledEvents(as_))
    decreases |pumps|
  {
    if pumps != [] {
      var (s1, a) := PumpOnce(s, pumps[0]);
      PumpRun(s, pumps[0]);
      DriveRun(s1, pumps[1..]);
      TraceConcat(s, PumpOps(s, pumps[0]), DriveOps(s1, pumps[1..]));
      var as_ := Drives(s1, pumps[1..]).1;
      assert ([a] + as_)[1..] == as_;
    }
  }

  // MAIN RESULT. The events polled from a driver, followed by those still queued, are those queued at first
  // followed by the session's history: a failed send delays an event and loses none.
  lemma PolledEventsAreTheHistory(s: State, pumps: seq<Pump>)
    ensures var (s', as_) := Drives(s, pumps);
            PolledEvents(as_) + s'.events == s.events + History(s.lastClaim, Sights(s, DriveOps(s, pumps)))
  {
    DriveRun(s, pumps);
    EventsAreTheHistory(s, DriveOps(s, pumps));
  }
}
