/**
 The embedded session: it stamps the network with time, moves decoded messages into an event queue and
 reports each new address claim once. The network core is an arbitrary environment, played from a script:
 whenever it is driven it may produce any messages and frames and be in any claim state.
 */
module Sessions {
  import opened Can
  import opened Seqs
  import opened Clock
  import opened ClaimMachine

  datatype Message = Message(pgn: nat, data: seq<byte>, source: byte, destination: byte, priority: nat, timestamp: nat)

  datatype Event = AddressClaimed(address: byte) | MessageEvent(message: Message)

  type Packet = (byte, Frame)

  /** What the network does the next time it is driven. */
  datatype Reaction = Reaction(messages: seq<Message>, frames: seq<Packet>, claim: ClaimState, address: byte)

  /** `updates`, `fed` and `produced` record what the network was told and what it wanted sent. */
  datatype Network = Network(
    script: seq<Reaction>,
    captured: seq<Message>,
    outbound: seq<Packet>,
    claim: ClaimState,
    address: byte,
    updates: seq<nat>,
    fed: seq<Packet>,
    produced: seq<Packet>)

  function React(n: Network): Network {
    if n.script == [] then n
    else
      var r := n.script[0];
      n.(script := n.script[1..], captured := n.captured + r.messages, outbound := n.outbound + r.frames,
         claim := r.claim, address := r.address, produced := n.produced + r.frames)
  }

  function NetUpdate(n: Network, elapsed: nat): Network {
    React(n.(updates := n.updates + [elapsed]))
  }

  function NetFeed(n: Network, port: byte, f: Frame): Network {
    React(n.(fed := n.fed + [(port, f)]))
  }

  // ----- the session as a value

  datatype State = State(net: Network, events: seq<Event>, lastTick: Option<Instant>, lastClaim: ClaimState)

  function AdvanceTime(s: State, now: Instant): State {
    var (last, elapsed) := Advance(s.lastTick, now);
    s.(lastTick := last, net := if s.lastTick.None? || elapsed > 0 then NetUpdate(s.net, elapsed) else s.net)
  }

  function AsEvents(ms: seq<Message>): (r: seq<Event>)
    ensures |r| == |ms| && forall i :: 0 <= i < |ms| ==> r[i] == MessageEvent(ms[i])
  {
    seq(|ms|, i requires 0 <= i < |ms| => MessageEvent(ms[i]))
  }

  function RouteInbox(s: State): State {
    s.(events := s.events + AsEvents(s.net.captured), net := s.net.(captured := []))
  }

  function DetectClaim(s: State): State {
    if s.net.claim == s.lastClaim then s
    else s.(lastClaim := s.net.claim,
            events := s.events + if s.net.claim == Claimed then [AddressClaimed(s.net.address)] else [])
  }

  /** The state at the point of a step where the network has been driven and nothing routed yet. */
  function Driven(s: State, now: Instant, frame: Option<Packet>): State {
    var t := AdvanceTime(s, now);
    match frame
    case None => t
    case Some((port, f)) => t.(net := NetFeed(t.net, port, f))
  }

  /** `tick` (no frame) and `feed`. */
  function StepAt(s: State, now: Instant, frame: Option<Packet>): State {
    DetectClaim(RouteInbox(Driven(s, now, frame)))
  }

  // ----- the session as an object

  class Session {
    var net: Network
    var events: seq<Event>
    var lastTick: Option<Instant>
    var lastClaim: ClaimState

    ghost function View(): State
      reads this
    {
      State(net, events, lastTick, lastClaim)
    }

    constructor (script: seq<Reaction>)
      ensures View() == State(Network(script, [], [], Unstarted, NULL_ADDRESS, [], [], []), [], None, Unstarted)
    {
      net := Network(script, [], [], Unstarted, NULL_ADDRESS, [], [], []);
      events, lastTick, lastClaim := [], None, Unstarted;
    }

    method PumpTime(now: Instant)
      modifies this
      ensures View() == AdvanceTime(old(View()), now)
    {
      var first := lastTick.None?;
      var elapsed := 0;
      if first {
        lastTick := Some(now);
      } else {
        elapsed := MillisSince(now, lastTick.value);
        if elapsed > 0 {
          lastTick := Some(AddMillis(lastTick.value, elapsed));
        }
      }
      if first || elapsed > 0 {
        net := NetUpdate(net, elapsed);
      }
    }

    method Route()
      modifies this
      ensures View() == RouteInbox(old(View()))
    {
      ghost var before, waiting := events, net.captured;
      while net.captured != []
        invariant lastTick == old(lastTick) && lastClaim == old(lastClaim)
        invariant net == old(net).(captured := net.captured)
        invariant |net.captured| <= |waiting| && net.captured == waiting[|waiting| - |net.captured|..]
        invariant events == before + AsEvents(waiting[..|waiting| - |net.captured|])
        decreases |net.captured|
      {
        ghost var k := |waiting| - |net.captured|;
        assert AsEvents(waiting[..k + 1]) == AsEvents(waiting[..k]) + [MessageEvent(waiting[k])];
        var m := net.captured[0];
        net := net.(captured := net.captured[1..]);
        events := events + [MessageEvent(m)];
      }
      assert waiting[..|waiting|] == waiting;
    }

    method NoticeClaim()
      modifies this
      ensures View() == DetectClaim(old(View()))
    {
      var state := net.claim;
      if state != lastClaim {
        if state == Claimed {
          events := events + [AddressClaimed(net.address)];
        }
        lastClaim := state;
      }
    }

    method Feed(port: byte, frame: Frame, now: Instant)
      modifies this
      ensures View() == StepAt(old(View()), now, Some((port, frame)))
    {
      PumpTime(now);
      net := NetFeed(net, port, frame);
      Route();
      NoticeClaim();
    }

    method Tick(now: Instant)
      modifies this
      ensures View() == StepAt(old(View()), now, None)
    {
      PumpTime(now);
      Route();
      NoticeClaim();
    }

    method PollTransmit() returns (r: Option<Packet>)
      modifies this`net
      ensures old(net.outbound) == [] ==> r == None && net == old(net)
      ensures old(net.outbound) != [] ==>
                r == Some(old(net.outbound)[0]) && net == old(net).(outbound := old(net.outbound)[1..])
    {
      if net.outbound == [] {
        return None;
      }
      r := Some(net.outbound[0]);
      net := net.(outbound := net.outbound[1..]);
    }

    method PollEvent() returns (r: Option<Event>)
      modifies this`events
      ensures old(events) == [] ==> r == None && events == []
      ensures old(events) != [] ==> r == Some(old(events)[0]) && events == old(events)[1..]
    {
      if events == [] {
        return None;
      }
      r := Some(events[0]);
      events := events[1..];
    }
  }

  // ----- every run

  datatype Op = StepOp(now: Instant, frame: Option<Packet>) | PollEventOp | PollTransmitOp

  datatype Trace = Trace(state: State, polled: seq<Event>)

  function RunFrom(s: State, ops: seq<Op>): Trace
    decreases |ops|
  {
    if ops == [] then Trace(s, [])
    else match ops[0]
         case StepOp(now, frame) => RunFrom(StepAt(s, now, frame), ops[1..])
         case PollTransmitOp =>
           RunFrom(s.(net := s.net.(outbound := if s.net.outbound == [] then [] else s.net.outbound[1..])), ops[1..])
         case PollEventOp =>
           if s.events == [] then RunFrom(s, ops[1..])
           else
             var r := RunFrom(s.(events := s.events[1..]), ops[1..]);
             r.(polled := [s.events[0]] + r.polled)
  }

  /** What one step sees of the network: the messages it takes, and the claim as it ends. */
  datatype Sight = Sight(messages: seq<Message>, claim: ClaimState, address: byte)

  function Sights(s: State, ops: seq<Op>): seq<Sight>
    decreases |ops|
  {
    if ops == [] then []
    else match ops[0]
         case StepOp(now, frame) =>
           var d := Driven(s, now, frame).net;
           [Sight(d.captured, d.claim, d.address)] + Sights(StepAt(s, now, frame), ops[1..])
         case PollTransmitOp =>
           Sights(s.(net := s.net.(outbound := if s.net.outbound == [] then [] else s.net.outbound[1..])), ops[1..])
         case PollEventOp => Sights(if s.events == [] then s else s.(events := s.events[1..]), ops[1..])
  }

  /** One claim event per rising edge, after the messages of the step in which it is noticed. */
  function History(previous: ClaimState, sights: seq<Sight>): seq<Event>
    decreases |sights|
  {
    if sights == [] then []
    else
      var o := sights[0];
      AsEvents(o.messages)
      + (if o.claim == Claimed && previous != Claimed then [AddressClaimed(o.address)] else [])
      + History(o.claim, sights[1..])
  }

  // MAIN RESULT. However feeds, ticks and polls interleave, what has been polled followed by what is
  // still queued is exactly the history of messages and rising claim edges, in order.
  lemma {:induction false} EventsAreTheHistory(s: State, ops: seq<Op>)
    ensures var r := RunFrom(s, ops);
            r.polled + r.state.events == s.events + History(s.lastClaim, Sights(s, ops))
    decreases |ops|
  {
    if ops != [] {
      match ops[0] {
        case StepOp(now, frame) =>
          var s' := StepAt(s, now, frame);
          EventsAreTheHistory(s', ops[1..]);
          StepAddsItsPart(s, now, frame, Sights(s', ops[1..]));
        case PollTransmitOp =>
          EventsAreTheHistory(s.(net := s.net.(outbound := if s.net.outbound == [] then [] else s.net.outbound[1..])),
                              ops[1..]);
        case PollEventOp =>
          if s.events == [] {
            EventsAreTheHistory(s, ops[1..]);
          } else {
            var s' := s.(events := s.events[1..]);
            EventsAreTheHistory(s', ops[1..]);
            var r' := RunFrom(s', ops[1..]);
            assert [s.events[0]] + r'.polled + r'.state.events == [s.events[0]] + (r'.polled + r'.state.events);
            assert s.events == [s.events[0]] + s.events[1..];
          }
      }
    }
  }

  lemma StepAddsItsPart(s: State, now: Instant, frame: Option<Packet>, rest: seq<Sight>)
    ensures var d := Driven(s, now, frame).net;
            var s' := StepAt(s, now, frame);
            s'.events + History(s'.lastClaim, rest)
            == s.events + History(s.lastClaim, [Sight(d.captured, d.claim, d.address)] + rest)
  {
    var d := Driven(s, now, frame).net;
    var o := Sight(d.captured, d.claim, d.address);
    assert ([o] + rest)[1..] == rest;
    var edge := if o.claim == Claimed && s.lastClaim != Claimed then [AddressClaimed(o.address)] else [];
    assert StepAt(s, now, frame).events == s.events + AsEvents(d.captured) + edge;
    Regroup(s.events, AsEvents(d.captured), edge, History(o.claim, rest));
  }

  // ----- protocol time

  function Readings(ops: seq<Op>): seq<Instant> {
    if ops == [] then []
    else if ops[0].StepOp? then [ops[0].now] + Readings(ops[1..])
    else Readings(ops[1..])
  }

  function Positive(s: seq<nat>): seq<nat> {
    if s == [] then []
    else if s[0] > 0 then [s[0]] + Positive(s[1..])
    else Positive(s[1..])
  }

  lemma {:induction false} PositiveSum(s: seq<nat>)
    ensures Sum(Positive(s)) == Sum(s)
    ensures forall i :: 0 <= i < |Positive(s)| ==> Positive(s)[i] > 0
  {
    if s != [] {
      PositiveSum(s[1..]);
      if s[0] > 0 {
        assert Positive(s)[1..] == Positive(s[1..]);
      }
    }
  }

  // After the first step the network is told exactly the positive reports of the clock.
  lemma {:induction false} UpdatesFollowClock(s: State, ops: seq<Op>)
    requires s.lastTick.Some?
    ensures RunFrom(s, ops).state.net.updates == s.net.updates + Positive(Clock.Run(s.lastTick, Readings(ops)).1)
    decreases |ops|
  {
    if ops != [] {
      match ops[0] {
        case StepOp(now, frame) =>
          assert Readings(ops)[0] == now && Readings(ops)[1..] == Readings(ops[1..]);
          UpdatesFollowClock(StepAt(s, now, frame), ops[1..]);
        case PollTransmitOp =>
          UpdatesFollowClock(s.(net := s.net.(outbound := if s.net.outbound == [] then [] else s.net.outbound[1..])),
                             ops[1..]);
        case PollEventOp =>
          UpdatesFollowClock(if s.events == [] then s else s.(events := s.events[1..]), ops[1..]);
      }
    }
  }

  // MAIN RESULT. A new session's first step updates the network once, with 0 ms; after that the network
  // only ever sees positive steps of time, and they add up to the whole span of the clock readings.
  lemma ProtocolTimeIsWholeSpan(s: State, now: Instant, frame: Option<Packet>, ops: seq<Op>)
    requires s.lastTick.None? && s.net.updates == []
    ensures var u := RunFrom(s, [StepOp(now, frame)] + ops).state.net.updates;
            && u != [] && u[0] == 0 && (forall i :: 1 <= i < |u| ==> u[i] > 0)
            && (GapsFit(now, Readings(ops)) ==> Sum(u) == (Max(now, Readings(ops)) - now) / 1000)
  {
    FirstUpdateIsZero(s, now, frame, ops);
    var reports := Clock.Run(Some(now), Readings(ops)).1;
    PositiveSum(reports);
    var u := RunFrom(s, [StepOp(now, frame)] + ops).state.net.updates;
    assert u[1..] == Positive(reports);
    if GapsFit(now, Readings(ops)) {
      TotalIsWholeSpan(now, Readings(ops));
      assert ([now] + Readings(ops))[1..] == Readings(ops);
    }
  }

  lemma FirstUpdateIsZero(s: State, now: Instant, frame: Option<Packet>, ops: seq<Op>)
    requires s.lastTick.None? && s.net.updates == []
    ensures RunFrom(s, [StepOp(now, frame)] + ops).state.net.updates
            == [0] + Positive(Clock.Run(Some(now), Readings(ops)).1)
  {
    var all := [StepOp(now, frame)] + ops;
    assert all[1..] == ops;
    var s' := StepAt(s, now, frame);
    assert s'.net.updates == [0] && s'.lastTick == Some(now);
    UpdatesFollowClock(s', ops);
  }

  lemma {:induction false} ReadingsConcat(a: seq<Op>, b: seq<Op>)
    ensures Readings(a + b) == Readings(a) + Readings(b)
    decreases |a|
  {
    if a == [] {
      assert a + b == b;
    } else {
      assert (a + b)[1..] == a[1..] + b;
      ReadingsConcat(a[1..], b);
    }
  }

  lemma {:induction false} PositiveConcat(a: seq<nat>, b: seq<nat>)
    ensures Positive(a + b) == Positive(a) + Positive(b)
    decreases |a|
  {
    if a == [] {
      assert a + b == b;
    } else {
      assert (a + b)[1..] == a[1..] + b;
      PositiveConcat(a[1..], b);
    }
  }

  // A reading no later than one already seen is reported as nothing and moves nothing.
  lemma LateReadingSkipped(now: Instant, a: seq<Instant>, x: Instant, b: seq<Instant>)
    requires GapsFit(now, a) && x <= Max(now, a)
    ensures Positive(Clock.Run(Some(now), a + ([x] + b)).1) == Positive(Clock.Run(Some(now), a + b).1)
  {
    var (last, reports) := Clock.Run(Some(now), a);
    RunKeepsUp(now, now, a);
    RunLosesNothing(now, now, a);
    Clock.RunConcat(Some(now), a, [x] + b);
    Clock.RunConcat(Some(now), a, b);
    AdvanceIsExact(last.value, x);
    var rest := Clock.Run(last, b).1;
    assert ([x] + b)[1..] == b;
    assert Clock.Run(last, [x] + b).1 == [0] + rest;
    PositiveConcat(reports, [0] + rest);
    PositiveConcat(reports, rest);
    assert ([0] + rest)[1..] == rest;
  }

  lemma ReadingsInserted(a: seq<Op>, x: Instant, f: Packet, b: seq<Op>)
    ensures Readings(a + [StepOp(x, Some(f))] + b) == Readings(a) + ([x] + Readings(b))
  {
    var op := StepOp(x, Some(f));
    ReadingsConcat(a + [op], b);
    ReadingsConcat(a, [op]);
    assert [op][1..] == [];
    assert Readings([op]) == [x];
    assert Readings(a) + [x] + Readings(b) == Readings(a) + ([x] + Readings(b));
  }

  // MAIN RESULT. A frame more, fed anywhere in a run at an instant no later than one already seen, changes
  // nothing about protocol time: the network is told the very same updates.
  lemma ExtraFeedAddsNoTime(s: State, now: Instant, frame: Option<Packet>, a: seq<Op>, x: Instant, f: Packet,
                            b: seq<Op>)
    requires s.lastTick.None? && s.net.updates == []
    requires GapsFit(now, Readings(a)) && x <= Max(now, Readings(a))
    ensures RunFrom(s, [StepOp(now, frame)] + (a + [StepOp(x, Some(f))] + b)).state.net.updates
            == RunFrom(s, [StepOp(now, frame)] + (a + b)).state.net.updates
  {
    FirstUpdateIsZero(s, now, frame, a + [StepOp(x, Some(f))] + b);
    FirstUpdateIsZero(s, now, frame, a + b);
    ReadingsInserted(a, x, f, b);
    ReadingsConcat(a, b);
    LateReadingSkipped(now, Readings(a), x, Readings(b));
  }
}
