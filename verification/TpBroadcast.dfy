/**
 Broadcasts: a node announces a message and sends it packet by packet as its clock allows, over a network that
 may lose, repeat, delay and reorder packets. A listener that has heard the announcement receives the message
 exactly if the packets come to it one after the other and none keeps it waiting too long, however often
 either node is serviced, however their clocks run, and whatever else they are busy with.
 */
module TpBroadcast {
  import opened Can
  import opened TpWire
  import opened Seqs
  import opened TpEngine
  import opened TpSafety
  import opened TpNetwork
  import opened TpPaths
  import opened TpProgress

  /** A broadcasting node and one listener, all packets sent so far, and what each has reported complete. */
  datatype Air = Air(tx: Table, rx: Table, out: seq<Frame>, delivered: seq<Session>, finished: seq<Session>)

  /**
   One of the packets sent so far arrives, for the first time or again, or one of the nodes does something: time
   passes for it, or other business.
   */
  datatype Turn = Arrives(k: nat) | SpeakerDoes(op: Op) | ListenerDoes(op: Op)

  function Speaker(a: Air, o: Outcome, l: Link): Air
    requires Valid(o.engine)
  {
    a.(tx := o.engine, out := a.out + Filter(o.frames, OfLink(l)),
       finished := a.finished + Filter(o.completed, Ours(l)))
  }

  function Listener(a: Air, o: Outcome, l: Link): Air
    requires Valid(o.engine)
  {
    a.(rx := o.engine, delivered := a.delivered + Filter(o.completed, Ours(l)))
  }

  function TakeTurn(a: Air, turn: Turn, l: Link, port: byte): Air {
    match turn
    case Arrives(k) =>
      if k >= |a.out| then a
      else FrameKeepsValid(a.rx, a.out[k], port);
           Listener(a, ProcessFrame(a.rx, a.out[k], port), l)
    case SpeakerDoes(op) =>
      ApplyKeepsValid(a.tx, op);
      Speaker(a, Apply(a.tx, op), l)
    case ListenerDoes(op) =>
      ApplyKeepsValid(a.rx, op);
      Listener(a, Apply(a.rx, op), l)
  }

  predicate MayTake(turn: Turn, l: Link) {
    turn.Arrives? || Foreign(turn.op, l)
  }

  // ----- the course of a broadcast, told without the engines

  /**
   Packets sent, time since the last one; packets taken, time the listener has waited since; and whether it once
   waited too long or got another packet than the next.
   */
  datatype Course = Course(sent: nat, sentAge: nat, heard: nat, heardAge: nat, lost: bool)

  const OUTSET := Course(0, 0, 0, 0, false)

  function Follow(c: Course, turn: Turn, n: nat): Course {
    match turn
    case Arrives(k) =>
      if c.lost || c.heard >= n || k >= c.sent then c
      else if k == c.heard then c.(heard := c.heard + 1, heardAge := 0)
      else c.(lost := true)
    case SpeakerDoes(TickOp(elapsed)) =>
      if c.sent >= n then c
      else if c.sentAge + elapsed < BAM_INTER_PACKET_MS then c.(sentAge := c.sentAge + elapsed)
      else c.(sent := c.sent + 1, sentAge := 0)
    case ListenerDoes(TickOp(elapsed)) =>
      if c.lost || c.heard >= n then c
      else if c.heardAge + elapsed < TIMEOUT_T1_MS then c.(heardAge := c.heardAge + elapsed)
      else c.(lost := true)
    case _ => c
  }

  function Outlook(c: Course, turns: seq<Turn>, n: nat): Course
    decreases |turns|
  {
    if turns == [] then c else Outlook(Follow(c, turns[0], n), turns[1..], n)
  }

  // ----- a broadcast under way

  ghost predicate Announced(m: Message, l: Link) {
    Carriable(m) && ValidSource(l.source) && l.destination == BROADCAST_ADDRESS
  }

  ghost predicate Speaks(x: Session, m: Message, l: Link, port: byte, k: nat) {
    && Carries(x, Transmit, l) && x.port == port && x.state == SendingData
    && x.pgn == m.pgn && x.data == m.data && x.total == |m.data| && x.lastSequence == k
  }

  ghost predicate Hears(r: Session, m: Message, l: Link, port: byte, k: nat) {
    && Carries(r, Receive, l) && r.port == port && r.pgn == m.pgn && r.total == |r.data| == |m.data|
    && r.lastSequence == k && 7 * k < |m.data| && r.data[..7 * k] == m.data[..7 * k]
  }

  ghost predicate SpeakerAt(e: Table, finished: seq<Session>, m: Message, l: Link, port: byte, c: Course, x: Session) {
    if c.sent < Packets(|m.data|) then
      && Alone(e, x, l) && Speaks(x, m, l, port, c.sent) && x.timer == c.sentAge < BAM_INTER_PACKET_MS && finished == []
    else Absent(e, l) && Is(finished, m)
  }

  ghost predicate ListenerAt(e: Table, delivered: seq<Session>, m: Message, l: Link, port: byte, c: Course,
                             r: Session) {
    if c.lost then Absent(e, l) && delivered == []
    else if c.heard < Packets(|m.data|) then
      Alone(e, r, l) && Hears(r, m, l, port, c.heard) && r.timer == c.heardAge && delivered == []
    else Absent(e, l) && Is(delivered, m)
  }

  ghost predicate OnAir(a: Air, m: Message, l: Link, port: byte, c: Course, x: Session, r: Session) {
    && Announced(m, l) && c.heard <= c.sent <= Packets(|m.data|)
    && SpeakerAt(a.tx, a.finished, m, l, port, c, x) && ListenerAt(a.rx, a.delivered, m, l, port, c, r)
    && a.out == Outgoing(l, m.data, c.sent)
  }

  /** The first `j` data frames. */
  function Outgoing(l: Link, p: seq<byte>, j: nat): (r: seq<Frame>)
    requires j <= 255
    ensures |r| == j
  {
    if j == 0 then [] else Outgoing(l, p, j - 1) + [DataFrame(l, p, j)]
  }

  lemma {:induction false} OutgoingAt(l: Link, p: seq<byte>, j: nat, k: nat)
    requires k < j <= 255
    ensures Outgoing(l, p, j)[k] == DataFrame(l, p, k + 1)
    decreases j
  {
    if k < j - 1 {
      OutgoingAt(l, p, j - 1, k);
    }
  }

  /** Received whole, reported by both, and nothing left behind. */
  ghost predicate Heard(a: Air, m: Message, l: Link) {
    && Absent(a.tx, l) && Absent(a.rx, l) && Is(a.delivered, m) && Is(a.finished, m)
  }

  // ----- the speaker

  lemma SpeakerTicks(e: Table, x: Session, m: Message, l: Link, port: byte, k: nat, elapsed: nat) returns (x': Session)
    requires Announced(m, l) && k < Packets(|m.data|) && Alone(e, x, l) && Speaks(x, m, l, port, k)
    ensures var o := Update(e, elapsed);
            var frames := Filter(o.frames, OfLink(l));
            if x.timer + elapsed < BAM_INTER_PACKET_MS then
              && Alone(o.engine, x', l) && Speaks(x', m, l, port, k) && x'.timer == x.timer + elapsed
              && frames == [] && Filter(o.completed, Ours(l)) == []
            else if k + 1 < Packets(|m.data|) then
              && Alone(o.engine, x', l) && Speaks(x', m, l, port, k + 1) && x'.timer == 0
              && frames == [DataFrame(l, m.data, k + 1)] && Filter(o.completed, Ours(l)) == []
            else
              && Absent(o.engine, l) && frames == [DataFrame(l, m.data, k + 1)] && Is(Filter(o.completed, Ours(l)), m)
  {
    TickAlone(e, x, elapsed, l);
    GenerateFacts(x.(timer := 0), 1);
    var t := TickSession(x, elapsed);
    if x.timer + elapsed < BAM_INTER_PACKET_MS {
      x' := x.(timer := x.timer + elapsed);
      assert t == Alive(x', []);
    } else {
      var f := DataFrame(l, m.data, k + 1);
      assert t.sent == [f];
      Single(f, OfLink(l));
      x' := t.session;
    }
  }

  lemma SpeakerActs(e: Table, finished: seq<Session>, op: Op, m: Message, l: Link, port: byte, c: Course, x: Session)
      returns (x': Session, o: Outcome)
    requires Announced(m, l) && c.sent <= Packets(|m.data|) && SpeakerAt(e, finished, m, l, port, c, x)
             && Foreign(op, l)
    ensures o == Apply(e, op) && Valid(o.engine)
    ensures var c' := Follow(c, SpeakerDoes(op), Packets(|m.data|));
            && SpeakerAt(o.engine, finished + Filter(o.completed, Ours(l)), m, l, port, c', x')
            && Filter(o.frames, OfLink(l)) == if c'.sent == c.sent then [] else [DataFrame(l, m.data, c.sent + 1)]
  {
    ApplyKeepsValid(e, op);
    o := Apply(e, op);
    if c.sent == Packets(|m.data|) {
      TableIdles(e, op, l);
      x' := x;
    } else if op.TickOp? {
      x' := SpeakerTicks(e, x, m, l, port, c.sent, op.elapsed);
    } else {
      x' := SessionIdles(e, op, x, l);
    }
  }

  lemma SpeakerTurn(a: Air, op: Op, m: Message, l: Link, port: byte, c: Course, x: Session, r: Session)
      returns (x': Session)
    requires OnAir(a, m, l, port, c, x, r) && Foreign(op, l)
    ensures OnAir(TakeTurn(a, SpeakerDoes(op), l, port), m, l, port,
                  Follow(c, SpeakerDoes(op), Packets(|m.data|)), x', r)
  {
    var o;
    x', o := SpeakerActs(a.tx, a.finished, op, m, l, port, c, x);
    SpeakerSpoke(a, o, m, l, port, c, Follow(c, SpeakerDoes(op), Packets(|m.data|)), x, x', r);
  }

  /** The speaker's part of the course has moved on by at most one packet, the listener's has not. */
  predicate SpeakerOn(c: Course, c': Course) {
    c' == c.(sent := c'.sent, sentAge := c'.sentAge) && (c'.sent == c.sent || c'.sent == c.sent + 1)
  }

  // What the speaker puts on the air joins what is there.
  lemma SpeakerSpoke(a: Air, o: Outcome, m: Message, l: Link, port: byte, c: Course, c': Course, x: Session,
                     x': Session, r: Session)
    requires OnAir(a, m, l, port, c, x, r) && Valid(o.engine) && SpeakerOn(c, c') && c'.sent <= Packets(|m.data|)
    requires SpeakerAt(o.engine, a.finished + Filter(o.completed, Ours(l)), m, l, port, c', x')
    requires Filter(o.frames, OfLink(l)) == if c'.sent == c.sent then [] else [DataFrame(l, m.data, c.sent + 1)]
    ensures OnAir(Speaker(a, o, l), m, l, port, c', x', r)
  {
    assert a.out + [] == a.out;
    assert ListenerAt(a.rx, a.delivered, m, l, port, c', r);
  }

  // ----- the listener

  lemma ListenerTicks(e: Table, r: Session, m: Message, l: Link, port: byte, k: nat, elapsed: nat) returns (r': Session)
    requires Announced(m, l) && Alone(e, r, l) && Hears(r, m, l, port, k)
    ensures var o := Update(e, elapsed);
            && Filter(o.completed, Ours(l)) == []
            && if r.timer + elapsed < TIMEOUT_T1_MS
               then Alone(o.engine, r', l) && Hears(r', m, l, port, k) && r'.timer == r.timer + elapsed
               else Absent(o.engine, l)
  {
    TickAlone(e, r, elapsed, l);
    assert SessionOk(r) && r.state == ReceivingData;
    r' := r.(timer := SaturatingAdd32(r.timer, elapsed));
    assert TickSession(r, elapsed) == if r.timer + elapsed < TIMEOUT_T1_MS then Alive(r', []) else Expired([]);
  }

  lemma ListenerTurn(a: Air, op: Op, m: Message, l: Link, port: byte, c: Course, x: Session, r: Session)
      returns (r': Session)
    requires OnAir(a, m, l, port, c, x, r) && Foreign(op, l)
    ensures OnAir(TakeTurn(a, ListenerDoes(op), l, port), m, l, port,
                  Follow(c, ListenerDoes(op), Packets(|m.data|)), x, r')
  {
    ApplyKeepsValid(a.rx, op);
    if c.lost || c.heard >= Packets(|m.data|) {
      TableIdles(a.rx, op, l);
      r' := r;
    } else if op.TickOp? {
      r' := ListenerTicks(a.rx, r, m, l, port, c.heard, op.elapsed);
    } else {
      r' := SessionIdles(a.rx, op, r, l);
    }
  }

  lemma ListenerTakes(e: Table, r: Session, m: Message, l: Link, port: byte, k: nat) returns (r': Session)
    requires Announced(m, l) && k < Packets(|m.data|) && Alone(e, r, l) && Hears(r, m, l, port, k)
    ensures var o := ProcessFrame(e, DataFrame(l, m.data, k + 1), port);
            if k + 1 < Packets(|m.data|) then
              && Alone(o.engine, r', l) && Hears(r', m, l, port, k + 1) && r'.timer == 0
              && Filter(o.completed, Ours(l)) == []
            else Absent(o.engine, l) && Is(Filter(o.completed, Ours(l)), m)
  {
    assert SessionOk(r);
    Found(e, r, l, Collecting(l.source, l.destination, port));
    var i := Position(e.sessions, Collecting(l.source, l.destination, port)).value;
    IngestExtends(r.data, m.data, 7 * k, l.source, l.destination, k + 1);
    r' := Stored(r, DataFrame(l, m.data, k + 1).data);
    if k + 1 < Packets(|m.data|) {
      ReplaceAlone(e, i, r', l);
    } else {
      assert r'.data == r'.data[..|m.data|] && m.data == m.data[..|m.data|];
      RemoveAlone(e, i, l);
      Single(r'.(state := Complete), Ours(l));
    }
  }

  // Without a session for it, a data frame goes unnoticed.
  lemma ListenerMisses(e: Table, f: Frame, l: Link, port: byte)
    requires Absent(e, l) && OnLink(f, l) && f.pgn == PGN_TP_DT
    ensures ProcessFrame(e, f, port) == Idle(e)
  {
    NotFound(e, l, Collecting(f.source, f.destination, port));
  }

  // Out of turn, it ends the session.
  lemma ListenerDrops(e: Table, r: Session, m: Message, l: Link, port: byte, heard: nat, k: nat)
    requires Announced(m, l) && Alone(e, r, l) && Hears(r, m, l, port, heard) && k < Packets(|m.data|) && k != heard
    ensures var o := ProcessFrame(e, DataFrame(l, m.data, k + 1), port);
            Absent(o.engine, l) && Filter(o.completed, Ours(l)) == []
  {
    assert SessionOk(r);
    Found(e, r, l, Collecting(l.source, l.destination, port));
    RemoveAlone(e, Position(e.sessions, Collecting(l.source, l.destination, port)).value, l);
  }

  lemma FrameArrives(e: Table, delivered: seq<Session>, m: Message, l: Link, port: byte, c: Course, r: Session, k: nat)
      returns (r': Session, o: Outcome)
    requires Announced(m, l) && c.heard <= c.sent <= Packets(|m.data|) && ListenerAt(e, delivered, m, l, port, c, r)
    requires k < c.sent
    ensures o == ProcessFrame(e, DataFrame(l, m.data, k + 1), port) && Valid(o.engine)
    ensures ListenerAt(o.engine, delivered + Filter(o.completed, Ours(l)), m, l, port,
                       Follow(c, Arrives(k), Packets(|m.data|)), r')
  {
    var f := DataFrame(l, m.data, k + 1);
    FrameKeepsValid(e, f, port);
    o := ProcessFrame(e, f, port);
    r' := r;
    if c.lost || c.heard == Packets(|m.data|) {
      ListenerMisses(e, f, l, port);
    } else if k == c.heard {
      r' := ListenerTakes(e, r, m, l, port, c.heard);
    } else {
      ListenerDrops(e, r, m, l, port, c.heard, k);
    }
  }

  lemma ArrivalTurn(a: Air, k: nat, m: Message, l: Link, port: byte, c: Course, x: Session, r: Session)
      returns (r': Session)
    requires OnAir(a, m, l, port, c, x, r)
    ensures OnAir(TakeTurn(a, Arrives(k), l, port), m, l, port, Follow(c, Arrives(k), Packets(|m.data|)), x, r')
  {
    if k >= |a.out| {
      r' := r;
    } else {
      var o;
      OutgoingAt(l, m.data, c.sent, k);
      r', o := FrameArrives(a.rx, a.delivered, m, l, port, c, r, k);
      FrameHeard(a, o, m, l, port, c, Follow(c, Arrives(k), Packets(|m.data|)), x, r, r');
    }
  }

  /** The listener's part of the course has moved on, the speaker's has not. */
  predicate ListenerOn(c: Course, c': Course) {
    c' == c.(heard := c'.heard, heardAge := c'.heardAge, lost := c'.lost) && c'.heard <= c'.sent
  }

  lemma FrameHeard(a: Air, o: Outcome, m: Message, l: Link, port: byte, c: Course, c': Course, x: Session, r: Session,
                   r': Session)
    requires OnAir(a, m, l, port, c, x, r) && Valid(o.engine) && ListenerOn(c, c')
    requires ListenerAt(o.engine, a.delivered + Filter(o.completed, Ours(l)), m, l, port, c', r')
    ensures OnAir(Listener(a, o, l), m, l, port, c', x, r')
  {
    assert SpeakerAt(a.tx, a.finished, m, l, port, c', x);
  }

  // ----- every run

  lemma AnyTurn(a: Air, turn: Turn, m: Message, l: Link, port: byte, c: Course, x: Session, r: Session)
      returns (x': Session, r': Session)
    requires OnAir(a, m, l, port, c, x, r) && MayTake(turn, l)
    ensures OnAir(TakeTurn(a, turn, l, port), m, l, port, Follow(c, turn, Packets(|m.data|)), x', r')
  {
    x', r' := x, r;
    match turn {
      case Arrives(k) => r' := ArrivalTurn(a, k, m, l, port, c, x, r);
      case SpeakerDoes(op) => x' := SpeakerTurn(a, op, m, l, port, c, x, r);
      case ListenerDoes(op) => r' := ListenerTurn(a, op, m, l, port, c, x, r);
    }
  }

  function Turning(l: Link, port: byte): (Air, Turn) -> Air {
    (a: Air, turn: Turn) => TakeTurn(a, turn, l, port)
  }

  function Admitting(l: Link): (Air, Turn) -> bool {
    (_: Air, turn: Turn) => MayTake(turn, l)
  }

  lemma {:induction false} BroadcastFlows(a: Air, m: Message, l: Link, port: byte, c: Course, x: Session, r: Session,
                                          turns: seq<Turn>, a': Air)
      returns (x': Session, r': Session)
    requires OnAir(a, m, l, port, c, x, r) && Chain(Admitting(l), Turning(l, port), a, turns, a')
    ensures OnAir(a', m, l, port, Outlook(c, turns, Packets(|m.data|)), x', r')
    decreases |turns|
  {
    if turns == [] {
      x', r' := x, r;
    } else {
      var x1, r1 := AnyTurn(a, turns[0], m, l, port, c, x, r);
      x', r' := BroadcastFlows(Turning(l, port)(a, turns[0]), m, l, port, Follow(c, turns[0], Packets(|m.data|)),
                               x1, r1, turns[1..], a');
    }
  }

  lemma BamIsAccepted(tx: Table, m: Message, l: Link, port: byte, priority: nat)
    requires Announced(m, l) && Absent(tx, l) && |tx.sessions| < tx.maxSessions
    ensures var sent := Send(tx, m.pgn, m.data, l.source, l.destination, port, priority);
            sent.Sent? && Valid(sent.engine)
  {
    NotFound(tx, l, OnPath(Transmit, l.source, l.destination, port));
    SendKeepsValid(tx, m.pgn, m.data, l.source, l.destination, port, priority);
  }

  /** Right after `send`, with the announcement heard. */
  ghost function Announce(tx: Table, rx: Table, m: Message, l: Link, port: byte, priority: nat): Air
    requires Announced(m, l) && Clear(tx, rx, m, l)
  {
    BamIsAccepted(tx, m, l, port, priority);
    var sent := Send(tx, m.pgn, m.data, l.source, l.destination, port, priority);
    FrameKeepsValid(rx, sent.frames[0], port);
    Air(sent.engine, ProcessFrame(rx, sent.frames[0], port).engine, [], [], [])
  }

  lemma ListenerOpens(rx: Table, m: Message, l: Link, port: byte) returns (r: Session)
    requires Announced(m, l) && Absent(rx, l) && |rx.sessions| < rx.maxSessions && |m.data| <= rx.maxReceive
    ensures ProcessFrame(rx, MakeBam(m.pgn, |m.data|, l.source), port) == Idle(rx.(sessions := rx.sessions + [r]))
    ensures Hears(r, m, l, port, 0) && r.timer == 0
  {
    HeaderRoundTrip(m.pgn, |m.data|, l.source, l.destination, 0);
    NotFound(rx, l, OnTransfer(Receive, l.source, BROADCAST_ADDRESS, port, m.pgn));
    r := NewReceive(MakeBam(m.pgn, |m.data|, l.source), port, m.pgn, |m.data|, TP_MAX_PACKETS_PER_CTS, 0);
  }

  // MAIN RESULT. A message is broadcast to a listener over any network; time passes at each node as it likes, and
  // both serve any other traffic. The message has been received whole and reported by both if and only if all its
  // packets have been sent, one whenever 50 ms or more have gathered, the listener got them one after the other,
  // none of them again before the last, and never waited 750 ms or more for the next. Otherwise it never will be.
  lemma BroadcastCompletes(tx: Table, rx: Table, m: Message, l: Link, port: byte, priority: nat, turns: seq<Turn>,
                           a: Air)
    requires Announced(m, l) && Clear(tx, rx, m, l)
    requires Chain(Admitting(l), Turning(l, port), Announce(tx, rx, m, l, port, priority), turns, a)
    ensures var c := Outlook(OUTSET, turns, Packets(|m.data|));
            && (Heard(a, m, l) <==> c.heard == Packets(|m.data|) && !c.lost)
            && (c.lost ==> a.delivered == [] && Absent(a.rx, l))
            && |a.out| == c.sent
  {
    BamIsAccepted(tx, m, l, port, priority);
    var x := NewTransmit(m.pgn, m.data, l.source, l.destination, port, priority, tx.advertised);
    AppendAlone(tx, x, l);
    var r := ListenerOpens(rx, m, l, port);
    AppendAlone(rx, r, l);
    var _, _ := BroadcastFlows(Announce(tx, rx, m, l, port, priority), m, l, port, OUTSET, x, r, turns, a);
  }

  // ----- how soon that is

  predicate IsService(turn: Turn) {
    turn.SpeakerDoes? && turn.op.TickOp?
  }

  /** How often the speaker is serviced. */
  function Services(turns: seq<Turn>): nat {
    if turns == [] then 0 else (if IsService(turns[0]) then 1 else 0) + Services(turns[1..])
  }

  /** The time that passes for the speaker. */
  function Span(turns: seq<Turn>): nat {
    if turns == [] then 0 else (if IsService(turns[0]) then turns[0].op.elapsed else 0) + Span(turns[1..])
  }

  // A packet is sent at the latest every 50 services that take any time at all.
  lemma {:induction false} SentPerService(c: Course, turns: seq<Turn>, n: nat)
    requires c.sent <= n && c.sentAge < 50 && forall t :: t in turns && IsService(t) ==> 1 <= t.op.elapsed
    ensures var sent := Outlook(c, turns, n).sent;
            c.sent <= sent <= n && (sent == n || c.sentAge + Services(turns) < 50 * (sent - c.sent + 1))
    decreases |turns|
  {
    if turns != [] {
      assert turns[0] in turns;
      SentPerService(Follow(c, turns[0], n), turns[1..], n);
    }
  }

  // And, if services are at most `longest` apart, every `longest + 49` milliseconds.
  lemma {:induction false} SentPerSpan(c: Course, turns: seq<Turn>, n: nat, longest: nat)
    requires c.sent <= n && c.sentAge < 50 && forall t :: t in turns && IsService(t) ==> t.op.elapsed <= longest
    ensures var sent := Outlook(c, turns, n).sent;
            c.sent <= sent <= n && (sent == n || c.sentAge + Span(turns) < Times(longest + 49, sent - c.sent) + 50)
    decreases |turns|
  {
    if turns != [] {
      assert turns[0] in turns;
      SentPerSpan(Follow(c, turns[0], n), turns[1..], n, longest);
    }
  }

  function Times(a: nat, k: nat): nat {
    if k == 0 then 0 else Times(a, k - 1) + a
  }

  lemma {:induction false} TimesIsProduct(a: nat, k: nat)
    ensures Times(a, k) == a * k
  {
    if k > 0 {
      TimesIsProduct(a, k - 1);
    }
  }

  lemma {:induction false} TimesMonotone(a: nat, j: nat, k: nat)
    requires j <= k
    ensures Times(a, j) <= Times(a, k) && Times(a + 1, k) == Times(a, k) + k
    decreases k
  {
    if j < k {
      TimesMonotone(a, j, k - 1);
    } else if k > 0 {
      TimesMonotone(a, j - 1, k - 1);
    }
  }

  lemma AllSent(turns: seq<Turn>, n: nat, longest: nat)
    requires || (Services(turns) >= 50 * n && forall t :: t in turns && IsService(t) ==> 1 <= t.op.elapsed)
             || (&& Span(turns) >= (longest + 50) * n
                 && forall t :: t in turns && IsService(t) ==> t.op.elapsed <= longest)
    ensures Outlook(OUTSET, turns, n).sent == n
  {
    if Services(turns) >= 50 * n && forall t :: t in turns && IsService(t) ==> 1 <= t.op.elapsed {
      SentPerService(OUTSET, turns, n);
    } else {
      SentPerSpan(OUTSET, turns, n, longest);
      var sent := Outlook(OUTSET, turns, n).sent;
      TimesIsProduct(longest + 50, n);
      if sent < n {
        TimesMonotone(longest + 49, sent, n - 1);
        TimesMonotone(longest + 49, n, n);
      }
    }
  }

  // MAIN RESULT. Serviced fifty times a packet, however briefly, or, with services at most `longest` apart, for
  // `longest + 50` milliseconds a packet, a broadcast is out; once it has all arrived at a listener that was not
  // kept waiting 750 ms it is heard.
  lemma ServicedBroadcastCompletes(tx: Table, rx: Table, m: Message, l: Link, port: byte, priority: nat,
                                   turns: seq<Turn>, a: Air, longest: nat)
    requires Announced(m, l) && Clear(tx, rx, m, l)
    requires Chain(Admitting(l), Turning(l, port), Announce(tx, rx, m, l, port, priority), turns, a)
    requires || (&& Services(turns) >= 50 * Packets(|m.data|)
                 && forall t :: t in turns && IsService(t) ==> 1 <= t.op.elapsed)
             || (&& Span(turns) >= (longest + 50) * Packets(|m.data|)
                 && forall t :: t in turns && IsService(t) ==> t.op.elapsed <= longest)
    requires var c := Outlook(OUTSET, turns, Packets(|m.data|)); c.heard == c.sent && !c.lost
    ensures Heard(a, m, l)
  {
    BroadcastCompletes(tx, rx, m, l, port, priority, turns, a);
    AllSent(turns, Packets(|m.data|), longest);
  }

  // ----- clocks in step

  /** Both clocks advance together, the packet sent by then arrives at once, and other business fills the gaps. */
  predicate InStep(c: Course, turns: seq<Turn>, n: nat, longest: nat)
    decreases |turns|
  {
    if turns == [] then true
    else if turns[0].ListenerDoes? && turns[0].op.TickOp? then
      && turns[0].op.elapsed <= longest
      && |turns| >= 3 && turns[1] == SpeakerDoes(turns[0].op) && turns[2] == Arrives(c.heard)
      && InStep(Follow(Follow(Follow(c, turns[0], n), turns[1], n), turns[2], n), turns[3..], n, longest)
    else !turns[0].Arrives? && !turns[0].op.TickOp? && InStep(c, turns[1..], n, longest)
  }

  // With services at most 700 ms apart nothing is lost and nothing stays under way.
  lemma {:induction false} InStepIsHeard(c: Course, turns: seq<Turn>, n: nat)
    requires c.heard == c.sent <= n && !c.lost && c.heardAge == c.sentAge < 50 && InStep(c, turns, n, 700)
    ensures var c' := Outlook(c, turns, n); c'.heard == c'.sent && !c'.lost
    decreases |turns|
  {
    if turns != [] {
      if turns[0].ListenerDoes? && turns[0].op.TickOp? {
        var c1 := Follow(c, turns[0], n);
        var c2 := Follow(c1, turns[1], n);
        var c3 := Follow(c2, turns[2], n);
        assert turns[1..][1..] == turns[2..] && turns[2..][1..] == turns[3..];
        assert Outlook(c2, turns[2..], n) == Outlook(c3, turns[3..], n);
        assert Outlook(c1, turns[1..], n) == Outlook(c2, turns[2..], n);
        InStepIsHeard(c3, turns[3..], n);
      } else {
        InStepIsHeard(c, turns[1..], n);
      }
    }
  }

  // MAIN RESULT. With both clocks in step, services at most 700 ms apart and packets that arrive at once, fifty
  // services a packet, however brief, complete every broadcast.
  lemma InStepBroadcastCompletes(tx: Table, rx: Table, m: Message, l: Link, port: byte, priority: nat,
                                 turns: seq<Turn>, a: Air)
    requires Announced(m, l) && Clear(tx, rx, m, l)
    requires Chain(Admitting(l), Turning(l, port), Announce(tx, rx, m, l, port, priority), turns, a)
    requires InStep(OUTSET, turns, Packets(|m.data|), 700) && Services(turns) >= 50 * Packets(|m.data|)
    requires forall t :: t in turns && IsService(t) ==> 1 <= t.op.elapsed
    ensures Heard(a, m, l)
  {
    InStepIsHeard(OUTSET, turns, Packets(|m.data|));
    ServicedBroadcastCompletes(tx, rx, m, l, port, priority, turns, a, 700);
  }
}
