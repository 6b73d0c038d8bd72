/**
 Why a link that carries several messages can hand up something else: data frames carry no transfer
 identity, so a late window of an abandoned transfer is taken for part of the next one.
 */
module TpSplice {
  import opened Can
  import opened TpWire
  import opened Seqs
  import opened TpEngine
  import opened TpSafety
  import opened TpNetwork

  // ----- composing runs

  lemma LeadsConcat(b: Bus, xs: seq<Event>, b1: Bus, ys: seq<Event>, b2: Bus, l: Link)
    requires Leads(b, xs, b1, l) && Leads(b1, ys, b2, l)
    ensures Leads(b, xs + ys, b2, l)
  {
    ChainConcat(Permits(l), Steps(l), b, xs, b1, ys, b2);
  }

  lemma LeadsOne(b: Bus, ev: Event, l: Link)
    requires Permitted(b, ev, l)
    ensures Leads(b, [ev], Next(b, ev, l), l)
  {
    ChainOne(Permits(l), Steps(l), b, ev);
  }

  /** Nothing that was sent, emitted or handed up is forgotten. */
  ghost predicate Remembers(b: Bus, b': Bus) {
    b.sent <= b'.sent && b.wire <= b'.wire && b.back <= b'.back && b.delivered <= b'.delivered
  }

  // ----- single operations on tables with at most one session

  /** The sender offers one packet at a time; the receiver takes any message. */
  function Tx(ss: seq<Session>): Engine { Engine(ss, TP_MAX_DATA_LENGTH, 32, 3, 1) }
  function Rx(ss: seq<Session>): Engine { Engine(ss, TP_MAX_DATA_LENGTH, 32, 3, 16) }

  /** Sending `m`, at most `k` packets of it so far, and waiting for the next window. */
  ghost predicate Offers(x: Session, m: Message, l: Link, port: byte, k: nat) {
    && Carries(x, Transmit, l) && x.port == port && x.state == WaitingForCTS
    && x.pgn == m.pgn && x.data == m.data && x.total == |m.data| && x.lastSequence <= k && Packets(x.transferred) <= k
  }

  /** Receiving, with the first `k` packets of `c` stored and packet `k + 1` asked for. */
  ghost predicate Gathers(r: Session, c: Message, l: Link, port: byte, k: nat) {
    && Carries(r, Receive, l) && r.port == port && r.state == WaitingForData
    && r.pgn == c.pgn && r.total == |r.data| == |c.data| && r.lastSequence == k && 7 * k < |c.data|
    && r.windowStart == k + 1 && r.windowSize == 1 && r.maxPerCts == 1
    && r.data[..7 * k] == c.data[..7 * k]
  }

  lemma SendOpens(e: Table, m: Message, l: Link, port: byte)
    requires Carriable(m) && PeerLink(l) && e == Tx([])
    ensures var op := SendOp(m.pgn, m.data, l.source, l.destination, port, 6);
            && Accepts(e, op)
            && Apply(e, op) == Outcome(Tx([NewTransmit(m.pgn, m.data, l.source, l.destination, port, 6, 1)]),
                                       [MakeRts(m.pgn, |m.data|, l.source, l.destination, 1)], [])
  {
    assert [] + [NewTransmit(m.pgn, m.data, l.source, l.destination, port, 6, 1)]
        == [NewTransmit(m.pgn, m.data, l.source, l.destination, port, 6, 1)];
  }

  lemma RtsOpens(e: Table, m: Message, l: Link, port: byte) returns (r: Session)
    requires Carriable(m) && PeerLink(l) && e == Rx([])
    ensures Apply(e, FrameOp(MakeRts(m.pgn, |m.data|, l.source, l.destination, 1), port))
            == Outcome(Rx([r]), [MakeCts(l.destination, l.source, 1, 1, m.pgn)], [])
    ensures Gathers(r, m, l, port, 0) && r.timer == 0
  {
    var f := MakeRts(m.pgn, |m.data|, l.source, l.destination, 1);
    HeaderRoundTrip(m.pgn, |m.data|, l.source, l.destination, 1);
    r := NewReceive(f, port, m.pgn, |m.data|, 1, 1);
    assert [] + [r] == [r];
  }

  lemma CtsGrants(e: Table, x: Session, m: Message, l: Link, port: byte, k: nat) returns (x': Session)
    requires Carriable(m) && PeerLink(l) && e == Tx([x]) && Offers(x, m, l, port, k) && k < Packets(|m.data|)
    ensures Apply(e, FrameOp(MakeCts(l.destination, l.source, 1, k + 1, m.pgn), port)) == Idle(Tx([x']))
    ensures SessionOk(x') && Carries(x', Transmit, l) && x'.port == port && x'.pgn == m.pgn && x'.data == m.data
    ensures x'.total == |m.data| && x'.state == SendingData && x'.packetsToSend == 1 && x'.lastSequence == k
  {
    assert x in e.sessions && SessionOk(x);
    var f := MakeCts(l.destination, l.source, 1, k + 1, m.pgn);
    PgnBytes(m.pgn);
    assert Position(e.sessions, Awaiting(l.source, l.destination, port, m.pgn)) == Some(0);
    GrantKeepsSession(x, 1, k + 1, e.maxRetransmits);
    x' := OnCts(x, 1, k + 1, e.maxRetransmits).session;
    assert [x][0 := x'] == [x'];
  }

  lemma DrainEmits(e: Table, x: Session, m: Message, l: Link, port: byte, k: nat) returns (x': Session)
    requires Carriable(m) && PeerLink(l) && e == Tx([x]) && SessionOk(x) && k < Packets(|m.data|)
    requires Carries(x, Transmit, l) && x.port == port && x.pgn == m.pgn && x.data == m.data && x.total == |m.data|
    requires x.state == SendingData && x.packetsToSend == 1 && x.lastSequence == k
    ensures Apply(e, DrainOp) == Outcome(Tx([x']), [DataFrame(l, m.data, k + 1)], [])
    ensures k + 1 < Packets(|m.data|) ==> Offers(x', m, l, port, k + 1)
    ensures k + 1 == Packets(|m.data|) ==> AllOut(x', m, l, port)
    ensures x'.timer == 0
  {
    GenerateFacts(x, 1);
    x' := DrainSession(x).0;
    assert DrainAll([x][1..]) == ([], []);
    assert DrainAll([x]).0 == [x'] + [] && DrainAll([x]).1 == DrainSession(x).1 + [];
    assert DrainSession(x).1 == [DataFrame(l, m.data, k + 1)];
  }

  /** Everything is out and the acknowledgement is awaited. */
  ghost predicate AllOut(x: Session, m: Message, l: Link, port: byte) {
    && Carries(x, Transmit, l) && x.port == port && x.state == WaitingForEndOfMsg
    && x.pgn == m.pgn && x.data == m.data && x.total == |m.data|
  }

  lemma TimePasses(e: Table, s: Session, elapsed: nat)
    requires e.sessions == [s] && !s.IsBroadcast() && s.state in {WaitingForCTS, WaitingForData, WaitingForEndOfMsg}
    requires s.timer + elapsed < 1250
    ensures Apply(e, TickOp(elapsed)) == Idle(e.(sessions := [s.(timer := s.timer + elapsed)]))
  {
    assert s in e.sessions && SessionOk(s);
    var e' := e.(sessions := e.sessions[0 := s.(timer := s.timer + elapsed)]);
    assert e'.sessions == [s.(timer := s.timer + elapsed)];
    assert UpdateFrom(e', 1, elapsed) == Idle(e');
  }

  lemma TimeoutAborts(e: Table, x: Session, elapsed: nat)
    requires e == Tx([x]) && x.direction == Transmit && !x.IsBroadcast()
    requires x.state in {WaitingForCTS, WaitingForEndOfMsg} && x.timer + elapsed >= 1250
    ensures Apply(e, TickOp(elapsed)) == Outcome(Tx([]), [MakeAbort(x.source, x.destination, x.pgn, Timeout)], [])
  {
    assert x in e.sessions && SessionOk(x);
    assert Remove(e, 0) == Tx([]);
    assert UpdateFrom(Remove(e, 0), 0, elapsed) == Idle(Remove(e, 0));
    assert [MakeAbort(x.source, x.destination, x.pgn, Timeout)] + []
           == [MakeAbort(x.source, x.destination, x.pgn, Timeout)];
  }

  lemma PieceStored(d: seq<byte>, c: seq<byte>, k: nat, p: seq<byte>, l: Link)
    requires |d| == |c| && 7 * k < |c| && k + 1 < 256 && d[..7 * k] == c[..7 * k] && Piece(c, k, p)
    ensures var n := Min(7 * k + 7, |c|);
            Ingest(d, 7 * k, DataFrame(l, p, k + 1).data)[..n] == c[..n]
  {
    var n := Min(7 * k + 7, |c|);
    var r := Ingest(d, 7 * k, DataFrame(l, p, k + 1).data);
    forall i | 0 <= i < n
      ensures r[i] == c[i]
    {
      if i < 7 * k {
        assert r[i] == d[i] == d[..7 * k][i] == c[..7 * k][i];
      } else {
        assert DataFrame(l, p, k + 1).data[i - 7 * k + 1] == StreamByte(p, i);
      }
    }
  }

  lemma PieceIsStored(r: Session, c: Message, p: seq<byte>, l: Link, port: byte, k: nat)
    requires SessionOk(r) && Gathers(r, c, l, port, k) && Piece(c.data, k, p) && Carriable(c)
    ensures var s := Stored(r, DataFrame(l, p, k + 1).data);
            && s == r.(data := s.data, transferred := s.transferred, lastSequence := k + 1, timer := 0)
            && |s.data| == |c.data|
            && (if k + 1 < Packets(|c.data|)
                then s.data[..7 * (k + 1)] == c.data[..7 * (k + 1)] && s.transferred < s.total
                else s.data == c.data && s.transferred >= s.total)
  {
    var s := Stored(r, DataFrame(l, p, k + 1).data);
    PieceStored(r.data, c.data, k, p, l);
    if k + 1 == Packets(|c.data|) {
      assert s.data == s.data[..|c.data|] && c.data == c.data[..|c.data|];
    }
  }

  lemma DataStores(e: Table, r: Session, c: Message, p: seq<byte>, l: Link, port: byte, k: nat) returns (r': Session)
    requires PeerLink(l) && e == Rx([r]) && Gathers(r, c, l, port, k) && Piece(c.data, k, p) && Carriable(c)
    ensures var o := Apply(e, FrameOp(DataFrame(l, p, k + 1), port));
            if k + 1 < Packets(|c.data|) then
              && o == Outcome(Rx([r']), [MakeCts(l.destination, l.source, 1, k + 2, c.pgn)], [])
              && Gathers(r', c, l, port, k + 1) && r'.timer == 0
            else
              && o == Outcome(Rx([]), [MakeEoma(l.destination, l.source, |c.data|, Packets(|c.data|), c.pgn)], [r'])
              && Carries(r', Receive, l) && r'.pgn == c.pgn && r'.data == c.data
  {
    assert r in e.sessions && SessionOk(r);
    var f := DataFrame(l, p, k + 1);
    assert Position(e.sessions, Collecting(l.source, l.destination, port)) == Some(0);
    var s := Stored(r, f.data);
    PieceIsStored(r, c, p, l, port, k);
    if k + 1 < Packets(|c.data|) {
      r' := s.(windowStart := k + 2, windowSize := 1);
      assert [r][0 := r'] == [r'];
    } else {
      r' := s.(state := Complete);
      assert Remove(e, 0) == Rx([]);
    }
  }

  // ----- single events on the bus

  function Those(frames: seq<Frame>, l: Link): set<Frame> {
    set f | f in frames && OnLink(f, l)
  }

  lemma SenderMoves(b: Bus, op: Op, l: Link, o: Outcome) returns (b': Bus)
    requires Permitted(b, AtSender(op), l) && Apply(b.sender, op) == o
    ensures Leads(b, [AtSender(op)], b', l) && b'.sender == o.engine && b'.receiver == b.receiver
    ensures b'.sent == b.sent + Accepted(b.sender, op, l) && b'.back == b.back && b'.delivered == b.delivered
    ensures b'.wire == b.wire + Those(o.frames, l) && b'.acknowledged == b.acknowledged + Mine(o.completed, Transmit, l)
  {
    LeadsOne(b, AtSender(op), l);
    b' := Next(b, AtSender(op), l);
  }

  lemma ReceiverMoves(b: Bus, op: Op, l: Link, o: Outcome) returns (b': Bus)
    requires Permitted(b, AtReceiver(op), l) && Apply(b.receiver, op) == o
    ensures Leads(b, [AtReceiver(op)], b', l) && b'.receiver == o.engine && b'.sender == b.sender
    ensures b'.sent == b.sent && b'.wire == b.wire && b'.acknowledged == b.acknowledged && b.back <= b'.back
    ensures forall f :: f in o.frames && Backward(f, l) ==> f in b'.back
    ensures b'.delivered == b.delivered + Mine(o.completed, Receive, l)
  {
    LeadsOne(b, AtReceiver(op), l);
    b' := Next(b, AtReceiver(op), l);
  }

  // ----- one packet at a time

  /** `m` is being sent, `c` is being put together, both `k` packets in; the window for the next one is granted. */
  ghost predicate Stepping(b: Bus, l: Link, port: byte, m: Message, c: Message, k: nat) {
    && Carriable(m) && Carriable(c) && m.pgn == c.pgn && |m.data| == |c.data| && PeerLink(l)
    && |b.sender.sessions| == 1 && b.sender == Tx(b.sender.sessions) && Offers(b.sender.sessions[0], m, l, port, k)
    && |b.receiver.sessions| == 1 && b.receiver == Rx(b.receiver.sessions)
    && Gathers(b.receiver.sessions[0], c, l, port, k)
    && MakeCts(l.destination, l.source, 1, k + 1, m.pgn) in b.back
  }

  ghost predicate HandedUp(b: Bus, c: Message) {
    exists s :: s in b.delivered && s.pgn == c.pgn && s.data == c.data
  }

  /** All of `m` is out, `c` is handed up, and the acknowledgement is on its way. */
  ghost predicate HandedOver(b: Bus, l: Link, port: byte, m: Message, c: Message) {
    && Carriable(m) && PeerLink(l)
    && |b.sender.sessions| == 1 && b.sender == Tx(b.sender.sessions) && AllOut(b.sender.sessions[0], m, l, port)
    && b.receiver == Rx([]) && HandedUp(b, c)
    && MakeEoma(l.destination, l.source, |m.data|, Packets(|m.data|), m.pgn) in b.back
  }

  /** The window reaches the sender, the packet goes out, is `flight` milliseconds under way, and arrives. */
  function Round(l: Link, port: byte, m: Message, k: nat, flight: nat): seq<Event>
    requires k < 255
  {
    [AtSender(FrameOp(MakeCts(l.destination, l.source, 1, k + 1, m.pgn), port))] + [AtSender(DrainOp)]
    + [AtSender(TickOp(flight))] + [AtReceiver(TickOp(flight))]
    + [AtReceiver(FrameOp(DataFrame(l, m.data, k + 1), port))]
  }

  lemma SenderHalf(b: Bus, l: Link, port: byte, m: Message, c: Message, k: nat, flight: nat) returns (b': Bus)
    requires Stepping(b, l, port, m, c, k) && flight < 1250
    ensures Leads(b, Round(l, port, m, k, flight)[..3], b', l)
    ensures b' == b.(sender := b'.sender, wire := b.wire + {DataFrame(l, m.data, k + 1)})
    ensures |b'.sender.sessions| == 1 && b'.sender == Tx(b'.sender.sessions) && b'.sender.sessions[0].timer == flight
    ensures k + 1 < Packets(|m.data|) ==> Offers(b'.sender.sessions[0], m, l, port, k + 1)
    ensures k + 1 == Packets(|m.data|) ==> AllOut(b'.sender.sessions[0], m, l, port)
  {
    var cts := FrameOp(MakeCts(l.destination, l.source, 1, k + 1, m.pgn), port);
    var x := CtsGrants(b.sender, b.sender.sessions[0], m, l, port, k);
    assert b.sender.sessions == [b.sender.sessions[0]];
    var b1 := SenderMoves(b, cts, l, Idle(Tx([x])));
    var x2 := DrainEmits(b1.sender, x, m, l, port, k);
    var b2 := SenderMoves(b1, DrainOp, l, Outcome(Tx([x2]), [DataFrame(l, m.data, k + 1)], []));
    TimePasses(b2.sender, x2, flight);
    b' := SenderMoves(b2, TickOp(flight), l, Idle(Tx([x2.(timer := flight)])));
    LeadsConcat(b, [AtSender(cts)], b1, [AtSender(DrainOp)], b2, l);
    LeadsConcat(b, [AtSender(cts)] + [AtSender(DrainOp)], b2, [AtSender(TickOp(flight))], b', l);
    assert Round(l, port, m, k, flight)[..3] == [AtSender(cts)] + [AtSender(DrainOp)] + [AtSender(TickOp(flight))];
    assert b'.wire == b.wire + {DataFrame(l, m.data, k + 1)};
  }

  lemma OneRound(b: Bus, l: Link, port: byte, m: Message, c: Message, k: nat, flight: nat) returns (b': Bus)
    requires Stepping(b, l, port, m, c, k) && Piece(c.data, k, m.data)
    requires flight < 1250 && b.receiver.sessions[0].timer + flight < 1250
    ensures Leads(b, Round(l, port, m, k, flight), b', l) && Remembers(b, b')
    ensures b'.sent == b.sent && b'.wire == b.wire + {DataFrame(l, m.data, k + 1)} && b'.acknowledged == b.acknowledged
    ensures k + 1 < Packets(|m.data|) ==>
              && Stepping(b', l, port, m, c, k + 1) && b'.delivered == b.delivered
              && b'.receiver.sessions[0].timer == 0 && b'.sender.sessions[0].timer == flight
    ensures k + 1 == Packets(|m.data|) ==> HandedOver(b', l, port, m, c)
  {
    var b1 := SenderHalf(b, l, port, m, c, k, flight);
    var r := b.receiver.sessions[0];
    assert b.receiver.sessions == [r];
    TimePasses(b1.receiver, r, flight);
    var r1 := r.(timer := r.timer + flight);
    var b2 := ReceiverMoves(b1, TickOp(flight), l, Idle(Rx([r1])));
    var r2 := DataStores(b2.receiver, r1, c, m.data, l, port, k);
    var data := FrameOp(DataFrame(l, m.data, k + 1), port);
    b' := ReceiverMoves(b2, data, l, Apply(b2.receiver, data));
    LeadsConcat(b1, [AtReceiver(TickOp(flight))], b2, [AtReceiver(data)], b', l);
    LeadsConcat(b, Round(l, port, m, k, flight)[..3], b1, [AtReceiver(TickOp(flight))] + [AtReceiver(data)], b', l);
    assert Round(l, port, m, k, flight)
        == Round(l, port, m, k, flight)[..3] + ([AtReceiver(TickOp(flight))] + [AtReceiver(data)]);
    if k + 1 == Packets(|m.data|) {
      assert r2 in Mine([r2], Receive, l);
      assert r2 in b'.delivered;
    }
  }

  // ----- whole transfers

  function Rounds(l: Link, port: byte, m: Message, i: nat, j: nat, flight: nat): seq<Event>
    requires j <= 255
    decreases j - i
  {
    if i >= j then [] else Round(l, port, m, i, flight) + Rounds(l, port, m, i + 1, j, flight)
  }

  /** Data frames `i + 1` to `j` of `m` are on the wire. */
  ghost predicate Emitted(b: Bus, l: Link, m: Message, i: nat, j: nat) {
    forall k: byte :: i < k <= j ==> DataFrame(l, m.data, k) in b.wire
  }

  lemma {:induction false} RoundsRun(b: Bus, l: Link, port: byte, m: Message, c: Message, i: nat, j: nat, flight: nat)
      returns (b': Bus)
    requires Stepping(b, l, port, m, c, i) && i < j <= Packets(|m.data|)
    requires forall k :: i <= k < j ==> Piece(c.data, k, m.data)
    requires flight < 1250 && b.receiver.sessions[0].timer + flight < 1250
    ensures Leads(b, Rounds(l, port, m, i, j, flight), b', l) && Remembers(b, b')
    ensures b'.sent == b.sent && b'.acknowledged == b.acknowledged && Emitted(b', l, m, i, j)
    ensures j < Packets(|m.data|) ==>
              && Stepping(b', l, port, m, c, j)
              && b'.receiver.sessions[0].timer == 0 && b'.sender.sessions[0].timer == flight
    ensures j == Packets(|m.data|) ==> HandedOver(b', l, port, m, c)
    decreases j - i
  {
    var b1 := OneRound(b, l, port, m, c, i, flight);
    if i + 1 == j {
      b' := b1;
      assert Rounds(l, port, m, j, j, flight) == [];
      assert Round(l, port, m, i, flight) + [] == Round(l, port, m, i, flight);
    } else {
      b' := RoundsRun(b1, l, port, m, c, i + 1, j, flight);
      LeadsConcat(b, Round(l, port, m, i, flight), b1, Rounds(l, port, m, i + 1, j, flight), b', l);
      OneMoreEmitted(b1, b', l, m, i, j);
    }
  }

  lemma OneMoreEmitted(b: Bus, b': Bus, l: Link, m: Message, i: nat, j: nat)
    requires i < 255 && DataFrame(l, m.data, i + 1) in b.wire && b.wire <= b'.wire && Emitted(b', l, m, i + 1, j)
    ensures Emitted(b', l, m, i, j)
  {
  }

  ghost predicate Quiet(b: Bus) {
    b.sender == Tx([]) && b.receiver == Rx([])
  }

  function Request(l: Link, port: byte, m: Message): Event {
    AtSender(SendOp(m.pgn, m.data, l.source, l.destination, port, 6))
  }

  function Rts(l: Link, m: Message): Frame {
    MakeRts(m.pgn, |m.data|, l.source, l.destination, 1)
  }

  function Opening(l: Link, port: byte, m: Message): seq<Event> {
    [Request(l, port, m)] + [AtReceiver(FrameOp(Rts(l, m), port))]
  }

  lemma RequestRun(b: Bus, l: Link, port: byte, m: Message) returns (b': Bus)
    requires Carriable(m) && PeerLink(l) && b.sender == Tx([])
    ensures Leads(b, [Request(l, port, m)], b', l)
    ensures b' == b.(sender := b'.sender, sent := b.sent + {m}, wire := b.wire + {Rts(l, m)})
    ensures |b'.sender.sessions| == 1 && b'.sender == Tx(b'.sender.sessions)
    ensures Offers(b'.sender.sessions[0], m, l, port, 0)
  {
    SendOpens(b.sender, m, l, port);
    var op := Request(l, port, m).op;
    b' := SenderMoves(b, op, l, Apply(b.sender, op));
    assert Message(op.pgn, op.data) == m;
    assert b'.wire == b.wire + {Rts(l, m)};
  }

  lemma OpeningRun(b: Bus, l: Link, port: byte, m: Message, c: Message) returns (b': Bus)
    requires Carriable(m) && c.pgn == m.pgn && |c.data| == |m.data| && PeerLink(l) && Quiet(b)
    ensures Leads(b, Opening(l, port, m), b', l) && Remembers(b, b') && Rts(l, m) in b'.wire
    ensures b'.sent == b.sent + {m} && b'.acknowledged == b.acknowledged
    ensures Stepping(b', l, port, m, c, 0) && b'.receiver.sessions[0].timer == 0
  {
    var b1 := RequestRun(b, l, port, m);
    var r := RtsOpens(b1.receiver, m, l, port);
    b' := ReceiverMoves(b1, FrameOp(Rts(l, m), port), l,
                        Outcome(Rx([r]), [MakeCts(l.destination, l.source, 1, 1, m.pgn)], []));
    LeadsConcat(b, [Request(l, port, m)], b1, [AtReceiver(FrameOp(Rts(l, m), port))], b', l);
  }

  function Closing(l: Link, port: byte, m: Message): seq<Event>
    requires Packets(|m.data|) <= 255
  {
    [AtSender(FrameOp(MakeEoma(l.destination, l.source, |m.data|, Packets(|m.data|), m.pgn), port))]
  }

  lemma ClosingRun(b: Bus, l: Link, port: byte, m: Message, c: Message) returns (b': Bus)
    requires HandedOver(b, l, port, m, c)
    ensures Leads(b, Closing(l, port, m), b', l) && Remembers(b, b') && Quiet(b')
    ensures b'.sent == b.sent && b'.delivered == b.delivered
    ensures exists a :: a in b'.acknowledged && a.pgn == m.pgn && a.data == m.data
  {
    var x := b.sender.sessions[0];
    assert b.sender.sessions == [x] && x in b.sender.sessions && SessionOk(x);
    var f := MakeEoma(l.destination, l.source, |m.data|, Packets(|m.data|), m.pgn);
    HeaderRoundTrip(m.pgn, |m.data|, l.destination, l.source, Packets(|m.data|));
    assert Position([x], OnTransfer(Transmit, l.source, l.destination, port, m.pgn)) == Some(0);
    assert Remove(Tx([x]), 0) == Tx([]);
    var a := x.(state := Complete);
    b' := SenderMoves(b, FrameOp(f, port), l, Outcome(Tx([]), [], [a]));
    assert a in Mine([a], Transmit, l);
    assert a in b'.acknowledged;
  }

  function Whole(l: Link, port: byte, m: Message): seq<Event>
    requires Packets(|m.data|) <= 255
  {
    Opening(l, port, m) + Rounds(l, port, m, 0, Packets(|m.data|), 1) + Closing(l, port, m)
  }

  lemma PieceOfItself(p: seq<byte>, k: nat)
    requires k < Packets(|p|)
    ensures Piece(p, k, p)
  {
  }

  // A transfer without incident puts the header and every data frame of the message on the wire.
  lemma WholeRun(b: Bus, l: Link, port: byte, m: Message) returns (b': Bus)
    requires Carriable(m) && PeerLink(l) && Quiet(b)
    ensures Leads(b, Whole(l, port, m), b', l) && Remembers(b, b') && Quiet(b')
    ensures b'.sent == b.sent + {m} && Rts(l, m) in b'.wire && Emitted(b', l, m, 0, Packets(|m.data|))
  {
    var n := Packets(|m.data|);
    forall k | 0 <= k < n
      ensures Piece(m.data, k, m.data)
    {
      PieceOfItself(m.data, k);
    }
    var b1 := OpeningRun(b, l, port, m, m);
    var b2 := RoundsRun(b1, l, port, m, m, 0, n, 1);
    b' := ClosingRun(b2, l, port, m, m);
    LeadsConcat(b, Opening(l, port, m), b1, Rounds(l, port, m, 0, n, 1), b2, l);
    LeadsConcat(b, Opening(l, port, m) + Rounds(l, port, m, 0, n, 1), b2, Closing(l, port, m), b', l);
  }

  // ----- a late window

  /**
   The next window is under way for as long as the sender waits for it; the sender gives up, its abort is
   lost, and the application sends `m`, whose RTS is lost too.
   */
  function Switch(l: Link, port: byte, m: Message): seq<Event> {
    [AtSender(TickOp(1249))] + [AtReceiver(TickOp(1249))] + [Request(l, port, m)]
  }

  lemma SwitchRun(b: Bus, l: Link, port: byte, m: Message, m': Message, c: Message, k: nat) returns (b': Bus)
    requires Stepping(b, l, port, m, c, k) && Carriable(m') && m'.pgn == m.pgn && |m'.data| == |m.data|
    requires b.sender.sessions[0].timer == 1 && b.receiver.sessions[0].timer == 0
    ensures Leads(b, Switch(l, port, m'), b', l) && Remembers(b, b')
    ensures b'.sent == b.sent + {m'}
    ensures Stepping(b', l, port, m', c, k) && b'.receiver.sessions[0].timer == 1249
  {
    var x, r := b.sender.sessions[0], b.receiver.sessions[0];
    assert b.sender.sessions == [x] && b.receiver.sessions == [r];
    TimeoutAborts(b.sender, x, 1249);
    var b1 := SenderMoves(b, TickOp(1249), l, Apply(b.sender, TickOp(1249)));
    TimePasses(b1.receiver, r, 1249);
    var b2 := ReceiverMoves(b1, TickOp(1249), l, Idle(Rx([r.(timer := 1249)])));
    b' := RequestRun(b2, l, port, m');
    LeadsConcat(b, [AtSender(TickOp(1249))], b1, [AtReceiver(TickOp(1249))], b2, l);
    LeadsConcat(b, [AtSender(TickOp(1249))] + [AtReceiver(TickOp(1249))], b2, [Request(l, port, m')], b', l);
  }

  /** The first `k` packets of `m`. */
  function Head(l: Link, port: byte, m: Message, k: nat): seq<Event>
    requires k <= 255
  {
    Opening(l, port, m) + Rounds(l, port, m, 0, k, 1)
  }

  /** The late window, and the rest from `m`. */
  function Rest(l: Link, port: byte, m: Message, k: nat): seq<Event>
    requires Packets(|m.data|) <= 255
  {
    Switch(l, port, m) + Rounds(l, port, m, k, Packets(|m.data|), 0) + Closing(l, port, m)
  }

  lemma PiecesOfCut(p1: seq<byte>, p2: seq<byte>, k: nat)
    requires |p1| == |p2| && 7 * k <= |p1|
    ensures var c := p1[..7 * k] + p2[7 * k..];
            && (forall i :: 0 <= i < k ==> Piece(c, i, p1))
            && (forall i :: k <= i < Packets(|p1|) ==> Piece(c, i, p2))
  {
  }

  function Start(): Bus {
    Bus(Tx([]), Rx([]), {}, {}, {}, [], [])
  }

  // MAIN RESULT. Two messages of one PGN and size, of any length, cut at any packet: with two lost frames, no
  // reordering, no repetition and both clocks in step, the receiver hands up the head of the first joined to
  // the tail of the second, and acknowledges it to the sender of the second.
  lemma LateWindowSplices(l: Link, port: byte, m1: Message, m2: Message, k: nat) returns (b: Bus)
    requires PeerLink(l) && Carriable(m1) && Carriable(m2) && m1.pgn == m2.pgn && |m1.data| == |m2.data|
    requires 1 <= k < Packets(|m1.data|)
    ensures Initial(Start(), l) && Leads(Start(), Head(l, port, m1, k) + Rest(l, port, m2, k), b, l)
            && b.sent == {m1, m2}
    ensures HandedUp(b, Message(m1.pgn, m1.data[..7 * k] + m2.data[7 * k..]))
    ensures exists a :: a in b.acknowledged && a.pgn == m2.pgn && a.data == m2.data
    ensures m1.data[..7 * k] != m2.data[..7 * k] && m1.data[7 * k..] != m2.data[7 * k..] ==>
              Message(m1.pgn, m1.data[..7 * k] + m2.data[7 * k..]) !in b.sent
  {
    var c := Message(m1.pgn, m1.data[..7 * k] + m2.data[7 * k..]);
    assert c.data[..7 * k] == m1.data[..7 * k] && c.data[7 * k..] == m2.data[7 * k..];
    PiecesOfCut(m1.data, m2.data, k);
    var b1 := FirstPart(l, port, m1, c, k);
    b := SecondPart(b1, l, port, m1, m2, c, k);
    LeadsConcat(Start(), Head(l, port, m1, k), b1, Rest(l, port, m2, k), b, l);
  }

  lemma FirstPart(l: Link, port: byte, m: Message, c: Message, k: nat) returns (b: Bus)
    requires PeerLink(l) && Carriable(m) && c.pgn == m.pgn && |c.data| == |m.data| && 1 <= k < Packets(|m.data|)
    requires forall i :: 0 <= i < k ==> Piece(c.data, i, m.data)
    ensures Leads(Start(), Head(l, port, m, k), b, l) && b.sent == {m} && Stepping(b, l, port, m, c, k)
    ensures b.sender.sessions[0].timer == 1 && b.receiver.sessions[0].timer == 0
  {
    var b1 := OpeningRun(Start(), l, port, m, c);
    b := RoundsRun(b1, l, port, m, c, 0, k, 1);
    LeadsConcat(Start(), Opening(l, port, m), b1, Rounds(l, port, m, 0, k, 1), b, l);
  }

  lemma SecondPart(b: Bus, l: Link, port: byte, m1: Message, m2: Message, c: Message, k: nat) returns (b': Bus)
    requires Stepping(b, l, port, m1, c, k) && Carriable(m2) && m2.pgn == m1.pgn && |m2.data| == |m1.data|
    requires b.sender.sessions[0].timer == 1 && b.receiver.sessions[0].timer == 0 && k < Packets(|m2.data|)
    requires forall i :: k <= i < Packets(|m2.data|) ==> Piece(c.data, i, m2.data)
    ensures Leads(b, Rest(l, port, m2, k), b', l) && b'.sent == b.sent + {m2} && HandedUp(b', c)
    ensures exists a :: a in b'.acknowledged && a.pgn == m2.pgn && a.data == m2.data
  {
    var n := Packets(|m2.data|);
    var w, t := Switch(l, port, m2), Rounds(l, port, m2, k, n, 0);
    var b1 := SwitchRun(b, l, port, m1, m2, c, k);
    var b2 := RoundsRun(b1, l, port, m2, c, k, n, 0);
    b' := ClosingRun(b2, l, port, m2, c);
    LeadsConcat(b, w, b1, t, b2, l);
    LeadsConcat(b, w + t, b2, Closing(l, port, m2), b', l);
  }
}
