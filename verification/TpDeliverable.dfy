/**
 What a link that carries several messages can hand up: exactly the splices of what was sent, between two
 nodes and from one node to all.
 */
module TpDeliverable {
  import opened Can
  import opened TpWire
  import opened TpEngine
  import opened TpSafety
  import opened TpNetwork
  import opened TpSplice
  import opened TpBroadcast

  /** The links on which a node may send. */
  ghost predicate Open(l: Link) {
    ValidSource(l.source) && ValidDestination(l.destination)
  }

  predicate ToAll(l: Link) {
    l.destination == BROADCAST_ADDRESS
  }

  function Header(l: Link, m: Message): Frame {
    if ToAll(l) then MakeBam(m.pgn, |m.data|, l.source) else Rts(l, m)
  }

  // ----- a broadcast that nobody hears

  lemma AnnouncementGoesOut(e: Table, m: Message, l: Link, port: byte) returns (x: Session)
    requires Announced(m, l) && e == Tx([])
    ensures var op := SendOp(m.pgn, m.data, l.source, l.destination, port, 6);
            Accepts(e, op) && Apply(e, op) == Outcome(Tx([x]), [Header(l, m)], [])
    ensures Speaks(x, m, l, port, 0)
  {
    x := NewTransmit(m.pgn, m.data, l.source, l.destination, port, 6, 1);
    assert [] + [x] == [x];
  }

  lemma PacketGoesOut(e: Table, x: Session, m: Message, l: Link, port: byte, k: nat) returns (x': Session, o: Outcome)
    requires Announced(m, l) && e == Tx([x]) && Speaks(x, m, l, port, k) && k < Packets(|m.data|)
    ensures o == Apply(e, TickOp(BAM_INTER_PACKET_MS)) && o.frames == [DataFrame(l, m.data, k + 1)]
    ensures o.engine == if k + 1 < Packets(|m.data|) then Tx([x']) else Tx([])
    ensures k + 1 < Packets(|m.data|) ==> Speaks(x', m, l, port, k + 1)
  {
    assert x in e.sessions && SessionOk(x);
    GenerateFacts(x.(timer := 0), 1);
    var t := TickSession(x, BAM_INTER_PACKET_MS);
    var f := DataFrame(l, m.data, k + 1);
    assert t.sent == [f] && [f] + [] == [f];
    x', o := t.session, Apply(e, TickOp(BAM_INTER_PACKET_MS));
    if t.Alive? {
      var e' := e.(sessions := e.sessions[0 := x']);
      assert e'.sessions == [x'];
      assert UpdateFrom(e', 1, BAM_INTER_PACKET_MS) == Idle(e');
    } else {
      assert Remove(e, 0) == Tx([]);
      assert UpdateFrom(Remove(e, 0), 0, BAM_INTER_PACKET_MS) == Idle(Remove(e, 0));
    }
  }

  /** `k` packets of the broadcast are out and nobody has listened. */
  ghost predicate Speaking(b: Bus, l: Link, port: byte, m: Message, k: nat) {
    && Announced(m, l) && k < Packets(|m.data|) && b.receiver == Rx([])
    && |b.sender.sessions| == 1 && b.sender == Tx(b.sender.sessions) && Speaks(b.sender.sessions[0], m, l, port, k)
  }

  lemma OnePacket(b: Bus, l: Link, port: byte, m: Message, k: nat) returns (b': Bus)
    requires Speaking(b, l, port, m, k)
    ensures Leads(b, [AtSender(TickOp(BAM_INTER_PACKET_MS))], b', l) && Remembers(b, b') && b'.sent == b.sent
    ensures DataFrame(l, m.data, k + 1) in b'.wire
    ensures if k + 1 < Packets(|m.data|) then Speaking(b', l, port, m, k + 1) else Quiet(b')
  {
    var x := b.sender.sessions[0];
    assert b.sender.sessions == [x];
    var x', o := PacketGoesOut(b.sender, x, m, l, port, k);
    b' := SenderMoves(b, TickOp(BAM_INTER_PACKET_MS), l, o);
  }

  lemma {:induction false} PacketsGoOut(b: Bus, l: Link, port: byte, m: Message, k: nat)
      returns (evs: seq<Event>, b': Bus)
    requires Speaking(b, l, port, m, k)
    ensures Leads(b, evs, b', l) && Remembers(b, b') && Quiet(b') && b'.sent == b.sent
    ensures Emitted(b', l, m, k, Packets(|m.data|))
    decreases Packets(|m.data|) - k
  {
    var b1 := OnePacket(b, l, port, m, k);
    var tick := [AtSender(TickOp(BAM_INTER_PACKET_MS))];
    if k + 1 < Packets(|m.data|) {
      var more;
      more, b' := PacketsGoOut(b1, l, port, m, k + 1);
      evs := tick + more;
      LeadsConcat(b, tick, b1, more, b', l);
    } else {
      evs, b' := tick, b1;
    }
  }

  lemma BroadcastRun(b: Bus, l: Link, port: byte, m: Message) returns (evs: seq<Event>, b': Bus)
    requires Announced(m, l) && Quiet(b)
    ensures Leads(b, evs, b', l) && Remembers(b, b') && Quiet(b')
    ensures b'.sent == b.sent + {m} && Header(l, m) in b'.wire && Emitted(b', l, m, 0, Packets(|m.data|))
  {
    var x := AnnouncementGoesOut(b.sender, m, l, port);
    var op := SendOp(m.pgn, m.data, l.source, l.destination, port, 6);
    var b1 := SenderMoves(b, op, l, Outcome(Tx([x]), [Header(l, m)], []));
    assert Message(op.pgn, op.data) == m && Header(l, m) in b1.wire;
    var more;
    more, b' := PacketsGoOut(b1, l, port, m, 0);
    evs := [AtSender(op)] + more;
    LeadsConcat(b, [AtSender(op)], b1, more, b', l);
  }

  // ----- everything on the wire

  lemma MessageRun(b: Bus, l: Link, port: byte, m: Message) returns (evs: seq<Event>, b': Bus)
    requires Carriable(m) && Open(l) && Quiet(b)
    ensures Leads(b, evs, b', l) && Remembers(b, b') && Quiet(b')
    ensures b'.sent == b.sent + {m} && Header(l, m) in b'.wire && Emitted(b', l, m, 0, Packets(|m.data|))
  {
    if ToAll(l) {
      evs, b' := BroadcastRun(b, l, port, m);
    } else {
      b' := WholeRun(b, l, port, m);
      evs := Whole(l, port, m);
    }
  }

  lemma {:induction false} SendAll(b: Bus, l: Link, port: byte, sent: set<Message>) returns (evs: seq<Event>, b': Bus)
    requires Open(l) && Quiet(b) && forall m :: m in sent ==> Carriable(m)
    ensures Leads(b, evs, b', l) && Remembers(b, b') && Quiet(b') && b'.sent == b.sent + sent
    ensures forall m :: m in sent ==> Header(l, m) in b'.wire && Emitted(b', l, m, 0, Packets(|m.data|))
    decreases |sent|
  {
    if sent == {} {
      evs, b' := [], b;
    } else {
      var m :| m in sent;
      var first, b1 := MessageRun(b, l, port, m);
      var more;
      more, b' := SendAll(b1, l, port, sent - {m});
      evs := first + more;
      LeadsConcat(b, first, b1, more, b', l);
      assert sent == {m} + (sent - {m});
    }
  }

  // ----- and put together by the receiver as the network pleases

  ghost predicate Collects(r: Session, c: Message, l: Link, port: byte, k: nat) {
    if ToAll(l) then Hears(r, c, l, port, k) else Gathers(r, c, l, port, k)
  }

  lemma HeaderOpens(e: Table, m: Message, l: Link, port: byte) returns (r: Session)
    requires Carriable(m) && Open(l) && e == Rx([])
    ensures Apply(e, FrameOp(Header(l, m), port)).engine == Rx([r]) && Collects(r, m, l, port, 0)
  {
    if ToAll(l) {
      HeaderRoundTrip(m.pgn, |m.data|, l.source, l.destination, 0);
      r := NewReceive(Header(l, m), port, m.pgn, |m.data|, TP_MAX_PACKETS_PER_CTS, 0);
      assert [] + [r] == [r];
    } else {
      r := RtsOpens(e, m, l, port);
    }
  }

  lemma BroadcastStores(e: Table, r: Session, c: Message, p: seq<byte>, l: Link, port: byte, k: nat)
      returns (r': Session)
    requires ToAll(l) && Carriable(c) && e == Rx([r]) && Hears(r, c, l, port, k) && Piece(c.data, k, p)
    ensures var o := Apply(e, FrameOp(DataFrame(l, p, k + 1), port));
            if k + 1 < Packets(|c.data|) then o == Idle(Rx([r'])) && Hears(r', c, l, port, k + 1)
            else
              && o.engine == Rx([]) && o.completed == [r']
              && Carries(r', Receive, l) && r'.pgn == c.pgn && r'.data == c.data
  {
    assert r in e.sessions && SessionOk(r);
    var f := DataFrame(l, p, k + 1);
    assert Position(e.sessions, Collecting(l.source, l.destination, port)) == Some(0);
    PieceStored(r.data, c.data, k, p, l);
    r' := Stored(r, f.data);
    if k + 1 < Packets(|c.data|) {
      assert [r][0 := r'] == [r'];
    } else {
      assert r'.data == r'.data[..|c.data|] && c.data == c.data[..|c.data|];
      r' := r'.(state := Complete);
      assert Remove(e, 0) == Rx([]);
    }
  }

  lemma PieceArrives(e: Table, r: Session, c: Message, p: seq<byte>, l: Link, port: byte, k: nat) returns (r': Session)
    requires Open(l) && Carriable(c) && e == Rx([r]) && Collects(r, c, l, port, k) && Piece(c.data, k, p)
    ensures var o := Apply(e, FrameOp(DataFrame(l, p, k + 1), port));
            if k + 1 < Packets(|c.data|) then o.engine == Rx([r']) && Collects(r', c, l, port, k + 1)
            else o.completed == [r'] && Carries(r', Receive, l) && r'.pgn == c.pgn && r'.data == c.data
  {
    if ToAll(l) {
      r' := BroadcastStores(e, r, c, p, l, port, k);
    } else {
      r' := DataStores(e, r, c, p, l, port, k);
    }
  }

  /** The receiver has `k` packets of `c`, and every packet of `c` is on the wire. */
  ghost predicate Replaying(b: Bus, l: Link, port: byte, c: Message, k: nat, sent: set<Message>) {
    && Carriable(c) && Open(l) && Spliced(c, sent) && (forall m :: m in sent ==> Carriable(m))
    && (forall m :: m in sent ==> Emitted(b, l, m, 0, Packets(|m.data|)))
    && |b.receiver.sessions| == 1 && b.receiver == Rx(b.receiver.sessions)
    && Collects(b.receiver.sessions[0], c, l, port, k)
  }

  lemma {:induction false} Replay(b: Bus, l: Link, port: byte, c: Message, k: nat, sent: set<Message>)
      returns (evs: seq<Event>, b': Bus)
    requires Replaying(b, l, port, c, k, sent)
    ensures Leads(b, evs, b', l) && b'.sent == b.sent && HandedUp(b', c)
    decreases Packets(|c.data|) - k
  {
    assert PieceOfSome(c.data, k, sent);
    var m :| m in sent && Piece(c.data, k, m.data);
    var r := b.receiver.sessions[0];
    assert b.receiver.sessions == [r];
    var f := DataFrame(l, m.data, k + 1);
    assert f in b.wire;
    var r' := PieceArrives(b.receiver, r, c, m.data, l, port, k);
    var b1 := ReceiverMoves(b, FrameOp(f, port), l, Apply(b.receiver, FrameOp(f, port)));
    if k + 1 < Packets(|c.data|) {
      var more;
      more, b' := Replay(b1, l, port, c, k + 1, sent);
      evs := [AtReceiver(FrameOp(f, port))] + more;
      LeadsConcat(b, [AtReceiver(FrameOp(f, port))], b1, more, b', l);
    } else {
      evs, b' := [AtReceiver(FrameOp(f, port))], b1;
      assert r' in Mine([r'], Receive, l);
      assert r' in b'.delivered;
    }
  }

  lemma SpliceIsHandedUp(l: Link, sent: set<Message>, c: Message) returns (evs: seq<Event>, b: Bus)
    requires Open(l) && (forall m :: m in sent ==> Carriable(m)) && Spliced(c, sent)
    ensures Initial(Start(), l) && Leads(Start(), evs, b, l) && b.sent <= sent && HandedUp(b, c)
  {
    var all, b1 := SendAll(Start(), l, 0, sent);
    var m :| m in sent && m.pgn == c.pgn && |m.data| == |c.data|;
    var r := HeaderOpens(b1.receiver, m, l, 0);
    var open := FrameOp(Header(l, m), 0);
    var b2 := ReceiverMoves(b1, open, l, Apply(b1.receiver, open));
    assert r.data[..0] == c.data[..0];
    var more;
    more, b := Replay(b2, l, 0, c, 0, sent);
    LeadsConcat(Start(), all, b1, [AtReceiver(open)], b2, l);
    LeadsConcat(Start(), all + [AtReceiver(open)], b2, more, b, l);
    evs := all + [AtReceiver(open)] + more;
  }

  /** In some run in which only messages of `sent` are sent, `c` is handed up. */
  ghost predicate Deliverable(l: Link, sent: set<Message>, c: Message) {
    exists b, evs, b' :: Initial(b, l) && Leads(b, evs, b', l) && b'.sent <= sent && HandedUp(b', c)
  }

  // MAIN RESULT. A message can be handed up on a link if and only if it is a splice of what is sent there.
  lemma DeliverableIff(l: Link, sent: set<Message>, c: Message)
    requires Open(l) && forall m :: m in sent ==> Carriable(m)
    ensures Deliverable(l, sent, c) <==> Spliced(c, sent)
  {
    if Deliverable(l, sent, c) {
      var b, evs, b' :| Initial(b, l) && Leads(b, evs, b', l) && b'.sent <= sent && HandedUp(b', c);
      var s :| s in b'.delivered && s.pgn == c.pgn && s.data == c.data;
      DeliveriesAreSplices(b, evs, b', l, s);
      assert Message(s.pgn, s.data) == c;
      SplicedGrows(c, b'.sent, sent);
    }
    if Spliced(c, sent) {
      var evs, b := SpliceIsHandedUp(l, sent, c);
    }
  }

  /** Only what was sent is ever handed up. */
  ghost predicate Faithful(l: Link, sent: set<Message>) {
    forall c :: Deliverable(l, sent, c) ==> c in sent
  }

  /** No two messages can be cut and joined into a third. */
  ghost predicate Inseparable(sent: set<Message>) {
    forall c :: Spliced(c, sent) ==> c in sent
  }

  /** `p` with packet `k` taken from `q`, padding included. */
  function WithPacket(p: seq<byte>, k: nat, q: seq<byte>): (r: seq<byte>)
    ensures |r| == |p|
  {
    seq(|p|, i requires 0 <= i < |p| => if 7 * k <= i < 7 * k + 7 then StreamByte(q, i) else p[i])
  }

  /** Exchanging one packet for that of another message gives nothing new: a test on pairs of messages. */
  ghost predicate Closed(sent: set<Message>) {
    forall m, m', k: nat :: m in sent && m' in sent && 7 * k < |m.data| && 7 * k < |m'.data| ==>
                              Message(m.pgn, WithPacket(m.data, k, m'.data)) in sent
  }

  lemma ExchangeIsSplice(m: Message, m': Message, k: nat, sent: set<Message>)
    requires m in sent && m' in sent && 7 * k < |m.data| && 7 * k < |m'.data|
    ensures Spliced(Message(m.pgn, WithPacket(m.data, k, m'.data)), sent)
  {
    var r := WithPacket(m.data, k, m'.data);
    forall h: nat | h < Packets(|r|)
      ensures PieceOfSome(r, h, sent)
    {
      assert if h == k then Piece(r, h, m'.data) else Piece(r, h, m.data);
    }
  }

  /** The first `j` packets of `c` and the others of `p`. */
  function Joined(c: seq<byte>, p: seq<byte>, j: nat): (r: seq<byte>)
    requires |c| == |p|
    ensures |r| == |p|
  {
    seq(|p|, i requires 0 <= i < |p| => if i < 7 * j then c[i] else p[i])
  }

  // A splice is put together from the message with its header, one packet at a time.
  lemma {:induction false} JoinedIsSent(c: Message, p: Message, j: nat, sent: set<Message>)
    requires Closed(sent) && p in sent && p.pgn == c.pgn && |p.data| == |c.data| && j <= Packets(|c.data|)
    requires forall k: nat :: k < Packets(|c.data|) ==> PieceOfSome(c.data, k, sent)
    ensures Message(c.pgn, Joined(c.data, p.data, j)) in sent
  {
    if j == 0 {
      assert Joined(c.data, p.data, 0) == p.data;
    } else {
      JoinedIsSent(c, p, j - 1, sent);
      assert PieceOfSome(c.data, j - 1, sent);
      var m :| m in sent && Piece(c.data, j - 1, m.data);
      var before := Joined(c.data, p.data, j - 1);
      assert Joined(c.data, p.data, j) == WithPacket(before, j - 1, m.data);
      assert Message(Message(c.pgn, before).pgn, WithPacket(Message(c.pgn, before).data, j - 1, m.data)) in sent;
    }
  }

  lemma InseparableIffClosed(sent: set<Message>)
    ensures Inseparable(sent) <==> Closed(sent)
  {
    if Inseparable(sent) {
      forall m, m', k: nat | m in sent && m' in sent && 7 * k < |m.data| && 7 * k < |m'.data|
        ensures Message(m.pgn, WithPacket(m.data, k, m'.data)) in sent
      {
        ExchangeIsSplice(m, m', k, sent);
      }
    }
    if Closed(sent) {
      forall c | Spliced(c, sent)
        ensures c in sent
      {
        var p :| p in sent && p.pgn == c.pgn && |p.data| == |c.data|;
        JoinedIsSent(c, p, Packets(|c.data|), sent);
        assert Joined(c.data, p.data, Packets(|c.data|)) == c.data;
      }
    }
  }

  // MAIN RESULT. A link hands up only what was sent on it if and only if no message is a splice of others; and
  // for that it is enough to look at pairs of messages, one packet at a time.
  lemma FaithfulIff(l: Link, sent: set<Message>)
    requires Open(l) && forall m :: m in sent ==> Carriable(m)
    ensures Faithful(l, sent) <==> Inseparable(sent)
    ensures Faithful(l, sent) <==> Closed(sent)
  {
    InseparableIffClosed(sent);
    forall c
      ensures Deliverable(l, sent, c) <==> Spliced(c, sent)
    {
      DeliverableIff(l, sent, c);
    }
  }

  // MAIN RESULT. Among messages that cannot be spliced, and of which no other has its PGN and size, a message
  // that is reported delivered has been received as it was sent.
  lemma AcknowledgedMeansReceived(b: Bus, evs: seq<Event>, b': Bus, l: Link, a: Session)
    requires Initial(b, l) && Leads(b, evs, b', l) && l.destination != BROADCAST_ADDRESS && a in b'.acknowledged
    requires Closed(b'.sent)
    requires forall m :: m in b'.sent && m.pgn == a.pgn && |m.data| == |a.data| ==> m.data == a.data
    ensures exists c :: c in b'.delivered && c.pgn == a.pgn && c.data == a.data
  {
    AcknowledgedMeansDelivered(b, evs, b', l, a);
    var c :| c in b'.delivered && c.pgn == a.pgn && |c.data| == |a.data|;
    DeliveriesAreSplices(b, evs, b', l, c);
    InseparableIffClosed(b'.sent);
    assert Message(c.pgn, c.data) in b'.sent;
  }
}
