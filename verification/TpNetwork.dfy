/**
 Two transport engines joined by a network that may lose, repeat, delay and reorder frames at will.
 The only thing the network cannot do is forge: a frame that names the sender as its source and the
 receiver as its destination was emitted by the sender at some earlier point, and likewise backwards.
 Both engines also serve arbitrary other traffic all the time.
 */
module TpNetwork {
  import opened Can
  import opened TpWire
  import opened Seqs
  import opened TpEngine
  import opened TpSafety

  type Table = e: Engine | Valid(e) ghost witness Fresh(0, 0, 0, 1)

  /** The two ends of a link; the broadcast address as destination stands for every listener. */
  datatype Link = Link(source: byte, destination: byte)

  /** What an application asks to have carried. */
  datatype Message = Message(pgn: nat, data: seq<byte>)

  /** Messages and links the protocol accepts. */
  ghost predicate Carriable(m: Message) {
    m.pgn <= MAX_PGN && 8 < |m.data| <= TP_MAX_DATA_LENGTH
  }

  ghost predicate PeerLink(l: Link) {
    ValidSource(l.source) && ValidSource(l.destination)
  }

  // ----- everything a node can be asked to do

  datatype Op =
    | SendOp(pgn: nat, data: seq<byte>, src: byte, dst: byte, port: byte, priority: nat)
    | FrameOp(frame: Frame, port: byte)
    | TickOp(elapsed: nat)
    | DrainOp
    | DiscontinueOp(port: byte, address: byte)

  function Apply(e: Table, op: Op): Outcome {
    match op
    case SendOp(pgn, data, src, dst, port, priority) =>
      (match Send(e, pgn, data, src, dst, port, priority)
       case Sent(e', frames) => Outcome(e', frames, [])
       case Rejected(_) => Idle(e))
    case FrameOp(f, port) => ProcessFrame(e, f, port)
    case TickOp(elapsed) => Update(e, elapsed)
    case DrainOp => PendingData(e)
    case DiscontinueOp(port, address) => Discontinue(e, port, address)
  }

  predicate Accepts(e: Table, op: Op)
    requires op.SendOp?
  {
    Send(e, op.pgn, op.data, op.src, op.dst, op.port, op.priority).Sent?
  }

  lemma ApplyKeepsValid(e: Table, op: Op)
    ensures Valid(Apply(e, op).engine)
  {
    match op
    case SendOp(pgn, data, src, dst, port, priority) => SendKeepsValid(e, pgn, data, src, dst, port, priority);
    case FrameOp(f, port) => FrameKeepsValid(e, f, port);
    case TickOp(elapsed) => UpdateFromKeepsValid(e, 0, elapsed);
    case DrainOp => DrainKeepsValid(e);
    case DiscontinueOp(port, address) => WithoutFacts(e.sessions, port, address);
  }

  // ----- the two ends of the link

  predicate OnLink(f: Frame, l: Link) {
    f.source == l.source && f.destination == l.destination
  }

  predicate Backward(f: Frame, l: Link) {
    f.source == l.destination && f.destination == l.source
  }

  predicate Carries(s: Session, direction: Direction, l: Link) {
    s.direction == direction && s.source == l.source && s.destination == l.destination
  }

  /** Data frame number `k` of a payload. */
  function DataFrame(l: Link, payload: seq<byte>, k: byte): Frame
    requires 1 <= k
  {
    MakeDt(l.source, l.destination, k, payload, 7 * (k as int - 1))
  }

  ghost predicate IsData(f: Frame, l: Link, payload: seq<byte>) {
    exists k: byte :: 1 <= k && 7 * (k as int - 1) < |payload| && f == DataFrame(l, payload, k)
  }

  /** Some message of `sent` has this PGN and this size. */
  ghost predicate Headed(pgn: nat, size: nat, sent: set<Message>) {
    exists m :: m in sent && m.pgn == pgn && |m.data| == size
  }

  /** The frames an honest sender of `sent` puts on the link: correct headers and correct data frames. */
  ghost predicate Genuine(f: Frame, l: Link, sent: set<Message>) {
    && (f.pgn == PGN_TP_DT ==> exists m :: m in sent && IsData(f, l, m.data))
    && (f.pgn == PGN_TP_CM && f.data[0] in {RTS, BAM} ==> Headed(CmPgn(f.data), CmSize(f.data), sent))
  }

  /** The seven bytes of `data` that packet `k` (from 0) carries are those of `payload`, which has such a packet. */
  ghost predicate Piece(data: seq<byte>, k: nat, payload: seq<byte>) {
    7 * k < |payload| && forall i :: 7 * k <= i < 7 * k + 7 && i < |data| ==> data[i] == StreamByte(payload, i)
  }

  ghost predicate PieceOfSome(data: seq<byte>, k: nat, sent: set<Message>) {
    exists m :: m in sent && Piece(data, k, m.data)
  }

  /** A splice: PGN and size of one message of `sent`, and each packet a packet of some message of `sent`. */
  ghost predicate Spliced(c: Message, sent: set<Message>) {
    Headed(c.pgn, |c.data|, sent) && forall k: nat :: k < Packets(|c.data|) ==> PieceOfSome(c.data, k, sent)
  }

  ghost predicate SenderSession(s: Session, l: Link, sent: set<Message>) {
    Carries(s, Transmit, l) ==> Message(s.pgn, s.data) in sent
  }

  ghost predicate ReceiverSession(s: Session, l: Link, sent: set<Message>) {
    Carries(s, Receive, l) ==>
      Headed(s.pgn, s.total, sent) && forall k: nat :: k < s.lastSequence ==> PieceOfSome(s.data, k, sent)
  }

  ghost predicate SenderInv(e: Engine, l: Link, sent: set<Message>) {
    forall s :: s in e.sessions ==> SenderSession(s, l, sent)
  }

  ghost predicate ReceiverInv(e: Engine, l: Link, sent: set<Message>) {
    forall s :: s in e.sessions ==> ReceiverSession(s, l, sent)
  }

  /** Sessions of `completed` that belong to the link. */
  function Mine(completed: seq<Session>, direction: Direction, l: Link): (r: seq<Session>)
    ensures forall s :: s in r <==> s in completed && Carries(s, direction, l)
  {
    if completed == [] then []
    else if Carries(completed[0], direction, l) then [completed[0]] + Mine(completed[1..], direction, l)
    else Mine(completed[1..], direction, l)
  }

  lemma UpdateMembers(ss: seq<Session>, i: nat, x: Session)
    requires i < |ss|
    ensures forall s :: s in ss[i := x] ==> s in ss || s == x
  {
    forall s | s in ss[i := x]
      ensures s in ss || s == x
    {
      var k :| 0 <= k < |ss| && ss[i := x][k] == s;
      assert k != i ==> s == ss[k];
    }
  }

  // ----- the sender, fed arbitrary input, only ever emits genuine frames

  lemma DtIsGenuine(s: Session, count: nat, l: Link, sent: set<Message>)
    requires SessionOk(s) && s.direction == Transmit && SenderSession(s, l, sent)
    ensures forall f :: f in Generate(s, count).1 && OnLink(f, l) ==> Genuine(f, l, sent)
  {
    var frames := Generate(s, count).1;
    forall f | f in frames && OnLink(f, l)
      ensures Genuine(f, l, sent)
    {
      var k :| 0 <= k < |frames| && frames[k] == f;
      FrameIsGenuine(s, count, k, l, sent);
    }
  }

  lemma FrameIsGenuine(s: Session, count: nat, k: nat, l: Link, sent: set<Message>)
    requires SessionOk(s) && s.direction == Transmit && SenderSession(s, l, sent) && k < |Generate(s, count).1|
    ensures var f := Generate(s, count).1[k]; OnLink(f, l) ==> Genuine(f, l, sent)
  {
    GenerateFacts(s, count);
    var f := Generate(s, count).1[k];
    if OnLink(f, l) {
      var n: byte := s.lastSequence + 1 + k;
      assert f == DataFrame(l, s.data, n);
      assert IsData(f, l, Message(s.pgn, s.data).data);
    }
  }

  lemma SenderSend(e: Table, op: Op, l: Link, sent: set<Message>)
    requires op.SendOp? && SenderInv(e, l, sent)
    requires op.src == l.source && op.dst == l.destination && Accepts(e, op) ==> Message(op.pgn, op.data) in sent
    ensures SenderInv(Apply(e, op).engine, l, sent)
    ensures forall f :: f in Apply(e, op).frames && OnLink(f, l) ==> Genuine(f, l, sent)
  {
    if Accepts(e, op) {
      HeaderRoundTrip(op.pgn, |op.data|, op.src, op.dst, e.advertised);
      assert op.src == l.source && op.dst == l.destination ==> Headed(op.pgn, |op.data|, sent) by {
        assert |Message(op.pgn, op.data).data| == |op.data|;
      }
    }
  }

  lemma SenderRemove(e: Table, i: nat, l: Link, sent: set<Message>)
    requires SenderInv(e, l, sent) && i < |e.sessions|
    ensures SenderInv(Remove(e, i), l, sent)
  {
    SwapRemoveFacts(e.sessions, i);
  }

  lemma SenderCts(e: Table, f: Frame, port: byte, pgn: nat, l: Link, sent: set<Message>)
    requires SenderInv(e, l, sent)
    ensures SenderInv(HandleCts(e, f, port, pgn).engine, l, sent)
  {
    var at := Position(e.sessions, Awaiting(f.destination, f.source, port, pgn));
    if at.Some? {
      SenderRemove(e, at.value, l, sent);
      var s := e.sessions[at.value];
      assert s in e.sessions && SessionOk(s) && s.direction == Transmit;
      GrantKeepsSession(s, f.data[1], f.data[2], e.maxRetransmits);
      var v := OnCts(s, f.data[1], f.data[2], e.maxRetransmits);
      if v.Granted? {
        UpdateMembers(e.sessions, at.value, v.session);
      }
    }
  }

  lemma SenderOpens(e: Table, f: Frame, port: byte, pgn: nat, l: Link, sent: set<Message>)
    requires SenderInv(e, l, sent)
    ensures SenderInv(HandleRts(e, f, port, pgn).engine, l, sent)
            && SenderInv(HandleBam(e, f, port, pgn).engine, l, sent)
  {
    var rts := Position(e.sessions, OnTransfer(Receive, f.source, f.destination, port, pgn));
    var bam := Position(e.sessions, OnTransfer(Receive, f.source, BROADCAST_ADDRESS, port, pgn));
    if rts.Some? { SenderRemove(e, rts.value, l, sent); }
    if bam.Some? { SenderRemove(e, bam.value, l, sent); }
  }

  lemma SenderData(e: Table, f: Frame, port: byte, l: Link, sent: set<Message>)
    requires SenderInv(e, l, sent)
    ensures SenderInv(HandleDt(e, f, port).engine, l, sent)
  {
    var at := Position(e.sessions, Collecting(f.source, f.destination, port));
    if at.Some? {
      var i := at.value;
      SenderRemove(e, i, l, sent);
      assert SessionOk(e.sessions[i]);
      var o := HandleDt(e, f, port);
      if |o.engine.sessions| == |e.sessions| {
        assert o.engine.sessions == e.sessions[i := o.engine.sessions[i]];
        UpdateMembers(e.sessions, i, o.engine.sessions[i]);
      }
    }
  }

  // Whatever arrives, the answer never opens a transfer and never carries data.
  lemma RepliesAreControl(e: Table, f: Frame, port: byte)
    ensures forall g :: g in ProcessFrame(e, f, port).frames ==> g.pgn == PGN_TP_CM && g.data[0] in {CTS, EOMA, ABORT}
  {
    var o := ProcessFrame(e, f, port);
    assert |o.frames| <= 1;
  }

  lemma SenderFrame(e: Table, f: Frame, port: byte, l: Link, sent: set<Message>)
    requires SenderInv(e, l, sent)
    ensures SenderInv(ProcessFrame(e, f, port).engine, l, sent)
  {
    var pgn := CmPgn(f.data);
    var control := f.data[0];
    if f.pgn == PGN_TP_DT {
      SenderData(e, f, port, l, sent);
    } else if control == CTS {
      SenderCts(e, f, port, pgn, l, sent);
    } else if control == RTS || control == BAM {
      SenderOpens(e, f, port, pgn, l, sent);
    } else {
      var eoma := Position(e.sessions, OnTransfer(Transmit, f.destination, f.source, port, pgn));
      var abort := Position(e.sessions, BetweenEither(f.source, f.destination, port, pgn));
      if eoma.Some? { SenderRemove(e, eoma.value, l, sent); }
      if abort.Some? { SenderRemove(e, abort.value, l, sent); }
    }
  }

  lemma SenderDrain(e: Table, l: Link, sent: set<Message>)
    requires SenderInv(e, l, sent)
    ensures SenderInv(PendingData(e).engine, l, sent)
    ensures forall f :: f in PendingData(e).frames && OnLink(f, l) ==> Genuine(f, l, sent)
  {
    DrainAllFacts(e.sessions);
    forall k | 0 <= k < |e.sessions|
      ensures SenderSession(DrainSession(e.sessions[k]).0, l, sent)
      ensures forall f :: f in DrainSession(e.sessions[k]).1 && OnLink(f, l) ==> Genuine(f, l, sent)
    {
      DrainSessionFacts(e.sessions[k]);
      if e.sessions[k].direction == Transmit {
        DtIsGenuine(e.sessions[k], e.sessions[k].packetsToSend, l, sent);
      }
    }
  }

  lemma SenderTick(s: Session, elapsed: nat, l: Link, sent: set<Message>)
    requires SessionOk(s) && SenderSession(s, l, sent)
    ensures var r := TickSession(s, elapsed);
            && (r.Alive? ==> SenderSession(r.session, l, sent))
            && (forall f :: f in r.sent && OnLink(f, l) ==> Genuine(f, l, sent))
  {
    TickKeepsSession(s, elapsed);
    if s.direction == Transmit {
      DtIsGenuine(s.(timer := 0), 1, l, sent);
    }
  }

  lemma {:induction false} SenderUpdate(e: Table, i: nat, elapsed: nat, l: Link, sent: set<Message>)
    requires i <= |e.sessions| && SenderInv(e, l, sent)
    ensures SenderInv(UpdateFrom(e, i, elapsed).engine, l, sent)
    ensures forall f :: f in UpdateFrom(e, i, elapsed).frames && OnLink(f, l) ==> Genuine(f, l, sent)
    decreases |e.sessions| - i
  {
    if i < |e.sessions| {
      SenderTick(e.sessions[i], elapsed, l, sent);
      TickKeepsSession(e.sessions[i], elapsed);
      match TickSession(e.sessions[i], elapsed) {
        case Alive(s, _) =>
          ReplaceKeepsValid(e, i, s);
          SenderUpdate(e.(sessions := e.sessions[i := s]), i + 1, elapsed, l, sent);
        case _ =>
          RemoveKeepsValid(e, i);
          SwapRemoveFacts(e.sessions, i);
          SenderUpdate(Remove(e, i), i, elapsed, l, sent);
      }
    }
  }

  lemma SenderStep(e: Table, op: Op, l: Link, sent: set<Message>)
    requires SenderInv(e, l, sent)
    requires op.SendOp? && op.src == l.source && op.dst == l.destination && Accepts(e, op) ==>
               Message(op.pgn, op.data) in sent
    ensures SenderInv(Apply(e, op).engine, l, sent)
    ensures forall f :: f in Apply(e, op).frames && OnLink(f, l) ==> Genuine(f, l, sent)
  {
    match op
    case SendOp(_, _, _, _, _, _) => SenderSend(e, op, l, sent);
    case FrameOp(f, port) => SenderFrame(e, f, port, l, sent); RepliesAreControl(e, f, port);
    case TickOp(elapsed) => SenderUpdate(e, 0, elapsed, l, sent);
    case DrainOp => SenderDrain(e, l, sent);
    case DiscontinueOp(port, address) => WithoutFacts(e.sessions, port, address);
  }

  // ----- the receiver, fed genuine frames on the link and anything elsewhere

  lemma ReceiverData(e: Table, f: Frame, port: byte, l: Link, sent: set<Message>)
    requires ReceiverInv(e, l, sent) && f.pgn == PGN_TP_DT
    requires OnLink(f, l) ==> Genuine(f, l, sent)
    ensures var o := HandleDt(e, f, port);
            && ReceiverInv(o.engine, l, sent)
            && (forall c :: c in Mine(o.completed, Receive, l) ==> Spliced(Message(c.pgn, c.data), sent))
  {
    var at := Position(e.sessions, Collecting(f.source, f.destination, port));
    if at.Some? {
      var i := at.value;
      var s := e.sessions[i];
      assert s in e.sessions && SessionOk(s) && ReceiverSession(s, l, sent);
      assert Collecting(f.source, f.destination, port)(s);
      SwapRemoveFacts(e.sessions, i);
      if f.data[0] == s.lastSequence + 1 {
        if OnLink(f, l) {
          StoredIsSpliced(s, f, l, sent);
        }
        if HandleDt(e, f, port).completed == [] {
          UpdateMembers(e.sessions, i, HandleDt(e, f, port).engine.sessions[i]);
        }
      }
    }
  }

  // The expected data frame adds one more piece and leaves the others alone.
  lemma StoredIsSpliced(s: Session, f: Frame, l: Link, sent: set<Message>)
    requires SessionOk(s) && Carries(s, Receive, l) && ReceiverSession(s, l, sent)
    requires f.pgn == PGN_TP_DT && OnLink(f, l) && Genuine(f, l, sent) && f.data[0] == s.lastSequence + 1
    ensures ReceiverSession(Stored(s, f.data), l, sent)
    ensures Stored(s, f.data).transferred >= s.total ==> Spliced(Message(s.pgn, Stored(s, f.data).data), sent)
  {
    var m :| m in sent && IsData(f, l, m.data);
    var s' := Stored(s, f.data);
    forall k: nat | k < s'.lastSequence
      ensures PieceOfSome(s'.data, k, sent)
    {
      if k < s.lastSequence {
        assert PieceOfSome(s.data, k, sent);
        var m' :| m' in sent && Piece(s.data, k, m'.data);
        assert Piece(s'.data, k, m'.data);
      } else {
        assert Piece(s'.data, k, m.data);
      }
    }
  }

  lemma ReceiverRemove(e: Table, i: nat, l: Link, sent: set<Message>)
    requires ReceiverInv(e, l, sent) && i < |e.sessions|
    ensures ReceiverInv(Remove(e, i), l, sent)
  {
    SwapRemoveFacts(e.sessions, i);
  }

  lemma ReceiverCts(e: Table, f: Frame, port: byte, pgn: nat, l: Link, sent: set<Message>)
    requires ReceiverInv(e, l, sent)
    ensures ReceiverInv(HandleCts(e, f, port, pgn).engine, l, sent)
  {
    var at := Position(e.sessions, Awaiting(f.destination, f.source, port, pgn));
    if at.Some? {
      ReceiverRemove(e, at.value, l, sent);
      var s := e.sessions[at.value];
      assert SessionOk(s) && s.direction == Transmit;
      var v := OnCts(s, f.data[1], f.data[2], e.maxRetransmits);
      if v.Granted? {
        UpdateMembers(e.sessions, at.value, v.session);
      }
    }
  }

  lemma ReceiverRts(e: Table, f: Frame, port: byte, pgn: nat, l: Link, sent: set<Message>)
    requires ReceiverInv(e, l, sent)
    requires OnLink(f, l) ==> Headed(pgn, CmSize(f.data), sent)
    ensures ReceiverInv(HandleRts(e, f, port, pgn).engine, l, sent)
  {
    var at := Position(e.sessions, OnTransfer(Receive, f.source, f.destination, port, pgn));
    if at.Some? {
      ReceiverRemove(e, at.value, l, sent);
    }
  }

  lemma ReceiverBam(e: Table, f: Frame, port: byte, pgn: nat, l: Link, sent: set<Message>)
    requires ReceiverInv(e, l, sent)
    requires OnLink(f, l) ==> Headed(pgn, CmSize(f.data), sent)
    ensures ReceiverInv(HandleBam(e, f, port, pgn).engine, l, sent)
  {
    var at := Position(e.sessions, OnTransfer(Receive, f.source, BROADCAST_ADDRESS, port, pgn));
    if at.Some? {
      ReceiverRemove(e, at.value, l, sent);
    }
  }

  lemma ReceiverControl(e: Table, f: Frame, port: byte, l: Link, sent: set<Message>)
    requires ReceiverInv(e, l, sent) && f.pgn == PGN_TP_CM
    requires OnLink(f, l) ==> Genuine(f, l, sent)
    ensures var o := HandleCm(e, f, port);
            ReceiverInv(o.engine, l, sent) && Mine(o.completed, Receive, l) == []
  {
    var pgn := CmPgn(f.data);
    var control := f.data[0];
    if control == RTS {
      ReceiverRts(e, f, port, pgn, l, sent);
    } else if control == CTS {
      ReceiverCts(e, f, port, pgn, l, sent);
    } else if control == BAM {
      ReceiverBam(e, f, port, pgn, l, sent);
    } else if control == EOMA {
      var at := Position(e.sessions, OnTransfer(Transmit, f.destination, f.source, port, pgn));
      if at.Some? { ReceiverRemove(e, at.value, l, sent); }
    } else if control == ABORT {
      var at := Position(e.sessions, BetweenEither(f.source, f.destination, port, pgn));
      if at.Some? { ReceiverRemove(e, at.value, l, sent); }
    }
  }

  lemma {:induction false} ReceiverUpdate(e: Table, i: nat, elapsed: nat, l: Link, sent: set<Message>)
    requires i <= |e.sessions| && ReceiverInv(e, l, sent)
    ensures ReceiverInv(UpdateFrom(e, i, elapsed).engine, l, sent)
    ensures Mine(UpdateFrom(e, i, elapsed).completed, Receive, l) == []
    decreases |e.sessions| - i
  {
    if i < |e.sessions| {
      var s := e.sessions[i];
      assert s in e.sessions && SessionOk(s) && ReceiverSession(s, l, sent);
      TickKeepsSession(s, elapsed);
      ReceiverTick(s, elapsed, l, sent);
      match TickSession(s, elapsed) {
        case Alive(s', _) =>
          ReplaceKeepsValid(e, i, s');
          ReceiverReplace(e, i, s', l, sent);
          ReceiverUpdate(e.(sessions := e.sessions[i := s']), i + 1, elapsed, l, sent);
        case _ =>
          RemoveKeepsValid(e, i);
          ReceiverRemove(e, i, l, sent);
          ReceiverUpdate(Remove(e, i), i, elapsed, l, sent);
      }
    }
  }

  lemma ReceiverReplace(e: Table, i: nat, s: Session, l: Link, sent: set<Message>)
    requires i < |e.sessions| && ReceiverInv(e, l, sent) && ReceiverSession(s, l, sent)
    ensures ReceiverInv(e.(sessions := e.sessions[i := s]), l, sent)
  {
    UpdateMembers(e.sessions, i, s);
  }

  // Time passing never alters what a receiving session holds, and never completes one.
  lemma ReceiverTick(s: Session, elapsed: nat, l: Link, sent: set<Message>)
    requires SessionOk(s) && ReceiverSession(s, l, sent)
    ensures var r := TickSession(s, elapsed);
            && (r.Alive? ==> ReceiverSession(r.session, l, sent))
            && (r.Finished? ==> Mine([r.session], Receive, l) == [])
  {
    TickKeepsSession(s, elapsed);
    if s.direction == Transmit {
      GenerateFacts(s.(timer := 0), 1);
    }
  }

  lemma ReceiverDrain(e: Table, l: Link, sent: set<Message>)
    requires ReceiverInv(e, l, sent)
    ensures ReceiverInv(PendingData(e).engine, l, sent)
  {
    DrainAllFacts(e.sessions);
    forall k | 0 <= k < |e.sessions|
      ensures ReceiverSession(DrainSession(e.sessions[k]).0, l, sent)
    {
      DrainSessionFacts(e.sessions[k]);
    }
  }

  lemma ReceiverStep(e: Table, op: Op, l: Link, sent: set<Message>)
    requires ReceiverInv(e, l, sent)
    requires op.FrameOp? && OnLink(op.frame, l) ==> Genuine(op.frame, l, sent)
    ensures var o := Apply(e, op);
            && ReceiverInv(o.engine, l, sent)
            && (forall c :: c in Mine(o.completed, Receive, l) ==> Spliced(Message(c.pgn, c.data), sent))
  {
    match op
    case SendOp(_, _, _, _, _, _) =>
    case FrameOp(f, port) =>
      if f.length >= 8 {
        if f.pgn == PGN_TP_CM {
          ReceiverControl(e, f, port, l, sent);
        } else if f.pgn == PGN_TP_DT {
          ReceiverData(e, f, port, l, sent);
        }
      }
    case TickOp(elapsed) => ReceiverUpdate(e, 0, elapsed, l, sent);
    case DrainOp => ReceiverDrain(e, l, sent);
    case DiscontinueOp(port, address) => WithoutFacts(e.sessions, port, address);
  }

  // ----- acknowledgement

  predicate IsEoma(f: Frame, l: Link) {
    Backward(f, l) && f.pgn == PGN_TP_CM && f.data[0] == EOMA
  }

  /** `c` is a message of the PGN and size that the control frame names. */
  predicate Acknowledges(f: Frame, c: Session) {
    CmPgn(f.data) == c.pgn && CmSize(f.data) == |c.data|
  }

  // An end-of-message acknowledgement goes out only in the step that hands such a message over.
  lemma EomaMeansDelivered(e: Table, op: Op, l: Link)
    requires l.destination != BROADCAST_ADDRESS
    ensures var o := Apply(e, op);
            forall f :: f in o.frames && IsEoma(f, l) ==>
                exists c :: c in Mine(o.completed, Receive, l) && Acknowledges(f, c)
  {
    match op
    case SendOp(_, _, _, _, _, _) =>
    case FrameOp(f, port) => FrameEoma(e, f, port, l);
    case TickOp(elapsed) => UpdateSendsNoEoma(e, 0, elapsed);
    case DrainOp => DrainSendsNoEoma(e);
    case DiscontinueOp(_, _) =>
  }

  lemma FrameEoma(e: Table, f: Frame, port: byte, l: Link)
    ensures var o := ProcessFrame(e, f, port);
            forall g :: g in o.frames && IsEoma(g, l) ==>
                exists c :: c in Mine(o.completed, Receive, l) && Acknowledges(g, c)
  {
    var o := ProcessFrame(e, f, port);
    RepliesAreControl(e, f, port);
    if f.pgn == PGN_TP_DT && o.completed != [] {
      var c := o.completed[0];
      var at := Position(e.sessions, Collecting(f.source, f.destination, port));
      assert SessionOk(e.sessions[at.value]);
      HeaderRoundTrip(c.pgn, |c.data|, c.destination, c.source, Packets(|c.data|) % 256);
      assert forall g :: g in o.frames ==> Acknowledges(g, c);
      if Carries(c, Receive, l) {
        assert c in Mine(o.completed, Receive, l);
      }
    }
  }

  lemma DrainSendsNoEoma(e: Table)
    ensures forall f :: f in PendingData(e).frames ==> f.pgn == PGN_TP_DT
  {
    DrainAllFacts(e.sessions);
    forall k | 0 <= k < |e.sessions|
      ensures forall f :: f in DrainSession(e.sessions[k]).1 ==> f.pgn == PGN_TP_DT
    {
      if e.sessions[k].direction == Transmit {
        GenerateFacts(e.sessions[k], e.sessions[k].packetsToSend);
      }
    }
  }

  lemma {:induction false} UpdateSendsNoEoma(e: Table, i: nat, elapsed: nat)
    requires i <= |e.sessions|
    ensures forall f :: f in UpdateFrom(e, i, elapsed).frames ==> f.pgn == PGN_TP_DT || f.data[0] == ABORT
    decreases |e.sessions| - i
  {
    if i < |e.sessions| {
      var s := e.sessions[i];
      assert SessionOk(s);
      TickKeepsSession(s, elapsed);
      if s.direction == Transmit {
        GenerateFacts(s.(timer := 0), 1);
      }
      match TickSession(s, elapsed) {
        case Alive(s', _) =>
          ReplaceKeepsValid(e, i, s');
          UpdateSendsNoEoma(e.(sessions := e.sessions[i := s']), i + 1, elapsed);
        case _ =>
          RemoveKeepsValid(e, i);
          UpdateSendsNoEoma(Remove(e, i), i, elapsed);
      }
    }
  }

  // A connection-mode sender reports success only when an acknowledgement of that message arrives from the peer.
  lemma CompletionNeedsEoma(e: Table, op: Op, l: Link, c: Session)
    requires l.destination != BROADCAST_ADDRESS
    requires c in Mine(Apply(e, op).completed, Transmit, l)
    ensures op.FrameOp? && IsEoma(op.frame, l) && Acknowledges(op.frame, c)
    ensures exists s :: s in e.sessions && Carries(s, Transmit, l) && s.pgn == c.pgn && s.data == c.data
  {
    assert c in Apply(e, op).completed && Carries(c, Transmit, l);
    match op
    case SendOp(_, _, _, _, _, _) =>
    case FrameOp(f, port) => FrameCompletes(e, f, port, l, c);
    case TickOp(elapsed) => UpdateCompletesBroadcasts(e, 0, elapsed);
    case DrainOp =>
    case DiscontinueOp(_, _) =>
  }

  lemma FrameCompletes(e: Table, f: Frame, port: byte, l: Link, c: Session)
    requires c in ProcessFrame(e, f, port).completed && Carries(c, Transmit, l)
    ensures IsEoma(f, l) && Acknowledges(f, c)
    ensures exists s :: s in e.sessions && Carries(s, Transmit, l) && s.pgn == c.pgn && s.data == c.data
  {
    if f.pgn == PGN_TP_CM {
      var at := Position(e.sessions, OnTransfer(Transmit, f.destination, f.source, port, CmPgn(f.data)));
      var s := e.sessions[at.value];
      assert s in e.sessions && SessionOk(s);
    }
  }

  lemma {:induction false} UpdateCompletesBroadcasts(e: Table, i: nat, elapsed: nat)
    requires i <= |e.sessions|
    ensures forall c :: c in UpdateFrom(e, i, elapsed).completed ==> c.IsBroadcast()
    decreases |e.sessions| - i
  {
    if i < |e.sessions| {
      var s := e.sessions[i];
      assert SessionOk(s);
      TickKeepsSession(s, elapsed);
      if s.direction == Transmit {
        GenerateFacts(s.(timer := 0), 1);
      }
      match TickSession(s, elapsed) {
        case Alive(s', _) =>
          ReplaceKeepsValid(e, i, s');
          UpdateCompletesBroadcasts(e.(sessions := e.sessions[i := s']), i + 1, elapsed);
        case _ =>
          RemoveKeepsValid(e, i);
          UpdateCompletesBroadcasts(Remove(e, i), i, elapsed);
      }
    }
  }

  // ----- runs

  /**
   `sent` collects the messages the sender accepts for the link. `wire` and `back` hold every frame ever
   emitted on the link and against it; a frame stays there after it has been delivered, so it may arrive
   again at any later time, or never.
   */
  datatype Bus = Bus(
    sender: Table,
    receiver: Table,
    sent: set<Message>,
    wire: set<Frame>,
    back: set<Frame>,
    delivered: seq<Session>,
    acknowledged: seq<Session>)

  datatype Event = AtSender(op: Op) | AtReceiver(op: Op)

  /** Either node may do anything and hear anything, but frames of the link are not forged. */
  predicate Permitted(b: Bus, ev: Event, l: Link) {
    match ev
    case AtSender(FrameOp(f, _)) => Backward(f, l) ==> f in b.back
    case AtReceiver(FrameOp(f, _)) => OnLink(f, l) ==> f in b.wire
    case _ => true
  }

  function Accepted(e: Table, op: Op, l: Link): set<Message> {
    if op.SendOp? && op.src == l.source && op.dst == l.destination && Accepts(e, op)
    then {Message(op.pgn, op.data)} else {}
  }

  function Next(b: Bus, ev: Event, l: Link): Bus {
    match ev
    case AtSender(op) =>
      ApplyKeepsValid(b.sender, op);
      var o := Apply(b.sender, op);
      b.(sender := o.engine,
         sent := b.sent + Accepted(b.sender, op, l),
         wire := b.wire + (set f | f in o.frames && OnLink(f, l)),
         acknowledged := b.acknowledged + Mine(o.completed, Transmit, l))
    case AtReceiver(op) =>
      ApplyKeepsValid(b.receiver, op);
      var o := Apply(b.receiver, op);
      b.(receiver := o.engine,
         back := b.back + (set f | f in o.frames && Backward(f, l)),
         delivered := b.delivered + Mine(o.completed, Receive, l))
  }

  /** Both nodes may be busy with anything, as long as nothing is under way on the link yet. */
  ghost predicate Initial(b: Bus, l: Link) {
    && b.sent == {} && b.wire == {} && b.back == {} && b.delivered == [] && b.acknowledged == []
    && (forall s :: s in b.sender.sessions ==> !Carries(s, Transmit, l))
    && (forall s :: s in b.receiver.sessions ==> !Carries(s, Receive, l))
  }

  function Steps(l: Link): (Bus, Event) -> Bus {
    (b: Bus, ev: Event) => Next(b, ev, l)
  }

  function Permits(l: Link): (Bus, Event) -> bool {
    (b: Bus, ev: Event) => Permitted(b, ev, l)
  }

  /** The events lead from `b` to `b'`. */
  ghost predicate Leads(b: Bus, evs: seq<Event>, b': Bus, l: Link) {
    Chain(Permits(l), Steps(l), b, evs, b')
  }

  /** What has been acknowledged to the sender, or is on its way to be, has been handed up in that PGN and size. */
  ghost predicate AcksTrue(b: Bus, l: Link) {
    && (forall f :: f in b.back && IsEoma(f, l) ==> exists c :: c in b.delivered && Acknowledges(f, c))
    && (forall a :: a in b.acknowledged ==>
          && Message(a.pgn, a.data) in b.sent
          && exists c :: c in b.delivered && c.pgn == a.pgn && |c.data| == |a.data|)
  }

  ghost predicate BusInv(b: Bus, l: Link) {
    && SenderInv(b.sender, l, b.sent)
    && ReceiverInv(b.receiver, l, b.sent)
    && (forall f :: f in b.wire ==> Genuine(f, l, b.sent))
    && (forall c :: c in b.delivered ==> Carries(c, Receive, l) && Spliced(Message(c.pgn, c.data), b.sent))
    && (l.destination != BROADCAST_ADDRESS ==> AcksTrue(b, l))
  }

  lemma SplicedGrows(c: Message, sent: set<Message>, more: set<Message>)
    requires Spliced(c, sent) && sent <= more
    ensures Spliced(c, more)
  {
    forall k: nat | k < Packets(|c.data|)
      ensures PieceOfSome(c.data, k, more)
    {
      assert PieceOfSome(c.data, k, sent);
    }
  }

  lemma GenuineGrows(f: Frame, l: Link, sent: set<Message>, more: set<Message>)
    requires Genuine(f, l, sent) && sent <= more
    ensures Genuine(f, l, more)
  {
  }

  lemma SessionGrows(s: Session, l: Link, sent: set<Message>, more: set<Message>)
    requires sent <= more
    ensures SenderSession(s, l, sent) ==> SenderSession(s, l, more)
    ensures ReceiverSession(s, l, sent) ==> ReceiverSession(s, l, more)
  {
    if ReceiverSession(s, l, sent) && Carries(s, Receive, l) {
      forall k: nat | k < s.lastSequence
        ensures PieceOfSome(s.data, k, more)
      {
        assert PieceOfSome(s.data, k, sent);
      }
    }
  }

  // Accepting one more message invalidates nothing.
  lemma InvGrows(b: Bus, l: Link, more: set<Message>)
    requires BusInv(b, l) && b.sent <= more
    ensures BusInv(b.(sent := more), l)
  {
    forall f | f in b.wire
      ensures Genuine(f, l, more)
    {
      GenuineGrows(f, l, b.sent, more);
    }
    forall c | c in b.delivered
      ensures Spliced(Message(c.pgn, c.data), more)
    {
      SplicedGrows(Message(c.pgn, c.data), b.sent, more);
    }
    forall s | s in b.sender.sessions || s in b.receiver.sessions
      ensures SenderSession(s, l, b.sent) ==> SenderSession(s, l, more)
      ensures ReceiverSession(s, l, b.sent) ==> ReceiverSession(s, l, more)
    {
      SessionGrows(s, l, b.sent, more);
    }
  }

  lemma NextKeepsInv(b: Bus, ev: Event, l: Link)
    requires BusInv(b, l) && Permitted(b, ev, l)
    ensures BusInv(Next(b, ev, l), l)
  {
    match ev {
      case AtSender(op) =>
        var more := b.sent + Accepted(b.sender, op, l);
        InvGrows(b, l, more);
        SenderStep(b.sender, op, l, more);
        if l.destination != BROADCAST_ADDRESS {
          SenderAcks(b, op, l);
        }
      case AtReceiver(op) =>
        ReceiverStep(b.receiver, op, l, b.sent);
        if l.destination != BROADCAST_ADDRESS {
          EomaMeansDelivered(b.receiver, op, l);
        }
    }
  }

  lemma SenderAcks(b: Bus, op: Op, l: Link)
    requires l.destination != BROADCAST_ADDRESS && AcksTrue(b, l) && Permitted(b, AtSender(op), l)
    requires SenderInv(b.sender, l, b.sent)
    ensures AcksTrue(Next(b, AtSender(op), l), l)
  {
    forall a | a in Mine(Apply(b.sender, op).completed, Transmit, l)
      ensures Message(a.pgn, a.data) in b.sent
      ensures exists c :: c in b.delivered && c.pgn == a.pgn && |c.data| == |a.data|
    {
      CompletionNeedsEoma(b.sender, op, l, a);
      var c :| c in b.delivered && Acknowledges(op.frame, c);
    }
  }

  lemma {:induction false} RunKeepsInv(b: Bus, evs: seq<Event>, b': Bus, l: Link)
    requires BusInv(b, l) && Leads(b, evs, b', l)
    ensures BusInv(b', l)
    decreases |evs|
  {
    if evs != [] {
      NextKeepsInv(b, evs[0], l);
      RunKeepsInv(Next(b, evs[0], l), evs[1..], b', l);
    }
  }

  // MAIN RESULT. Whatever the network does and whatever is sent on the link, every message the receiver
  // hands up has the PGN and size of a message that was sent, and each of its packets was sent at its place.
  lemma DeliveriesAreSplices(b: Bus, evs: seq<Event>, b': Bus, l: Link, c: Session)
    requires Initial(b, l) && Leads(b, evs, b', l) && c in b'.delivered
    ensures c.source == l.source && c.destination == l.destination && Spliced(Message(c.pgn, c.data), b'.sent)
  {
    RunKeepsInv(b, evs, b', l);
  }

  lemma SpliceOfOne(c: Message, m: Message)
    requires Spliced(c, {m})
    ensures c == m
  {
    forall i | 0 <= i < |c.data|
      ensures c.data[i] == m.data[i]
    {
      assert PieceOfSome(c.data, i / 7, {m});
    }
  }

  // MAIN RESULT. As long as one message only has been sent, the receiver hands up nothing else.
  lemma DeliveryIsFaithful(b: Bus, evs: seq<Event>, b': Bus, l: Link, m: Message, c: Session)
    requires Initial(b, l) && Leads(b, evs, b', l) && b'.sent <= {m} && c in b'.delivered
    ensures c.source == l.source && c.destination == l.destination && c.pgn == m.pgn && c.data == m.data
  {
    DeliveriesAreSplices(b, evs, b', l, c);
    SplicedGrows(Message(c.pgn, c.data), b'.sent, {m});
    SpliceOfOne(Message(c.pgn, c.data), m);
  }

  // MAIN RESULT. A connection-mode sender that reports success is right as far as the acknowledgement goes:
  // the peer has handed up a message of that PGN and size.
  lemma AcknowledgedMeansDelivered(b: Bus, evs: seq<Event>, b': Bus, l: Link, a: Session)
    requires Initial(b, l) && Leads(b, evs, b', l) && l.destination != BROADCAST_ADDRESS && a in b'.acknowledged
    ensures exists c :: c in b'.delivered && c.pgn == a.pgn && |c.data| == |a.data|
  {
    RunKeepsInv(b, evs, b', l);
  }
}
