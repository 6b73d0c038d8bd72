/**
 The other half of transport correctness: on a link that delivers every frame in order, a connection-mode
 transfer runs to completion and leaves nothing behind, however its steps are scheduled and whatever else
 the two nodes are busy with.
 */
module TpProgress {
  import opened Can
  import opened TpWire
  import opened Seqs
  import opened TpEngine
  import opened TpSafety
  import opened TpNetwork
  import opened TpPaths

  /** Two engines, and the frames of the link in flight between them, oldest first. */
  datatype Line = Line(
    tx: Table,
    rx: Table,
    toRx: seq<Frame>,
    toTx: seq<Frame>,
    delivered: seq<Session>,
    acknowledged: seq<Session>)

  datatype Move = ToReceiver | ToSender | SenderDoes(op: Op) | ReceiverDoes(op: Op)

  /** The line after the sender, or the receiver, has done something with outcome `o`. */
  function Sender(y: Line, o: Outcome, l: Link): Line
    requires Valid(o.engine)
  {
    y.(tx := o.engine, toRx := y.toRx + Filter(o.frames, OfLink(l)),
       acknowledged := y.acknowledged + Filter(o.completed, Ours(l)))
  }

  function Receiver(y: Line, o: Outcome, l: Link): Line
    requires Valid(o.engine)
  {
    y.(rx := o.engine, toTx := y.toTx + Filter(o.frames, OfLink(l)),
       delivered := y.delivered + Filter(o.completed, Ours(l)))
  }

  function Step(y: Line, move: Move, l: Link, port: byte): Line {
    match move
    case ToReceiver =>
      if y.toRx == [] then y
      else FrameKeepsValid(y.rx, y.toRx[0], port);
           Receiver(y.(toRx := y.toRx[1..]), ProcessFrame(y.rx, y.toRx[0], port), l)
    case ToSender =>
      if y.toTx == [] then y
      else FrameKeepsValid(y.tx, y.toTx[0], port);
           Sender(y.(toTx := y.toTx[1..]), ProcessFrame(y.tx, y.toTx[0], port), l)
    case SenderDoes(op) =>
      ApplyKeepsValid(y.tx, op);
      Sender(y, Apply(y.tx, op), l)
    case ReceiverDoes(op) =>
      ApplyKeepsValid(y.rx, op);
      Receiver(y, Apply(y.rx, op), l)
  }

  lemma SenderQuiet(y: Line, o: Outcome, l: Link)
    requires Valid(o.engine) && Filter(o.frames, OfLink(l)) == [] && Filter(o.completed, Ours(l)) == []
    ensures Sender(y, o, l) == y.(tx := o.engine)
  {
    assert y.toRx + [] == y.toRx && y.acknowledged + [] == y.acknowledged;
  }

  lemma ReceiverQuiet(y: Line, o: Outcome, l: Link)
    requires Valid(o.engine) && Filter(o.frames, OfLink(l)) == [] && Filter(o.completed, Ours(l)) == []
    ensures Receiver(y, o, l) == y.(rx := o.engine)
  {
    assert y.toTx + [] == y.toTx && y.delivered + [] == y.delivered;
  }

  // ----- what the nodes may do meanwhile

  /** Time, draining, and any business with other nodes. */
  predicate Foreign(op: Op, l: Link) {
    match op
    case SendOp(_, _, src, dst, _, _) =>
      !(src == l.source && dst == l.destination) && !(src == l.destination && dst == l.source)
    case FrameOp(f, _) => Elsewhere(f, l)
    case TickOp(_) => true
    case DrainOp => true
    case DiscontinueOp(_, address) => address != l.source && address != l.destination
  }

  predicate TimesOut(s: Session, elapsed: nat) {
    TimeLimit(s.state).Some? && s.timer + elapsed >= TimeLimit(s.state).value
  }

  /** A step of time that no session of the link waits through in vain. */
  ghost predicate Patient(e: Engine, op: Op, l: Link) {
    op.TickOp? ==> forall s :: s in e.sessions && Between(s, l) ==> !TimesOut(s, op.elapsed)
  }

  /** Until the receiver has opened its session, its other business leaves a slot for it. */
  ghost predicate LeavesSlot(y: Line, op: Op, l: Link) {
    Absent(y.rx, l) && y.delivered == [] ==> |Apply(y.rx, op).engine.sessions| < y.rx.maxSessions
  }

  ghost predicate Allowed(y: Line, move: Move, l: Link) {
    match move
    case ToReceiver => y.toRx != []
    case ToSender => y.toTx != []
    case SenderDoes(op) => Foreign(op, l) && Patient(y.tx, op, l)
    case ReceiverDoes(op) => Foreign(op, l) && Patient(y.rx, op, l) && LeavesSlot(y, op, l)
  }

  /** The moves that are part of the transfer: a frame of the link arrives or goes out. */
  predicate Productive(y: Line, move: Move, l: Link) {
    match move
    case ToReceiver => y.toRx != []
    case ToSender => y.toTx != []
    case SenderDoes(op) => op.DrainOp? && Filter(PendingData(y.tx).frames, OfLink(l)) != []
    case ReceiverDoes(_) => false
  }

  lemma ForeignAside(e: Table, op: Op, l: Link)
    requires Foreign(op, l) && !op.TickOp? && !op.DrainOp? && l.source != BROADCAST_ADDRESS
    ensures Aside(e, Apply(e, op), l)
    ensures Filter(Apply(e, op).frames, OfLink(l)) == [] && Filter(Apply(e, op).completed, Ours(l)) == []
  {
    match op {
      case SendOp(pgn, data, src, dst, port, priority) =>
        AppendOther(e, NewTransmit(pgn, data, src, dst, port, priority, e.advertised), l);
      case FrameOp(f, port) => FrameAside(e, f, port, l);
      case DiscontinueOp(port, address) => DiscontinueAside(e, port, address, l);
    }
    NothingPasses(Apply(e, op).frames, OfLink(l));
    NothingPasses(Apply(e, op).completed, Ours(l));
  }

  // Meanwhile the session of the link only grows older.
  lemma SessionIdles(e: Table, op: Op, s: Session, l: Link) returns (s': Session)
    requires Foreign(op, l) && l.source != BROADCAST_ADDRESS && Alone(e, s, l) && Patient(e, op, l)
    requires s.IsBroadcast() ==> !op.TickOp?
    requires !s.IsBroadcast() && s.direction == Transmit && s.state == SendingData ==> !op.DrainOp?
    ensures var o := Apply(e, op);
            Alone(o.engine, s', l) && Filter(o.frames, OfLink(l)) == [] && Filter(o.completed, Ours(l)) == []
    ensures s' == s.(timer := s'.timer) && (!op.TickOp? ==> s' == s)
  {
    assert SessionOk(s);
    if op.TickOp? {
      TickAlone(e, s, op.elapsed, l);
      s' := s.(timer := SaturatingAdd32(s.timer, op.elapsed));
      assert !TimesOut(s, op.elapsed) && TickSession(s, op.elapsed) == Alive(s', []);
    } else if op.DrainOp? {
      DrainAlone(e, s, l);
      s' := s;
      assert DrainSession(s) == (s, []);
    } else {
      ForeignAside(e, op, l);
      UntouchedKeeps(e, Apply(e, op).engine, l);
      s' := s;
    }
  }

  lemma TableIdles(e: Table, op: Op, l: Link)
    requires Foreign(op, l) && l.source != BROADCAST_ADDRESS && Absent(e, l)
    ensures var o := Apply(e, op);
            Absent(o.engine, l) && Filter(o.frames, OfLink(l)) == [] && Filter(o.completed, Ours(l)) == []
  {
    if op.TickOp? {
      TickOthers(e, 0, op.elapsed, l);
    } else if op.DrainOp? {
      DrainAbsent(e, l);
    } else {
      ForeignAside(e, op, l);
      UntouchedKeeps(e, Apply(e, op).engine, l);
    }
  }

  lemma {:induction false} LimitsStay(e: Table, i: nat, elapsed: nat)
    requires i <= |e.sessions|
    ensures var e' := UpdateFrom(e, i, elapsed).engine; e' == e.(sessions := e'.sessions)
    decreases |e.sessions| - i
  {
    if i < |e.sessions| {
      UpdateUnfolds(e, i, elapsed);
      var (e', j) := Visited(e, i, TickSession(e.sessions[i], elapsed));
      LimitsStay(e', j, elapsed);
    }
  }

  lemma LimitsKept(e: Table, op: Op)
    ensures var e' := Apply(e, op).engine; e' == e.(sessions := e'.sessions)
  {
    if op.TickOp? {
      LimitsStay(e, 0, op.elapsed);
    } else if op.FrameOp? {
      FrameLimits(e, op.frame, op.port);
    }
  }

  lemma FrameLimits(e: Table, f: Frame, port: byte)
    ensures var e' := ProcessFrame(e, f, port).engine; e' == e.(sessions := e'.sessions)
  {
    var e1 := HandleDt(e, f, port).engine;
    assert e1 == e.(sessions := e1.sessions);
    var e2 := HandleCm(e, f, port).engine;
    assert e2 == e.(sessions := e2.sessions);
  }

  // ----- the phases of a transfer

  ghost predicate Sendable(m: Message, l: Link) {
    Carriable(m) && PeerLink(l)
  }

  ghost predicate Sends(x: Session, m: Message, l: Link, port: byte, state: State, last: nat) {
    && Carries(x, Transmit, l) && x.port == port && x.state == state
    && x.pgn == m.pgn && x.data == m.data && x.total == |m.data| && x.lastSequence == last
  }

  ghost predicate Receives(r: Session, m: Message, l: Link, port: byte, last: nat, start: nat, size: nat) {
    && Carries(r, Receive, l) && r.port == port && r.pgn == m.pgn && r.total == |r.data| == |m.data|
    && r.lastSequence == last && 7 * last < |m.data| && r.data[..7 * last] == m.data[..7 * last]
    && r.windowStart == start && r.windowSize == size && size <= r.maxPerCts
  }

  /** The session at the sender, the one at the receiver, and how far they are. */
  datatype Phase =
    | Asked(x: Session)
    | Granting(x: Session, r: Session, k: nat, w: nat)
    | Ready(x: Session, r: Session, k: nat, w: nat)
    | Flowing(x: Session, r: Session, start: nat, j: nat, hi: nat)
    | Acking(x: Session)
    | Over

  predicate Is(c: seq<Session>, m: Message) {
    |c| == 1 && c[0].pgn == m.pgn && c[0].data == m.data
  }

  ghost predicate In(y: Line, ph: Phase, m: Message, l: Link, port: byte) {
    var n := Packets(|m.data|);
    && Sendable(m, l)
    && match ph
       case Asked(x) =>
         && Alone(y.tx, x, l) && Sends(x, m, l, port, WaitingForCTS, 0)
         && Absent(y.rx, l) && |y.rx.sessions| < y.rx.maxSessions && |m.data| <= y.rx.maxReceive
         && 1 <= x.advertised <= TP_MAX_PACKETS_PER_CTS
         && y.toRx == [MakeRts(m.pgn, |m.data|, l.source, l.destination, x.advertised)] && y.toTx == []
         && y.delivered == [] && y.acknowledged == []
       case Granting(x, r, k, w) =>
         && Alone(y.tx, x, l) && Sends(x, m, l, port, WaitingForCTS, k)
         && Alone(y.rx, r, l) && Receives(r, m, l, port, k, k + 1, w) && 1 <= w && k + w <= n
         && y.toRx == [] && y.toTx == [MakeCts(l.destination, l.source, w, k + 1, m.pgn)]
         && y.delivered == [] && y.acknowledged == []
       case Ready(x, r, k, w) =>
         && Alone(y.tx, x, l) && Sends(x, m, l, port, SendingData, k) && x.packetsToSend == w
         && Alone(y.rx, r, l) && Receives(r, m, l, port, k, k + 1, w) && 1 <= w && k + w <= n
         && y.toRx == [] && y.toTx == [] && y.delivered == [] && y.acknowledged == []
       case Flowing(x, r, start, j, hi) =>
         && 1 <= start <= j + 1 <= hi <= n
         && Alone(y.tx, x, l) && Sends(x, m, l, port, if hi == n then WaitingForEndOfMsg else WaitingForCTS, hi)
         && Alone(y.rx, r, l) && Receives(r, m, l, port, j, start, hi + 1 - start) && |y.toRx| == hi - j
         && (forall i :: 0 <= i < hi - j ==> y.toRx[i] == DataFrame(l, m.data, j + 1 + i))
         && y.toTx == [] && y.delivered == [] && y.acknowledged == []
       case Acking(x) =>
         && Alone(y.tx, x, l) && Sends(x, m, l, port, WaitingForEndOfMsg, n) && Absent(y.rx, l)
         && y.toRx == [] && y.toTx == [MakeEoma(l.destination, l.source, |m.data|, n, m.pgn)]
         && Is(y.delivered, m) && y.acknowledged == []
       case Over => Done(y, m, l)
  }

  /** Handed up once, acknowledged once, and nothing left in flight or in the tables. */
  ghost predicate Done(y: Line, m: Message, l: Link) {
    && Absent(y.tx, l) && Absent(y.rx, l) && y.toRx == [] && y.toTx == []
    && Is(y.delivered, m) && Is(y.acknowledged, m)
  }

  /** How many productive moves are left at most, for `n` packets. */
  function Rank(ph: Phase, n: nat): int {
    match ph
    case Asked(_) => 3 * n + 2
    case Granting(_, _, k, _) => 3 * (n - k) + 1
    case Ready(_, _, k, _) => 3 * (n - k)
    case Flowing(_, _, _, j, hi) => 3 * (n - hi) + (hi - j) + 1
    case Acking(_) => 1
    case Over => 0
  }

  // ----- the productive moves

  lemma ReceiverOpens(y: Line, x: Session, m: Message, l: Link, port: byte) returns (ph: Phase)
    requires In(y, Asked(x), m, l, port)
    ensures In(Step(y, ToReceiver, l, port), ph, m, l, port)
            && Rank(ph, Packets(|m.data|)) < Rank(Asked(x), Packets(|m.data|))
  {
    var f := y.toRx[0];
    HeaderRoundTrip(m.pgn, |m.data|, l.source, l.destination, x.advertised);
    NotFound(y.rx, l, OnTransfer(Receive, l.source, l.destination, port, m.pgn));
    NotFound(y.rx, l, OnPath(Receive, l.source, l.destination, port));
    var w := Min(Packets(|m.data|), x.advertised);
    var r := NewReceive(f, port, m.pgn, |m.data|, x.advertised, w);
    AppendAlone(y.rx, r, l);
    var cts := MakeCts(l.destination, l.source, w, 1, m.pgn);
    assert ProcessFrame(y.rx, f, port) == Outcome(y.rx.(sessions := y.rx.sessions + [r]), [cts], []);
    Single(cts, OfLink(l));
    ph := Granting(x, r, 0, w);
  }

  lemma Single<T>(t: T, p: T -> bool)
    requires p(t)
    ensures Filter([t], p) == [t]
  {
  }

  lemma CtsTaken(e: Table, x: Session, k: nat, w: nat, m: Message, l: Link, port: byte) returns (x': Session)
    requires Sendable(m, l) && Alone(e, x, l) && Sends(x, m, l, port, WaitingForCTS, k)
    requires 1 <= w <= TP_MAX_PACKETS_PER_CTS && k + w <= Packets(|m.data|)
    ensures var o := ProcessFrame(e, MakeCts(l.destination, l.source, w, k + 1, m.pgn), port);
            Alone(o.engine, x', l) && o.frames == [] && o.completed == []
    ensures Sends(x', m, l, port, SendingData, k) && x'.packetsToSend == w
  {
    PgnBytes(m.pgn);
    assert SessionOk(x) && Packets(x.transferred) == k;
    Found(e, x, l, Awaiting(l.source, l.destination, port, m.pgn));
    var i := Position(e.sessions, Awaiting(l.source, l.destination, port, m.pgn)).value;
    x' := OnCts(x, w, k + 1, e.maxRetransmits).session;
    ReplaceAlone(e, i, x', l);
  }

  lemma SenderGranted(y: Line, x: Session, r: Session, k: nat, w: nat, m: Message, l: Link, port: byte)
      returns (ph: Phase)
    requires In(y, Granting(x, r, k, w), m, l, port)
    ensures In(Step(y, ToSender, l, port), ph, m, l, port)
            && Rank(ph, Packets(|m.data|)) < Rank(Granting(x, r, k, w), Packets(|m.data|))
  {
    assert SessionOk(r);
    var x' := CtsTaken(y.tx, x, k, w, m, l, port);
    var f := y.toTx[0];
    FrameKeepsValid(y.tx, f, port);
    ph := Ready(x', r, k, w);
    GrantTaken(y, x, r, k, w, m, l, port, x', ProcessFrame(y.tx, f, port));
  }

  lemma GrantTaken(y: Line, x: Session, r: Session, k: nat, w: nat, m: Message, l: Link, port: byte, x': Session,
                   o: Outcome)
    requires In(y, Granting(x, r, k, w), m, l, port)
    requires Valid(o.engine) && Alone(o.engine, x', l) && o.frames == [] && o.completed == []
    requires Sends(x', m, l, port, SendingData, k) && x'.packetsToSend == w
    ensures In(Sender(y.(toTx := y.toTx[1..]), o, l), Ready(x', r, k, w), m, l, port)
  {
    SenderQuiet(y.(toTx := y.toTx[1..]), o, l);
  }

  lemma WindowDrains(x: Session, m: Message, l: Link, port: byte, k: nat, w: nat)
    requires SessionOk(x) && Sendable(m, l) && Sends(x, m, l, port, SendingData, k) && x.packetsToSend == w
    requires 1 <= w && k + w <= Packets(|m.data|)
    ensures var (x', frames) := DrainSession(x);
            && Sends(x', m, l, port, if k + w == Packets(|m.data|) then WaitingForEndOfMsg else WaitingForCTS, k + w)
            && |frames| == w && forall i :: 0 <= i < w ==> frames[i] == DataFrame(l, m.data, k + 1 + i)
  {
    GenerateFacts(x, w);
  }

  lemma SenderDrains(y: Line, x: Session, r: Session, k: nat, w: nat, m: Message, l: Link, port: byte)
      returns (ph: Phase)
    requires In(y, Ready(x, r, k, w), m, l, port)
    ensures Productive(y, SenderDoes(DrainOp), l)
    ensures In(Step(y, SenderDoes(DrainOp), l, port), ph, m, l, port)
    ensures Rank(ph, Packets(|m.data|)) < Rank(Ready(x, r, k, w), Packets(|m.data|))
  {
    var x', o := WindowDrained(y.tx, x, m, l, port, k, w);
    WindowOut(y, x, r, k, w, m, l, port, x', o);
    ph := Flowing(x', r, k + 1, k, k + w);
  }

  lemma WindowDrained(e: Table, x: Session, m: Message, l: Link, port: byte, k: nat, w: nat)
      returns (x': Session, o: Outcome)
    requires Sendable(m, l) && Alone(e, x, l) && Sends(x, m, l, port, SendingData, k) && x.packetsToSend == w
    requires 1 <= w && k + w <= Packets(|m.data|)
    ensures o == PendingData(e) && Valid(o.engine) && Alone(o.engine, x', l) && o.completed == []
    ensures Sends(x', m, l, port, if k + w == Packets(|m.data|) then WaitingForEndOfMsg else WaitingForCTS, k + w)
    ensures var frames := Filter(o.frames, OfLink(l));
            |frames| == w && forall i :: 0 <= i < w ==> frames[i] == DataFrame(l, m.data, k + 1 + i)
  {
    assert SessionOk(x);
    WindowDrains(x, m, l, port, k, w);
    DrainAlone(e, x, l);
    DrainKeepsValid(e);
    x', o := DrainSession(x).0, PendingData(e);
  }

  lemma WindowOut(y: Line, x: Session, r: Session, k: nat, w: nat, m: Message, l: Link, port: byte, x': Session,
                  o: Outcome)
    requires In(y, Ready(x, r, k, w), m, l, port) && Valid(o.engine) && Alone(o.engine, x', l) && o.completed == []
    requires Sends(x', m, l, port, if k + w == Packets(|m.data|) then WaitingForEndOfMsg else WaitingForCTS, k + w)
    requires var frames := Filter(o.frames, OfLink(l));
             |frames| == w && forall i :: 0 <= i < w ==> frames[i] == DataFrame(l, m.data, k + 1 + i)
    ensures In(Sender(y, o, l), Flowing(x', r, k + 1, k, k + w), m, l, port)
  {
  }

  /** What the receiver makes of data frame `j + 1`. */
  ghost predicate Takes(o: Outcome, r: Session, s: Session, m: Message, l: Link, port: byte, start: nat, j: nat,
                        hi: nat)
    requires 1 <= start <= j + 1 <= hi && |m.data| <= TP_MAX_DATA_LENGTH
  {
    var n := Packets(|m.data|);
    if j + 1 == n then
      && Absent(o.engine, l) && o.frames == [MakeEoma(l.destination, l.source, |m.data|, n % 256, m.pgn)]
      && o.completed == [s.(state := Complete)] && s.data == m.data && s.pgn == m.pgn && Between(s, l)
    else if j + 1 < hi then
      && Alone(o.engine, s, l) && o.frames == [] && o.completed == []
      && Receives(s, m, l, port, j + 1, start, hi + 1 - start)
    else
      var w := Min(n - hi, r.maxPerCts);
      && hi < n && 1 <= w && Alone(o.engine, s, l) && o.frames == [MakeCts(l.destination, l.source, w, hi + 1, m.pgn)]
      && o.completed == [] && Receives(s, m, l, port, hi, hi + 1, w)
  }

  lemma StoredPrefix(r: Session, m: Message, l: Link, port: byte, start: nat, j: nat, hi: nat)
    requires Sendable(m, l) && SessionOk(r) && 1 <= start <= j + 1 <= hi <= Packets(|m.data|)
    requires Receives(r, m, l, port, j, start, hi + 1 - start)
    ensures var s := Stored(r, DataFrame(l, m.data, j + 1).data);
            && s.lastSequence == j + 1 && |s.data| == |m.data|
            && (j + 1 < Packets(|m.data|) ==>
                  s.transferred < s.total && Receives(s, m, l, port, j + 1, start, hi + 1 - start))
            && (j + 1 == Packets(|m.data|) ==> s.transferred >= s.total && s.data == m.data)
  {
    IngestExtends(r.data, m.data, 7 * j, l.source, l.destination, j + 1);
    var s := Stored(r, DataFrame(l, m.data, j + 1).data);
    if j + 1 == Packets(|m.data|) {
      assert s.data == s.data[..|m.data|] && m.data == m.data[..|m.data|];
    }
  }

  lemma ReceiverTakes(e: Table, r: Session, m: Message, l: Link, port: byte, start: nat, j: nat, hi: nat)
      returns (s: Session)
    requires Sendable(m, l) && Alone(e, r, l) && 1 <= start <= j + 1 <= hi <= Packets(|m.data|)
    requires Receives(r, m, l, port, j, start, hi + 1 - start)
    ensures Takes(ProcessFrame(e, DataFrame(l, m.data, j + 1), port), r, s, m, l, port, start, j, hi)
  {
    assert SessionOk(r);
    var f := DataFrame(l, m.data, j + 1);
    Found(e, r, l, Collecting(l.source, l.destination, port));
    var i := Position(e.sessions, Collecting(l.source, l.destination, port)).value;
    StoredPrefix(r, m, l, port, start, j, hi);
    s := Stored(r, f.data);
    if j + 1 == Packets(|m.data|) {
      RemoveAlone(e, i, l);
    } else if j + 1 < hi {
      ReplaceAlone(e, i, s, l);
    } else {
      s := s.(windowStart := hi + 1, windowSize := Min(Packets(|m.data|) - hi, r.maxPerCts));
      ReplaceAlone(e, i, s, l);
    }
  }

  lemma DataArrives(y: Line, x: Session, r: Session, start: nat, j: nat, hi: nat, m: Message, l: Link, port: byte)
      returns (ph: Phase)
    requires In(y, Flowing(x, r, start, j, hi), m, l, port)
    ensures In(Step(y, ToReceiver, l, port), ph, m, l, port)
    ensures Rank(ph, Packets(|m.data|)) < Rank(Flowing(x, r, start, j, hi), Packets(|m.data|))
  {
    var f := y.toRx[0];
    assert f == DataFrame(l, m.data, j + 1);
    var s := ReceiverTakes(y.rx, r, m, l, port, start, j, hi);
    FrameKeepsValid(y.rx, f, port);
    ph := Taken(y, x, r, s, start, j, hi, m, l, port, ProcessFrame(y.rx, f, port));
  }

  lemma Taken(y: Line, x: Session, r: Session, s: Session, start: nat, j: nat, hi: nat, m: Message, l: Link, port: byte,
              o: Outcome) returns (ph: Phase)
    requires In(y, Flowing(x, r, start, j, hi), m, l, port) && Valid(o.engine)
             && Takes(o, r, s, m, l, port, start, j, hi)
    ensures In(Receiver(y.(toRx := y.toRx[1..]), o, l), ph, m, l, port)
    ensures Rank(ph, Packets(|m.data|)) < Rank(Flowing(x, r, start, j, hi), Packets(|m.data|))
  {
    var n := Packets(|m.data|);
    if j + 1 == n {
      LastTaken(y, x, r, s, start, j, hi, m, l, port, o);
      ph := Acking(x);
    } else if j + 1 < hi {
      ReceiverQuiet(y.(toRx := y.toRx[1..]), o, l);
      NextTaken(y, x, r, s, start, j, hi, m, l, port, o.engine);
      ph := Flowing(x, s, start, j + 1, hi);
    } else {
      Single(o.frames[0], OfLink(l));
      ph := Granting(x, s, hi, Min(n - hi, r.maxPerCts));
    }
  }

  lemma LastTaken(y: Line, x: Session, r: Session, s: Session, start: nat, j: nat, hi: nat, m: Message, l: Link,
                  port: byte, o: Outcome)
    requires In(y, Flowing(x, r, start, j, hi), m, l, port) && Valid(o.engine)
             && Takes(o, r, s, m, l, port, start, j, hi)
    requires j + 1 == Packets(|m.data|)
    ensures In(Receiver(y.(toRx := y.toRx[1..]), o, l), Acking(x), m, l, port)
  {
    Single(o.frames[0], OfLink(l));
    Single(s.(state := Complete), Ours(l));
  }

  lemma NextTaken(y: Line, x: Session, r: Session, s: Session, start: nat, j: nat, hi: nat, m: Message, l: Link,
                  port: byte, e: Table)
    requires In(y, Flowing(x, r, start, j, hi), m, l, port) && j + 1 < hi
    requires Alone(e, s, l) && Receives(s, m, l, port, j + 1, start, hi + 1 - start)
    ensures In(y.(toRx := y.toRx[1..], rx := e), Flowing(x, s, start, j + 1, hi), m, l, port)
  {
  }

  lemma AckArrives(y: Line, x: Session, m: Message, l: Link, port: byte)
    requires In(y, Acking(x), m, l, port)
    ensures In(Step(y, ToSender, l, port), Over, m, l, port)
  {
    var f := y.toTx[0];
    assert SessionOk(x);
    HeaderRoundTrip(m.pgn, |m.data|, l.destination, l.source, Packets(|m.data|));
    Found(y.tx, x, l, OnTransfer(Transmit, l.source, l.destination, port, m.pgn));
    var i := Position(y.tx.sessions, OnTransfer(Transmit, l.source, l.destination, port, m.pgn)).value;
    RemoveAlone(y.tx, i, l);
    var done := x.(state := Complete);
    assert ProcessFrame(y.tx, f, port) == Outcome(Remove(y.tx, i), [], [done]);
    Single(done, Ours(l));
  }

  // ----- every move

  lemma ProductiveMove(y: Line, ph: Phase, move: Move, m: Message, l: Link, port: byte) returns (ph': Phase)
    requires In(y, ph, m, l, port) && Allowed(y, move, l) && (move.ToReceiver? || move.ToSender?)
    ensures In(Step(y, move, l, port), ph', m, l, port) && Rank(ph', Packets(|m.data|)) < Rank(ph, Packets(|m.data|))
  {
    match ph {
      case Asked(x) => ph' := ReceiverOpens(y, x, m, l, port);
      case Granting(x, r, k, w) => ph' := SenderGranted(y, x, r, k, w, m, l, port);
      case Flowing(x, r, start, j, hi) => ph' := DataArrives(y, x, r, start, j, hi, m, l, port);
      case Acking(x) =>
        AckArrives(y, x, m, l, port);
        ph' := Over;
    }
  }

  lemma OlderSender(y: Line, ph: Phase, m: Message, l: Link, port: byte, e: Table, s: Session)
    requires In(y, ph, m, l, port) && !ph.Over? && Alone(e, s, l) && s == ph.x.(timer := s.timer)
    ensures In(y.(tx := e), ph.(x := s), m, l, port)
  {
  }

  lemma OlderReceiver(y: Line, ph: Phase, m: Message, l: Link, port: byte, e: Table, s: Session)
    requires In(y, ph, m, l, port) && (ph.Granting? || ph.Ready? || ph.Flowing?)
    requires Alone(e, s, l) && s == ph.r.(timer := s.timer)
    ensures In(y.(rx := e), ph.(r := s), m, l, port)
  {
  }

  lemma SenderIdles(y: Line, ph: Phase, op: Op, m: Message, l: Link, port: byte) returns (ph': Phase)
    requires In(y, ph, m, l, port) && Foreign(op, l) && Patient(y.tx, op, l) && (ph.Ready? ==> !op.DrainOp?)
    ensures In(Step(y, SenderDoes(op), l, port), ph', m, l, port)
            && Rank(ph', Packets(|m.data|)) == Rank(ph, Packets(|m.data|))
    ensures Filter(Apply(y.tx, op).frames, OfLink(l)) == []
  {
    ApplyKeepsValid(y.tx, op);
    var o := Apply(y.tx, op);
    if ph.Over? {
      TableIdles(y.tx, op, l);
      ph' := ph;
    } else {
      var x' := SessionIdles(y.tx, op, ph.x, l);
      OlderSender(y, ph, m, l, port, o.engine, x');
      ph' := ph.(x := x');
    }
    SenderQuiet(y, o, l);
  }

  lemma ReceiverIdles(y: Line, ph: Phase, op: Op, m: Message, l: Link, port: byte) returns (ph': Phase)
    requires In(y, ph, m, l, port) && Foreign(op, l) && Patient(y.rx, op, l) && LeavesSlot(y, op, l)
    ensures In(Step(y, ReceiverDoes(op), l, port), ph', m, l, port)
            && Rank(ph', Packets(|m.data|)) == Rank(ph, Packets(|m.data|))
  {
    ApplyKeepsValid(y.rx, op);
    var o := Apply(y.rx, op);
    if ph.Granting? || ph.Ready? || ph.Flowing? {
      var r' := SessionIdles(y.rx, op, ph.r, l);
      OlderReceiver(y, ph, m, l, port, o.engine, r');
      ph' := ph.(r := r');
    } else {
      TableIdles(y.rx, op, l);
      LimitsKept(y.rx, op);
      StillAbsent(y, ph, m, l, port, o.engine);
      ph' := ph;
    }
    ReceiverQuiet(y, o, l);
  }

  lemma StillAbsent(y: Line, ph: Phase, m: Message, l: Link, port: byte, e: Table)
    requires In(y, ph, m, l, port) && (ph.Asked? || ph.Acking? || ph.Over?) && Absent(e, l)
    requires e.maxSessions == y.rx.maxSessions && e.maxReceive == y.rx.maxReceive
    requires ph.Asked? ==> |e.sessions| < e.maxSessions
    ensures In(y.(rx := e), ph, m, l, port)
  {
  }

  lemma AnyMove(y: Line, ph: Phase, move: Move, m: Message, l: Link, port: byte) returns (ph': Phase)
    requires In(y, ph, m, l, port) && Allowed(y, move, l)
    ensures In(Step(y, move, l, port), ph', m, l, port)
    ensures Rank(ph', Packets(|m.data|)) + (if Productive(y, move, l) then 1 else 0) <= Rank(ph, Packets(|m.data|))
  {
    match move {
      case ToReceiver => ph' := ProductiveMove(y, ph, move, m, l, port);
      case ToSender => ph' := ProductiveMove(y, ph, move, m, l, port);
      case SenderDoes(op) =>
        if ph.Ready? && op.DrainOp? {
          ph' := SenderDrains(y, ph.x, ph.r, ph.k, ph.w, m, l, port);
        } else {
          ph' := SenderIdles(y, ph, op, m, l, port);
        }
      case ReceiverDoes(op) => ph' := ReceiverIdles(y, ph, op, m, l, port);
    }
  }

  // ----- every run

  function Moving(l: Link, port: byte): (Line, Move) -> Line {
    (y: Line, move: Move) => Step(y, move, l, port)
  }

  ghost function Allowing(l: Link): (Line, Move) -> bool {
    (y: Line, move: Move) => Allowed(y, move, l)
  }

  /** How many of the moves are productive. */
  function Work(y: Line, moves: seq<Move>, l: Link, port: byte): nat
    decreases |moves|
  {
    if moves == [] then 0
    else (if Productive(y, moves[0], l) then 1 else 0) + Work(Step(y, moves[0], l, port), moves[1..], l, port)
  }

  lemma {:induction false} RunProgresses(y: Line, ph: Phase, moves: seq<Move>, y': Line, m: Message, l: Link,
                                         port: byte)
      returns (ph': Phase)
    requires In(y, ph, m, l, port) && Chain(Allowing(l), Moving(l, port), y, moves, y')
    ensures In(y', ph', m, l, port)
    ensures Rank(ph', Packets(|m.data|)) + Work(y, moves, l, port) <= Rank(ph, Packets(|m.data|))
    decreases |moves|
  {
    if moves == [] {
      ph' := ph;
    } else {
      var ph1 := AnyMove(y, ph, moves[0], m, l, port);
      ph' := RunProgresses(Step(y, moves[0], l, port), ph1, moves[1..], y', m, l, port);
    }
  }

  /** Some move of the transfer is possible. */
  ghost predicate CanGoOn(y: Line, l: Link) {
    exists move :: Productive(y, move, l) && Allowed(y, move, l)
  }

  lemma GoesOnUntilDone(y: Line, ph: Phase, m: Message, l: Link, port: byte)
    requires In(y, ph, m, l, port)
    ensures Done(y, m, l) || CanGoOn(y, l)
  {
    match ph {
      case Asked(_) => assert Productive(y, ToReceiver, l);
      case Granting(_, _, _, _) => assert Productive(y, ToSender, l);
      case Ready(x, r, k, w) =>
        var _ := SenderDrains(y, x, r, k, w, m, l, port);
        assert Productive(y, SenderDoes(DrainOp), l);
      case Flowing(_, _, _, _, _) => assert Productive(y, ToReceiver, l);
      case Acking(_) => assert Productive(y, ToSender, l);
      case Over =>
    }
  }

  /** Nothing between these two nodes, and a slot free at each. */
  ghost predicate Clear(tx: Table, rx: Table, m: Message, l: Link) {
    && Absent(tx, l) && Absent(rx, l)
    && |tx.sessions| < tx.maxSessions && |rx.sessions| < rx.maxSessions && |m.data| <= rx.maxReceive
  }

  lemma SendIsAccepted(tx: Table, m: Message, l: Link, port: byte, priority: nat)
    requires Sendable(m, l) && Absent(tx, l) && |tx.sessions| < tx.maxSessions
    ensures var sent := Send(tx, m.pgn, m.data, l.source, l.destination, port, priority);
            sent.Sent? && Valid(sent.engine)
  {
    NotFound(tx, l, OnPath(Transmit, l.source, l.destination, port));
    SendKeepsValid(tx, m.pgn, m.data, l.source, l.destination, port, priority);
  }

  /** The line right after `send`. */
  ghost function Opened(tx: Table, rx: Table, m: Message, l: Link, port: byte, priority: nat): Line
    requires Sendable(m, l) && Clear(tx, rx, m, l)
  {
    SendIsAccepted(tx, m, l, port, priority);
    var sent := Send(tx, m.pgn, m.data, l.source, l.destination, port, priority);
    Line(sent.engine, rx, sent.frames, [], [], [])
  }

  // MAIN RESULT. Any two engines with nothing between these two nodes and a slot free at each; any payload the
  // sender accepts; any order of deliveries and drains, with time passing at each node as it likes below the
  // time limits, and any other traffic at both. Of the moves that belong to the transfer there are at most three
  // a packet and two more, and until the message is handed up once, acknowledged once and everything cleared
  // away, there is always one to make.
  lemma TransferCompletes(tx: Table, rx: Table, m: Message, l: Link, port: byte, priority: nat, moves: seq<Move>,
                          y: Line)
    requires Sendable(m, l) && Clear(tx, rx, m, l)
    requires Chain(Allowing(l), Moving(l, port), Opened(tx, rx, m, l, port, priority), moves, y)
    ensures Work(Opened(tx, rx, m, l, port, priority), moves, l, port) <= 3 * Packets(|m.data|) + 2
    ensures Done(y, m, l) || CanGoOn(y, l)
  {
    SendIsAccepted(tx, m, l, port, priority);
    var x := NewTransmit(m.pgn, m.data, l.source, l.destination, port, priority, tx.advertised);
    AppendAlone(tx, x, l);
    var start := Opened(tx, rx, m, l, port, priority);
    assert In(start, Asked(x), m, l, port);
    var ph := RunProgresses(start, Asked(x), moves, y, m, l, port);
    GoesOnUntilDone(y, ph, m, l, port);
  }
}
