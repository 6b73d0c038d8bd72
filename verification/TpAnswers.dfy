/**
 What each frame of ISO 11783-3 does to a session table, and what is sent in answer, written out in bytes and numbers:
 who is concerned, which of them is taken, what becomes of it, and that all the others stay as they are.
 */
module TpAnswers {
  import opened Can
  import opened Seqs
  import TpWire
  import opened TpEngine
  import opened TpSafety

  // ----- frames, byte by byte

  function Control(us: byte, them: byte, b0: byte, b1: byte, b2: byte, b3: byte, b4: byte, g: nat): Frame {
    Frame(0xEC00, us, them, 7, [b0, b1, b2, b3, b4, g % 256, g / 256 % 256, g / 65536 % 256], 8)
  }

  function Abort(us: byte, them: byte, reason: byte, g: nat): Frame {
    Control(us, them, 0xFF, reason, 0xFF, 0xFF, 0xFF, g)
  }

  function Clear(us: byte, them: byte, count: byte, next: byte, g: nat): Frame {
    Control(us, them, 0x11, count, next, 0xFF, 0xFF, g)
  }

  predicate Addressed(f: Frame) {
    f.length >= 8 && f.source != 0xFE && f.source != 0xFF && f.destination != 0xFE
  }

  function Subject(f: Frame): nat {
    f.data[5] as int + 256 * (f.data[6] as int) + 65536 * (f.data[7] as int)
  }

  function Size(f: Frame): nat {
    f.data[1] as int + 256 * (f.data[2] as int)
  }

  /** A connection management frame that is looked at: well addressed, naming a PGN, and not sent to everybody. */
  predicate Managing(f: Frame, control: byte) {
    f.pgn == 0xEC00 && Addressed(f) && f.destination != 0xFF && f.data[0] == control && Subject(f) <= 0x3FFFF
  }

  // ----- which session

  function Incoming(f: Frame, port: byte): Session -> bool {
    (s: Session) => s.direction == Receive && s.source == f.source && s.destination == f.destination && s.port == port
  }

  function Outgoing(f: Frame, port: byte): Session -> bool {
    (s: Session) =>
      && s.direction == Transmit && s.source == f.destination && s.destination == f.source && s.port == port
      && s.pgn == Subject(f)
  }

  function Either(f: Frame, port: byte): Session -> bool {
    (s: Session) =>
      && s.pgn == Subject(f) && s.port == port
      && ((s.source == f.source && s.destination == f.destination)
          || (s.source == f.destination && s.destination == f.source))
  }

  ghost predicate Nobody(ss: seq<Session>, p: Session -> bool) {
    forall k :: 0 <= k < |ss| ==> !p(ss[k])
  }

  ghost predicate FirstAt(ss: seq<Session>, k: nat, p: Session -> bool) {
    k < |ss| && p(ss[k]) && forall j :: 0 <= j < k ==> !p(ss[j])
  }

  /** Exactly one session is gone, and the rest are those that were there before. */
  ghost predicate Loses(e: Engine, e': Engine, k: nat)
    requires k < |e.sessions|
  {
    e' == e.(sessions := e'.sessions) && multiset(e'.sessions) == multiset(e.sessions) - multiset{e.sessions[k]}
  }

  lemma RemoveLoses(e: Engine, k: nat)
    requires k < |e.sessions|
    ensures Loses(e, Remove(e, k), k)
  {
    SwapRemoveContents(e.sessions, k);
  }

  lemma RemoveIsLoss(e: Engine, k: nat, e': Engine)
    requires k < |e.sessions| && e' == Remove(e, k)
    ensures Loses(e, e', k)
  {
    RemoveLoses(e, k);
  }

  // ----- abort

  /** Nothing is sent, nothing completes, and the first session concerned goes, if there is one. */
  ghost predicate EndsFirst(e: Engine, o: Outcome, p: Session -> bool) {
    && o.frames == [] && o.completed == []
    && if Nobody(e.sessions, p) then o.engine == e
       else exists k: nat :: FirstAt(e.sessions, k, p) && Loses(e, o.engine, k)
  }

  lemma Dispatched(e: Engine, f: Frame, port: byte)
    requires Valid(e) && f.pgn == 0xEC00 && Addressed(f) && f.destination != 0xFF && Subject(f) <= 0x3FFFF
    ensures f.data[0] == 0xFF ==> ProcessFrame(e, f, port) == HandleAbort(e, f, port, Subject(f))
    ensures f.data[0] == 0x10 ==> ProcessFrame(e, f, port) == HandleRts(e, f, port, Subject(f))
    ensures f.data[0] == 0x11 ==> ProcessFrame(e, f, port) == HandleCts(e, f, port, Subject(f))
    ensures f.data[0] == 0x13 ==> ProcessFrame(e, f, port) == HandleEoma(e, f, port, Subject(f))
  {
  }

  lemma HandleAbortEndsFirst(e: Engine, f: Frame, port: byte)
    ensures EndsFirst(e, HandleAbort(e, f, port, Subject(f)), Either(f, port))
  {
    var p := Position(e.sessions, BetweenEither(f.source, f.destination, port, Subject(f)));
    if p.Some? {
      assert FirstAt(e.sessions, p.value, Either(f, port));
      RemoveLoses(e, p.value);
    }
  }

  lemma AbortEndsFirst(e: Engine, f: Frame, port: byte)
    requires Valid(e) && Managing(f, 0xFF)
    ensures EndsFirst(e, ProcessFrame(e, f, port), Either(f, port))
  {
    Dispatched(e, f, port);
    HandleAbortEndsFirst(e, f, port);
  }

  // ----- end of message acknowledgement

  /** It ends the transfer if everything has been sent and both size and packet count are right, and not otherwise. */
  ghost predicate Acknowledged(e: Engine, o: Outcome, k: nat, f: Frame)
    requires k < |e.sessions|
  {
    var s := e.sessions[k];
    && o.frames == []
    && if s.state == WaitingForEndOfMsg && Size(f) == s.total && f.data[3] == (s.total + 6) / 7
       then Loses(e, o.engine, k) && o.completed == [s.(state := Complete)]
       else o.engine == e && o.completed == []
  }

  lemma EomaAnswered(e: Engine, f: Frame, port: byte)
    requires Valid(e) && Managing(f, 0x13)
    ensures var o := ProcessFrame(e, f, port);
            if Nobody(e.sessions, Outgoing(f, port)) then o == Outcome(e, [], [])
            else exists k: nat :: FirstAt(e.sessions, k, Outgoing(f, port)) && Acknowledged(e, o, k, f)
  {
    Dispatched(e, f, port);
    var at := Position(e.sessions, OnTransfer(Transmit, f.destination, f.source, port, Subject(f)));
    if at.Some? {
      assert FirstAt(e.sessions, at.value, Outgoing(f, port));
      EomaAcknowledged(e, f, port, at.value, HandleEoma(e, f, port, Subject(f)));
    }
  }

  lemma EomaAcknowledged(e: Engine, f: Frame, port: byte, k: nat, o: Outcome)
    requires Valid(e) && o == HandleEoma(e, f, port, Subject(f))
    requires Position(e.sessions, OnTransfer(Transmit, f.destination, f.source, port, Subject(f))) == Some(k)
    ensures k < |e.sessions| && Acknowledged(e, o, k, f)
  {
    FewPackets(e, k);
    if o.completed != [] {
      RemoveIsLoss(e, k, o.engine);
    }
  }

  lemma FewPackets(e: Engine, k: nat)
    requires Valid(e) && k < |e.sessions|
    ensures (e.sessions[k].total + 6) / 7 <= 255
  {
    assert SessionOk(e.sessions[k]);
  }

  // ----- clear to send

  function Least(a: int, b: int, c: int): int {
    if a <= b && a <= c then a else if b <= c then b else c
  }

  /** A sender told to hold, to send, to send again, or something it cannot do. */
  ghost predicate Judged(s: Session, v: CtsVerdict, count: byte, next: byte, limit: byte)
    requires TransmitOk(s)
  {
    var packets := (s.total + 6) / 7;
    var window := Least(count, packets - next + 1, 16);
    var tries := if s.retransmits == 255 then 255 else s.retransmits + 1;
    if s.state == SendingData then
      if count != 0 && 1 <= next <= packets && next == Min(s.lastSequence + 1, 255) && window == s.packetsToSend
      then v == Granted(s.(timer := 0))
      else v.Denied? && v.reason.Code() == 4
    else if count == 0 then v == Granted(s.(timer := 0))
    else if !(1 <= next <= packets) then v.Denied? && v.reason.Code() == 7
    else if next <= s.lastSequence && tries > limit then v.Denied? && v.reason.Code() == 5
    else
      v == Granted(s.(state := SendingData, packetsToSend := window, transferred := 7 * (next - 1),
                      lastSequence := next - 1, retransmits := if next <= s.lastSequence then tries else 0, timer := 0))
  }

  lemma SentSoFar(s: Session)
    requires TransmitOk(s)
    ensures (s.transferred + 6) / 7 == s.lastSequence
  {
  }

  lemma CtsJudged(s: Session, count: byte, next: byte, limit: byte)
    requires s.direction == Transmit && SessionOk(s)
    ensures Judged(s, OnCts(s, count, next, limit), count, next, limit)
  {
    SentSoFar(s);
  }

  /** The session becomes `s'` and nothing is sent; or it goes and the receiver is told why. */
  ghost predicate Cleared(e: Engine, o: Outcome, k: nat, v: CtsVerdict)
    requires k < |e.sessions|
  {
    var s := e.sessions[k];
    match v
    case Granted(s') => o == Outcome(e.(sessions := e.sessions[k := s']), [], [])
    case Denied(reason) =>
      Loses(e, o.engine, k) && o.completed == [] && o.frames == [Abort(s.source, s.destination, reason.Code(), s.pgn)]
  }

  ghost predicate ClearedAt(e: Engine, o: Outcome, k: nat, count: byte, next: byte) {
    && k < |e.sessions| && TransmitOk(e.sessions[k])
    && exists v :: Judged(e.sessions[k], v, count, next, e.maxRetransmits) && Cleared(e, o, k, v)
  }

  lemma CtsAnswered(e: Engine, f: Frame, port: byte)
    requires Valid(e) && Managing(f, 0x11)
    ensures var o := ProcessFrame(e, f, port);
            if Nobody(e.sessions, Outgoing(f, port)) then o == Outcome(e, [], [])
            else exists k: nat ::
                   FirstAt(e.sessions, k, Outgoing(f, port)) && ClearedAt(e, o, k, f.data[1], f.data[2])
  {
    Dispatched(e, f, port);
    var at := Position(e.sessions, Awaiting(f.destination, f.source, port, Subject(f)));
    forall k | 0 <= k < |e.sessions|
      ensures Awaiting(f.destination, f.source, port, Subject(f))(e.sessions[k]) == Outgoing(f, port)(e.sessions[k])
    {
      assert SessionOk(e.sessions[k]);
    }
    if at.Some? {
      assert FirstAt(e.sessions, at.value, Outgoing(f, port));
      CtsCleared(e, f, port, at.value, HandleCts(e, f, port, Subject(f)));
    }
  }

  lemma CtsCleared(e: Engine, f: Frame, port: byte, k: nat, o: Outcome)
    requires Valid(e) && o == HandleCts(e, f, port, Subject(f))
    requires Position(e.sessions, Awaiting(f.destination, f.source, port, Subject(f))) == Some(k)
    ensures ClearedAt(e, o, k, f.data[1], f.data[2])
  {
    var s := e.sessions[k];
    assert Awaiting(f.destination, f.source, port, Subject(f))(s) && SessionOk(s);
    CtsJudged(s, f.data[1], f.data[2], e.maxRetransmits);
    CtsCarriedOut(e, k, OnCts(s, f.data[1], f.data[2], e.maxRetransmits), o);
  }

  lemma CtsCarriedOut(e: Engine, k: nat, v: CtsVerdict, o: Outcome)
    requires k < |e.sessions| && e.sessions[k].direction == Transmit
    requires match v
             case Granted(s') => o == Idle(e.(sessions := e.sessions[k := s']))
             case Denied(reason) => o == Outcome(Remove(e, k), [SessionAbort(e.sessions[k], reason)], [])
    ensures Cleared(e, o, k, v)
  {
    RemoveLoses(e, k);
  }

  // ----- request to send and broadcast announcement

  predicate WellShaped(n: nat, packets: byte) {
    9 <= n <= 1785 && packets == (n + 6) / 7
  }

  /** A session that has heard nothing yet of a message of `n` bytes. */
  predicate IsOpened(s: Session, f: Frame, port: byte, n: nat, perCts: byte, window: byte) {
    && |s.data| == n
    && s == Session(Receive, if f.destination == 0xFF then ReceivingData else WaitingForData, Subject(f), s.data, n, 0,
                    f.source, f.destination, port, f.priority, 0, 0, 16, perCts, 1, window, 0, 0)
  }

  /** The table without the first session concerned, if there is one. */
  ghost predicate Cleaned(e: Engine, e': Engine, p: Session -> bool) {
    if Nobody(e.sessions, p) then e' == e else exists k: nat :: FirstAt(e.sessions, k, p) && Loses(e, e', k)
  }

  ghost predicate Gains(e: Engine, e': Engine, s: Session) {
    e' == e.(sessions := e.sessions + [s])
  }

  /** There is room: a receiver says how many packets may come; there is none: it says so. */
  ghost predicate OpensOrNot(e: Engine, o: Outcome, f: Frame, port: byte) {
    var n, packets, perCts := Size(f), f.data[3], Min(f.data[4], 16);
    && o.completed == []
    && if |e.sessions| >= e.maxSessions || n > e.maxReceive
       then o.engine == e && o.frames == [Abort(f.destination, f.source, 2, Subject(f))]
       else
         && o.frames == [Clear(f.destination, f.source, Min(packets, perCts), 1, Subject(f))]
         && exists s :: IsOpened(s, f, port, n, perCts, Min(packets, perCts)) && Gains(e, o.engine, s)
  }

  ghost predicate Requested(e: Engine, o: Outcome, f: Frame, port: byte) {
    if !WellShaped(Size(f), f.data[3]) || f.data[4] == 0 then
      o == Outcome(e, [Abort(f.destination, f.source, 9, Subject(f))], [])
    else if exists s :: s in e.sessions && Incoming(f, port)(s) && s.pgn != Subject(f) then
      o == Outcome(e, [Abort(f.destination, f.source, 1, Subject(f))], [])
    else
      exists e' :: Cleaned(e, e', Incoming(f, port)) && OpensOrNot(e', o, f, port)
  }

  lemma OneIncoming(e: Engine, f: Frame, port: byte, i: nat, j: nat)
    requires Valid(e) && f.destination != 0xFF && i < |e.sessions| && j < |e.sessions|
    requires Incoming(f, port)(e.sessions[i]) && Incoming(f, port)(e.sessions[j])
    ensures i == j
  {
    assert i < j ==> !Clash(e.sessions[i], e.sessions[j]);
    assert j < i ==> !Clash(e.sessions[j], e.sessions[i]);
  }

  lemma RtsAnswered(e: Engine, f: Frame, port: byte)
    requires Valid(e) && Managing(f, 0x10)
    ensures Requested(e, ProcessFrame(e, f, port), f, port)
  {
    Dispatched(e, f, port);
    if WellShaped(Size(f), f.data[3]) && f.data[4] != 0 {
      RtsRequested(e, f, port, HandleRts(e, f, port, Subject(f)));
    }
  }

  lemma RtsRequested(e: Engine, f: Frame, port: byte, o: Outcome)
    requires Valid(e) && f.destination != 0xFF && WellShaped(Size(f), f.data[3]) && f.data[4] != 0
    requires o == HandleRts(e, f, port, Subject(f))
    ensures Requested(e, o, f, port)
  {
    var same := Position(e.sessions, OnTransfer(Receive, f.source, f.destination, port, Subject(f)));
    var path := Position(e.sessions, OnPath(Receive, f.source, f.destination, port));
    var p := Incoming(f, port);
    if same.Some? {
      var k := same.value;
      forall i | 0 <= i < |e.sessions| && p(e.sessions[i])
        ensures i == k
      {
        OneIncoming(e, f, port, i, k);
      }
      assert FirstAt(e.sessions, k, p);
      RemoveLoses(e, k);
      assert Cleaned(e, Remove(e, k), p);
      RtsOpens(Remove(e, k), f, port, o);
    } else if path.Some? {
      assert e.sessions[path.value] in e.sessions && p(e.sessions[path.value]);
    } else {
      assert Nobody(e.sessions, p);
      RtsOpens(e, f, port, o);
    }
  }

  lemma RtsOpens(e': Engine, f: Frame, port: byte, o: Outcome)
    requires WellShaped(Size(f), f.data[3]) && f.data[4] != 0
    requires var perCts := Min(f.data[4], 16); var window := Min(f.data[3], perCts);
             o == (if |e'.sessions| >= e'.maxSessions || Size(f) > e'.maxReceive
                   then Refuse(e', f, Subject(f), TpWire.ResourcesUnavailable)
                   else Outcome(e'.(sessions := e'.sessions
                                    + [NewReceive(f, port, Subject(f), Size(f), perCts, window)]),
                                [TpWire.MakeCts(f.destination, f.source, window, 1, Subject(f))], []))
    ensures OpensOrNot(e', o, f, port)
  {
    var perCts := Min(f.data[4], 16);
    var s := NewReceive(f, port, Subject(f), Size(f), perCts, Min(f.data[3], perCts));
    assert IsOpened(s, f, port, Size(f), perCts, Min(f.data[3], perCts));
  }

  // ----- broadcast announcement

  function Announcing(f: Frame, port: byte): Session -> bool {
    (s: Session) =>
      && s.direction == Receive && s.source == f.source && s.destination == 0xFF && s.port == port
      && s.pgn == Subject(f)
  }

  /** A listener starts over or not at all, and never answers. */
  ghost predicate Announced(e: Engine, o: Outcome, f: Frame, port: byte) {
    && o.frames == [] && o.completed == []
    && exists e' :: Cleaned(e, e', Announcing(f, port)) && ListensOrNot(e', o.engine, f, port)
  }

  ghost predicate ListensOrNot(e: Engine, e': Engine, f: Frame, port: byte) {
    if f.destination == 0xFF && WellShaped(Size(f), f.data[3]) && Size(f) <= e.maxReceive
       && |e.sessions| < e.maxSessions
    then exists s :: IsOpened(s, f, port, Size(f), 16, 0) && Gains(e, e', s)
    else e' == e
  }

  lemma BamAnswered(e: Engine, f: Frame, port: byte)
    requires Valid(e) && f.pgn == 0xEC00 && Addressed(f) && f.data[0] == 0x20 && Subject(f) <= 0x3FFFF
    ensures Announced(e, ProcessFrame(e, f, port), f, port)
  {
    assert ProcessFrame(e, f, port) == HandleBam(e, f, port, Subject(f));
    BamAnnounced(e, f, port, HandleBam(e, f, port, Subject(f)));
  }

  lemma BamAnnounced(e: Engine, f: Frame, port: byte, o: Outcome)
    requires o == HandleBam(e, f, port, Subject(f))
    ensures Announced(e, o, f, port)
  {
    var at := Position(e.sessions, OnTransfer(Receive, f.source, 0xFF, port, Subject(f)));
    var e' := if at.Some? then Remove(e, at.value) else e;
    if at.Some? {
      assert FirstAt(e.sessions, at.value, Announcing(f, port));
      RemoveLoses(e, at.value);
    }
    assert Cleaned(e, e', Announcing(f, port));
    BamListens(e', f, port, o);
  }

  lemma BamListens(e': Engine, f: Frame, port: byte, o: Outcome)
    requires o == if f.destination != 0xFF || !TpWire.PayloadShape(Size(f), f.data[3]) || Size(f) > e'.maxReceive
                     || |e'.sessions| >= e'.maxSessions
                  then Idle(e')
                  else Idle(e'.(sessions := e'.sessions + [NewReceive(f, port, Subject(f), Size(f), 16, 0)]))
    ensures ListensOrNot(e', o.engine, f, port)
  {
    var s := NewReceive(f, port, Subject(f), Size(f), 16, 0);
    if f.destination == 0xFF {
      assert IsOpened(s, f, port, Size(f), 16, 0);
    }
  }

  // ----- data

  /** The seven bytes of packet `q` are at their place and nothing else has changed. */
  ghost predicate Took(s: Session, data: seq<byte>, f: Frame) {
    && |data| == |s.data|
    && forall i :: 0 <= i < |data| ==>
         data[i] == if 7 * s.lastSequence <= i < 7 * s.lastSequence + 7
                    then f.data[i - 7 * s.lastSequence + 1] else s.data[i]
  }

  /** A packet out of turn: the session goes, and a sender that can be told is told why. */
  ghost predicate OutOfTurn(e: Engine, o: Outcome, k: nat, q: byte)
    requires k < |e.sessions|
  {
    var s := e.sessions[k];
    var reason := if 1 <= q <= s.lastSequence then 8 else 7;
    && Loses(e, o.engine, k) && o.completed == []
    && o.frames == if s.destination == 0xFF then [] else [Abort(s.destination, s.source, reason, s.pgn)]
  }

  /** The last packet: the message is handed up and a sender that waits for it gets its acknowledgement. */
  ghost predicate Finishes(e: Engine, o: Outcome, k: nat, data: seq<byte>)
    requires k < |e.sessions|
  {
    var s := e.sessions[k];
    var packets := (s.total + 6) / 7;
    && Loses(e, o.engine, k)
    && packets <= 255
    && o.completed == [s.(state := Complete, data := data, transferred := s.total, lastSequence := packets, timer := 0)]
    && o.frames == if s.destination == 0xFF then []
                   else [Control(s.destination, s.source, 0x13, s.total % 256, s.total / 256 % 256, packets, 0xFF,
                                 s.pgn)]
  }

  /** Any other packet in turn; when it closes a window the next one is opened. */
  ghost predicate GoesOn(e: Engine, o: Outcome, k: nat, q: byte, data: seq<byte>)
    requires k < |e.sessions| && q < 255
  {
    var s := e.sessions[k];
    var window := Min((s.total + 6) / 7 - q, s.maxPerCts);
    var s' := s.(data := data, transferred := 7 * q, lastSequence := q, timer := 0);
    && 0 <= window <= 255
    && o == if s.destination == 0xFF || q + 1 < s.windowStart + s.windowSize
            then Outcome(e.(sessions := e.sessions[k := s']), [], [])
            else Outcome(e.(sessions := e.sessions[k := s'.(windowStart := q + 1, windowSize := window)]),
                         [Clear(s.destination, s.source, window, q + 1, s.pgn)], [])
  }

  ghost predicate Carried(e: Engine, o: Outcome, k: nat, f: Frame) {
    && k < |e.sessions|
    && var s, q := e.sessions[k], f.data[0];
       if q != s.lastSequence + 1 then OutOfTurn(e, o, k, q)
       else if q == (s.total + 6) / 7 then exists data :: Took(s, data, f) && Finishes(e, o, k, data)
       else q < 255 && exists data :: Took(s, data, f) && GoesOn(e, o, k, q, data)
  }

  lemma DtAnswered(e: Engine, f: Frame, port: byte)
    requires Valid(e) && f.pgn == 0xEB00 && Addressed(f)
    ensures var o := ProcessFrame(e, f, port);
            if Nobody(e.sessions, Incoming(f, port)) then o == Outcome(e, [], [])
            else exists k: nat :: FirstAt(e.sessions, k, Incoming(f, port)) && Carried(e, o, k, f)
  {
    assert ProcessFrame(e, f, port) == HandleDt(e, f, port);
    var at := Position(e.sessions, Collecting(f.source, f.destination, port));
    forall k | 0 <= k < |e.sessions|
      ensures Collecting(f.source, f.destination, port)(e.sessions[k]) == Incoming(f, port)(e.sessions[k])
    {
      assert SessionOk(e.sessions[k]);
    }
    if at.Some? {
      assert FirstAt(e.sessions, at.value, Incoming(f, port));
      DtCarried(e, f, port, at.value, HandleDt(e, f, port));
    }
  }

  lemma DtCarried(e: Engine, f: Frame, port: byte, k: nat, o: Outcome)
    requires Valid(e) && o == HandleDt(e, f, port)
    requires Position(e.sessions, Collecting(f.source, f.destination, port)) == Some(k)
    ensures Carried(e, o, k, f)
  {
    var s, q := e.sessions[k], f.data[0];
    assert Collecting(f.source, f.destination, port)(s) && SessionOk(s);
    if q != s.lastSequence + 1 {
      DtOutOfTurn(e, f, port, k, o);
    } else if q == (s.total + 6) / 7 {
      DtFinishes(e, f, port, k, o);
    } else {
      DtGoesOn(e, f, port, k, o);
    }
  }

  lemma DtOutOfTurn(e: Engine, f: Frame, port: byte, k: nat, o: Outcome)
    requires Valid(e) && o == HandleDt(e, f, port)
    requires Position(e.sessions, Collecting(f.source, f.destination, port)) == Some(k)
    requires f.data[0] != e.sessions[k].lastSequence + 1
    ensures OutOfTurn(e, o, k, f.data[0])
  {
    assert o.engine == Remove(e, k);
    RemoveIsLoss(e, k, o.engine);
  }

  lemma InTurn(s: Session, f: Frame, data: seq<byte>)
    requires s.direction == Receive && SessionOk(s) && f.data[0] == s.lastSequence + 1
    requires data == TpWire.Ingest(s.data, 7 * s.lastSequence, f.data)
    ensures Took(s, data, f)
    ensures Stored(s, f.data) == s.(data := data, transferred := Min(7 * (f.data[0] as int), s.total),
                                    lastSequence := f.data[0], timer := 0)
    ensures 7 * (f.data[0] as int) >= s.total <==> f.data[0] == (s.total + 6) / 7
    ensures (s.total + 6) / 7 <= 255
  {
  }

  lemma DtFinishes(e: Engine, f: Frame, port: byte, k: nat, o: Outcome)
    requires Valid(e) && o == HandleDt(e, f, port)
    requires Position(e.sessions, Collecting(f.source, f.destination, port)) == Some(k)
    requires e.sessions[k].direction == Receive && SessionOk(e.sessions[k])
    requires f.data[0] == e.sessions[k].lastSequence + 1 && f.data[0] == (e.sessions[k].total + 6) / 7
    ensures exists data :: Took(e.sessions[k], data, f) && Finishes(e, o, k, data)
  {
    var s := e.sessions[k];
    var data := TpWire.Ingest(s.data, 7 * s.lastSequence, f.data);
    InTurn(s, f, data);
    assert o.engine == Remove(e, k);
    RemoveIsLoss(e, k, o.engine);
    assert Finishes(e, o, k, data);
  }

  lemma DtGoesOn(e: Engine, f: Frame, port: byte, k: nat, o: Outcome)
    requires Valid(e) && o == HandleDt(e, f, port)
    requires Position(e.sessions, Collecting(f.source, f.destination, port)) == Some(k)
    requires e.sessions[k].direction == Receive && SessionOk(e.sessions[k])
    requires f.data[0] == e.sessions[k].lastSequence + 1 && f.data[0] != (e.sessions[k].total + 6) / 7
    ensures f.data[0] < 255 && exists data :: Took(e.sessions[k], data, f) && GoesOn(e, o, k, f.data[0], data)
  {
    var s := e.sessions[k];
    var data := TpWire.Ingest(s.data, 7 * s.lastSequence, f.data);
    InTurn(s, f, data);
    assert GoesOn(e, o, k, f.data[0], data);
  }

  // ----- sending data

  /** Data frame `q` of a message: its number and seven bytes, filled up with 0xFF after the end. */
  predicate IsPacket(f: Frame, s: Session, q: nat) {
    && 1 <= q <= 255
    && f == Frame(0xEB00, s.source, s.destination, 7, f.data, 8) && f.data[0] == q
    && forall k :: 1 <= k < 8 ==> f.data[k] == if 7 * q - 8 + k < |s.data| then s.data[7 * q - 8 + k] else 0xFF
  }

  // A sender that has been cleared sends the packets it was cleared for, in order, and waits for the next word.
  lemma WindowSent(s: Session)
    requires SessionOk(s)
    ensures var (s', frames) := DrainSession(s);
            if s.direction == Transmit && s.destination != 0xFF && s.state == SendingData then
              && |frames| == Min(s.packetsToSend, (s.total + 6) / 7 - s.lastSequence)
              && (forall i :: 0 <= i < |frames| ==> IsPacket(frames[i], s, s.lastSequence + 1 + i))
              && s.lastSequence + |frames| <= 255
              && s' == s.(lastSequence := s.lastSequence + |frames|, timer := 0, transferred := s'.transferred,
                          state := if s.lastSequence + |frames| == (s.total + 6) / 7 then WaitingForEndOfMsg
                                   else WaitingForCTS)
            else s' == s && frames == []
  {
    if s.direction == Transmit && s.destination != 0xFF && s.state == SendingData {
      GenerateFacts(s, s.packetsToSend);
      var frames := DrainSession(s).1;
      forall i | 0 <= i < |frames|
        ensures IsPacket(frames[i], s, s.lastSequence + 1 + i)
      {
        PacketBytes(s, s.lastSequence + 1 + i);
      }
    }
  }

  lemma PacketBytes(s: Session, q: nat)
    requires 1 <= q <= 255
    ensures IsPacket(TpWire.MakeDt(s.source, s.destination, q, s.data, 7 * (q - 1)), s, q)
  {
    var d := TpWire.MakeDt(s.source, s.destination, q, s.data, 7 * (q - 1)).data;
    forall k | 1 <= k < 8
      ensures d[k] == if 7 * q - 8 + k < |s.data| then s.data[7 * q - 8 + k] else 0xFF
    {
      assert d[k] == TpWire.StreamByte(s.data, 7 * (q - 1) + (k - 1));
    }
  }

  lemma DrainOne(s: Session)
    ensures DrainAll([s]) == ([DrainSession(s).0], DrainSession(s).1)
  {
    var rest: seq<Session> := [s][1..];
    assert rest == [];
    assert DrainAll(rest) == ([], []);
    assert [DrainSession(s).0] + [] == [DrainSession(s).0] && DrainSession(s).1 + [] == DrainSession(s).1;
  }

  // Every session is served, each in its turn.
  lemma {:induction false} DrainsInTurn(a: seq<Session>, b: seq<Session>)
    ensures DrainAll(a + b) == (DrainAll(a).0 + DrainAll(b).0, DrainAll(a).1 + DrainAll(b).1)
  {
    var (sb, fb) := DrainAll(b);
    if a == [] {
      assert a + b == b;
      assert [] + sb == sb && [] + fb == fb;
    } else {
      assert (a + b)[1..] == a[1..] + b;
      DrainsInTurn(a[1..], b);
      var (s', frames) := DrainSession(a[0]);
      var (rest, more) := DrainAll(a[1..]);
      assert [s'] + (rest + sb) == ([s'] + rest) + sb && frames + (more + fb) == (frames + more) + fb;
    }
  }

  // ----- starting a transfer

  ghost predicate Started(e: Engine, e': Engine, frames: seq<Frame>, g: nat, data: seq<byte>, src: byte, dst: byte,
                          port: byte, priority: nat) {
    var n := |data|;
    var packets := (n + 6) / 7;
    && packets <= 255
    && Gains(e, e', Session(Transmit, if dst == 0xFF then SendingData else WaitingForCTS, g, data, n, 0, src, dst, port,
                            priority, 0, 0, e.advertised, 16, 1, 0, 0, 0))
    && frames == [if dst == 0xFF then Control(src, 0xFF, 0x20, n % 256, n / 256 % 256, packets, 0xFF, g)
                  else Control(src, dst, 0x10, n % 256, n / 256 % 256, packets, e.advertised, g)]
  }

  lemma SendAnswered(e: Engine, g: nat, data: seq<byte>, src: byte, dst: byte, port: byte, priority: nat)
    requires Valid(e)
    ensures var r := Send(e, g, data, src, dst, port, priority);
            if g > 0x3FFFF then r == Rejected(InvalidData)
            else if src in {0xFE, 0xFF} || dst == 0xFE then r == Rejected(InvalidAddress)
            else if |data| > 1785 then r == Rejected(BufferOverflow)
            else if |data| < 9 then r == Rejected(InvalidState)
            else if exists s :: s in e.sessions && s.direction == Transmit && s.source == src && s.destination == dst
                                && s.port == port
            then r == Rejected(SessionExists)
            else if |e.sessions| >= e.maxSessions then r == Rejected(NoResources)
            else r.Sent? && Started(e, r.engine, r.frames, g, data, src, dst, port, priority)
  {
    var at := Position(e.sessions, OnPath(Transmit, src, dst, port));
    if at.Some? {
      assert e.sessions[at.value] in e.sessions;
    }
  }

  lemma FreshLimits(maxReceive: nat, maxSessions: nat, maxRetransmits: byte, advertised: byte)
    ensures var e := Fresh(maxReceive, maxSessions, maxRetransmits, advertised);
            && Valid(e) && e.sessions == [] && e.maxSessions == maxSessions && e.maxRetransmits == maxRetransmits
            && (maxReceive <= 1785 ==> e.maxReceive == maxReceive) && (maxReceive > 1785 ==> e.maxReceive == 1785)
            && (1 <= advertised <= 16 ==> e.advertised == advertised)
            && (advertised == 0 ==> e.advertised == 1) && (advertised > 16 ==> e.advertised == 16)
  {
  }

  // ----- everything else

  lemma Unheeded(e: Engine, f: Frame, port: byte)
    requires Valid(e)
    requires
      || f.pgn !in {0xEC00, 0xEB00}
      || !Addressed(f)
      || (f.pgn == 0xEC00 && (Subject(f) > 0x3FFFF || f.data[0] !in {0x10, 0x11, 0x13, 0x20, 0xFF}))
      || (f.pgn == 0xEC00 && f.destination == 0xFF && f.data[0] != 0x20)
    ensures ProcessFrame(e, f, port) == Outcome(e, [], [])
  {
  }
}
