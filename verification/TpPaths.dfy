/**
 One session in a table full of others. What the engine does on behalf of other nodes, and the passing of
 time, leave the session between two given nodes alone and put no frame of theirs on the bus.
 */
module TpPaths {
  import opened Can
  import opened TpWire
  import opened Seqs
  import opened TpEngine
  import opened TpSafety
  import opened TpNetwork

  /** A session between the two ends of the link, in either direction. */
  predicate Between(s: Session, l: Link) {
    (s.source == l.source && s.destination == l.destination) || (s.source == l.destination && s.destination == l.source)
  }

  predicate InLink(f: Frame, l: Link) {
    OnLink(f, l) || Backward(f, l)
  }

  function Ours(l: Link): Session -> bool {
    (s: Session) => Between(s, l)
  }

  function OfLink(l: Link): Frame -> bool {
    (f: Frame) => InLink(f, l)
  }

  /** The table holds `s`, and nothing else between the two nodes. */
  ghost predicate Alone(e: Engine, s: Session, l: Link) {
    s in e.sessions && Between(s, l) && forall x :: x in e.sessions && Between(x, l) ==> x == s
  }

  ghost predicate Absent(e: Engine, l: Link) {
    forall x :: x in e.sessions ==> !Between(x, l)
  }

  // ----- finding and changing the session

  lemma Found(e: Table, s: Session, l: Link, p: Session -> bool)
    requires Alone(e, s, l) && p(s) && forall x :: p(x) ==> Between(x, l)
    ensures var at := Position(e.sessions, p); at.Some? && e.sessions[at.value] == s
  {
    var k :| 0 <= k < |e.sessions| && e.sessions[k] == s;
    var at := Position(e.sessions, p);
    if at.Some? {
      assert e.sessions[at.value] in e.sessions;
    }
  }

  lemma NotFound(e: Table, l: Link, p: Session -> bool)
    requires Absent(e, l) && forall x :: p(x) ==> Between(x, l)
    ensures Position(e.sessions, p).None?
  {
  }

  lemma OnlyOne(e: Table, i: nat, l: Link)
    requires i < |e.sessions| && Alone(e, e.sessions[i], l)
    ensures forall k :: 0 <= k < |e.sessions| && k != i ==> !Between(e.sessions[k], l)
  {
    forall k | 0 <= k < |e.sessions| && k != i
      ensures !Between(e.sessions[k], l)
    {
      assert !Clash(e.sessions[Min(i, k)], e.sessions[if i < k then k else i]);
      assert e.sessions[k] != e.sessions[i] && e.sessions[k] in e.sessions;
    }
  }

  lemma RemoveAlone(e: Table, i: nat, l: Link)
    requires i < |e.sessions| && Alone(e, e.sessions[i], l)
    ensures Absent(Remove(e, i), l)
  {
    OnlyOne(e, i, l);
    var r := Remove(e, i).sessions;
    forall x | x in r
      ensures !Between(x, l)
    {
      var k :| 0 <= k < |r| && r[k] == x;
      assert x == e.sessions[if k == i then |e.sessions| - 1 else k];
    }
  }

  lemma ReplaceAlone(e: Table, i: nat, s: Session, l: Link)
    requires i < |e.sessions| && Alone(e, e.sessions[i], l) && Between(s, l)
    ensures Alone(e.(sessions := e.sessions[i := s]), s, l)
  {
    OnlyOne(e, i, l);
    assert e.sessions[i := s][i] == s;
  }

  lemma AppendAlone(e: Table, s: Session, l: Link)
    requires Absent(e, l) && Between(s, l)
    ensures Alone(e.(sessions := e.sessions + [s]), s, l)
  {
    assert (e.sessions + [s])[|e.sessions|] == s;
  }

  // ----- other traffic

  /** The sessions between the two nodes are the same in both tables. */
  ghost predicate Untouched(e: Engine, e': Engine, l: Link) {
    forall x :: Between(x, l) ==> (x in e.sessions <==> x in e'.sessions)
  }

  lemma UntouchedKeeps(e: Engine, e': Engine, l: Link)
    requires Untouched(e, e', l)
    ensures Absent(e, l) ==> Absent(e', l)
    ensures forall s :: Alone(e, s, l) ==> Alone(e', s, l)
  {
  }

  lemma RemoveOther(e: Table, i: nat, l: Link)
    requires i < |e.sessions| && !Between(e.sessions[i], l)
    ensures Untouched(e, Remove(e, i), l)
  {
    SwapRemoveFacts(e.sessions, i);
    forall x | Between(x, l) && x in e.sessions
      ensures x in Remove(e, i).sessions
    {
      assert x in multiset(e.sessions) - multiset{e.sessions[i]};
    }
  }

  lemma ReplaceOther(e: Table, i: nat, s: Session, l: Link)
    requires i < |e.sessions| && !Between(e.sessions[i], l) && !Between(s, l)
    ensures Untouched(e, e.(sessions := e.sessions[i := s]), l)
  {
    UpdateMembers(e.sessions, i, s);
    forall x | Between(x, l) && x in e.sessions
      ensures x in e.sessions[i := s]
    {
      var k :| 0 <= k < |e.sessions| && e.sessions[k] == x;
      assert e.sessions[i := s][k] == x;
    }
  }

  lemma AppendOther(e: Engine, s: Session, l: Link)
    requires !Between(s, l)
    ensures Untouched(e, e.(sessions := e.sessions + [s]), l)
  {
  }

  /**
   A frame of other nodes. A BAM ends an open broadcast of its source even when it is not itself broadcast,
   so for a broadcasting node its other BAMs count as its own.
   */
  predicate Elsewhere(f: Frame, l: Link) {
    && !InLink(f, l)
    && !(f.pgn == PGN_TP_CM && f.data[0] == BAM && f.source == l.source && l.destination == BROADCAST_ADDRESS)
  }

  /** Nothing of the two nodes' happens. */
  ghost predicate Aside(e: Engine, o: Outcome, l: Link) {
    && Untouched(e, o.engine, l) && (forall f :: f in o.frames ==> !InLink(f, l))
    && (forall c :: c in o.completed ==> !Between(c, l))
  }

  lemma RtsAside(e: Table, f: Frame, port: byte, pgn: nat, l: Link)
    requires !InLink(f, l)
    ensures Aside(e, HandleRts(e, f, port, pgn), l)
  {
    var at := Position(e.sessions, OnTransfer(Receive, f.source, f.destination, port, pgn));
    var e' := if at.Some? then Remove(e, at.value) else e;
    if at.Some? {
      RemoveOther(e, at.value, l);
    }
    var maxPkts: byte := Min(f.data[4], TP_MAX_PACKETS_PER_CTS);
    AppendOther(e', NewReceive(f, port, pgn, CmSize(f.data), maxPkts, Min(f.data[3], maxPkts)), l);
  }

  lemma BamAside(e: Table, f: Frame, port: byte, pgn: nat, l: Link)
    requires Elsewhere(f, l) && f.pgn == PGN_TP_CM && f.data[0] == BAM && l.source != BROADCAST_ADDRESS
    ensures Aside(e, HandleBam(e, f, port, pgn), l)
  {
    var at := Position(e.sessions, OnTransfer(Receive, f.source, BROADCAST_ADDRESS, port, pgn));
    var e' := if at.Some? then Remove(e, at.value) else e;
    if at.Some? {
      RemoveOther(e, at.value, l);
    }
    AppendOther(e', NewReceive(f, port, pgn, CmSize(f.data), TP_MAX_PACKETS_PER_CTS, 0), l);
  }

  lemma CtsAside(e: Table, f: Frame, port: byte, pgn: nat, l: Link)
    requires !InLink(f, l)
    ensures Aside(e, HandleCts(e, f, port, pgn), l)
  {
    var at := Position(e.sessions, Awaiting(f.destination, f.source, port, pgn));
    if at.Some? {
      var s := e.sessions[at.value];
      assert s in e.sessions && SessionOk(s) && Awaiting(f.destination, f.source, port, pgn)(s) && !Between(s, l);
      RemoveOther(e, at.value, l);
      var v := OnCts(s, f.data[1], f.data[2], e.maxRetransmits);
      if v.Granted? {
        ReplaceOther(e, at.value, v.session, l);
      }
    }
  }

  lemma EndingsAside(e: Table, f: Frame, port: byte, pgn: nat, l: Link)
    requires !InLink(f, l)
    ensures Aside(e, HandleEoma(e, f, port, pgn), l) && Aside(e, HandleAbort(e, f, port, pgn), l)
  {
    var eoma := Position(e.sessions, OnTransfer(Transmit, f.destination, f.source, port, pgn));
    var abort := Position(e.sessions, BetweenEither(f.source, f.destination, port, pgn));
    if eoma.Some? {
      assert !Between(e.sessions[eoma.value], l);
      RemoveOther(e, eoma.value, l);
    }
    if abort.Some? {
      assert !Between(e.sessions[abort.value], l);
      RemoveOther(e, abort.value, l);
    }
  }

  lemma DtAside(e: Table, f: Frame, port: byte, l: Link)
    requires !InLink(f, l)
    ensures Aside(e, HandleDt(e, f, port), l)
  {
    var at := Position(e.sessions, Collecting(f.source, f.destination, port));
    if at.Some? {
      var i := at.value;
      var s := e.sessions[i];
      assert s in e.sessions && SessionOk(s) && !Between(s, l);
      RemoveOther(e, i, l);
      if f.data[0] == s.lastSequence + 1 && HandleDt(e, f, port).completed == [] {
        ReplaceOther(e, i, HandleDt(e, f, port).engine.sessions[i], l);
      }
    }
  }

  lemma FrameAside(e: Table, f: Frame, port: byte, l: Link)
    requires Elsewhere(f, l) && l.source != BROADCAST_ADDRESS
    ensures Aside(e, ProcessFrame(e, f, port), l)
  {
    var pgn := CmPgn(f.data);
    if f.pgn == PGN_TP_DT {
      DtAside(e, f, port, l);
    } else if f.pgn != PGN_TP_CM {
    } else if f.data[0] == RTS {
      RtsAside(e, f, port, pgn, l);
    } else if f.data[0] == CTS {
      CtsAside(e, f, port, pgn, l);
    } else if f.data[0] == BAM {
      BamAside(e, f, port, pgn, l);
    } else {
      EndingsAside(e, f, port, pgn, l);
    }
  }

  lemma DiscontinueAside(e: Table, port: byte, address: byte, l: Link)
    requires address != l.source && address != l.destination
    ensures Aside(e, Discontinue(e, port, address), l)
  {
    WithoutFacts(e.sessions, port, address);
  }

  // ----- draining

  lemma DrainedFrames(s: Session, l: Link)
    requires SessionOk(s)
    ensures forall f :: f in DrainSession(s).1 ==> f.source == s.source && f.destination == s.destination
    ensures SessionOk(DrainSession(s).0) && SameKey(s, DrainSession(s).0)
    ensures !Between(s, l) ==> Filter(DrainSession(s).1, OfLink(l)) == []
    ensures Between(s, l) ==> Filter(DrainSession(s).1, OfLink(l)) == DrainSession(s).1
  {
    DrainSessionFacts(s);
    if s.direction == Transmit {
      GenerateFacts(s, s.packetsToSend);
    }
    if Between(s, l) {
      AllPass(DrainSession(s).1, OfLink(l));
    } else {
      NothingPasses(DrainSession(s).1, OfLink(l));
    }
  }

  lemma {:induction false} DrainOthers(ss: seq<Session>, l: Link)
    requires forall s :: s in ss ==> SessionOk(s) && !Between(s, l)
    ensures Filter(DrainAll(ss).1, OfLink(l)) == []
  {
    if ss != [] {
      DrainOthers(ss[1..], l);
      DrainedFrames(ss[0], l);
      FilterAppend(DrainSession(ss[0]).1, DrainAll(ss[1..]).1, OfLink(l));
    }
  }

  lemma {:induction false} DrainAmong(ss: seq<Session>, i: nat, l: Link)
    requires (forall s :: s in ss ==> SessionOk(s)) && i < |ss| && Between(ss[i], l)
    requires forall k :: 0 <= k < |ss| && k != i ==> !Between(ss[k], l)
    ensures Filter(DrainAll(ss).1, OfLink(l)) == DrainSession(ss[i]).1
  {
    DrainedFrames(ss[0], l);
    FilterAppend(DrainSession(ss[0]).1, DrainAll(ss[1..]).1, OfLink(l));
    assert forall k :: 0 <= k < |ss[1..]| ==> ss[1..][k] == ss[k + 1];
    if i == 0 {
      DrainOthers(ss[1..], l);
      assert DrainSession(ss[0]).1 + [] == DrainSession(ss[0]).1;
    } else {
      DrainAmong(ss[1..], i - 1, l);
      assert [] + DrainSession(ss[i]).1 == DrainSession(ss[i]).1;
    }
  }

  lemma DrainMembers(e: Table, l: Link, x: Session)
    requires x in PendingData(e).engine.sessions
    ensures exists k :: 0 <= k < |e.sessions| && x == DrainSession(e.sessions[k]).0 && SameKey(e.sessions[k], x)
  {
    DrainAllFacts(e.sessions);
    var r := PendingData(e).engine.sessions;
    var k :| 0 <= k < |r| && r[k] == x;
    DrainSessionFacts(e.sessions[k]);
  }

  lemma DrainAlone(e: Table, s: Session, l: Link)
    requires Alone(e, s, l)
    ensures Alone(PendingData(e).engine, DrainSession(s).0, l)
    ensures Filter(PendingData(e).frames, OfLink(l)) == DrainSession(s).1
  {
    var i :| 0 <= i < |e.sessions| && e.sessions[i] == s;
    OnlyOne(e, i, l);
    DrainAllFacts(e.sessions);
    DrainSessionFacts(s);
    DrainAmong(e.sessions, i, l);
    var r := PendingData(e).engine.sessions;
    assert r[i] == DrainSession(s).0;
    forall x | x in r && Between(x, l)
      ensures x == DrainSession(s).0
    {
      DrainMembers(e, l, x);
    }
  }

  lemma DrainAbsent(e: Table, l: Link)
    requires Absent(e, l)
    ensures Absent(PendingData(e).engine, l) && Filter(PendingData(e).frames, OfLink(l)) == []
  {
    DrainOthers(e.sessions, l);
    var e' := PendingData(e).engine;
    forall x | x in e'.sessions
      ensures !Between(x, l)
    {
      DrainMembers(e, l, x);
      var k :| 0 <= k < |e.sessions| && x == DrainSession(e.sessions[k]).0 && SameKey(e.sessions[k], x);
      assert e.sessions[k] in e.sessions;
    }
  }

  // ----- time

  /** What a timer pass does to the session that `r` describes, among others. */
  ghost predicate Ticked(o: Outcome, r: Tick, l: Link) {
    match r
    case Alive(s, sent) =>
      && Alone(o.engine, s, l) && Filter(o.frames, OfLink(l)) == Filter(sent, OfLink(l))
      && Filter(o.completed, Ours(l)) == []
    case Finished(s, sent) =>
      && Absent(o.engine, l) && Filter(o.frames, OfLink(l)) == Filter(sent, OfLink(l))
      && Filter(o.completed, Ours(l)) == [s]
    case Expired(sent) =>
      && Absent(o.engine, l) && Filter(o.frames, OfLink(l)) == Filter(sent, OfLink(l))
      && Filter(o.completed, Ours(l)) == []
  }

  ghost predicate TickedNone(o: Outcome, l: Link) {
    Absent(o.engine, l) && Filter(o.frames, OfLink(l)) == [] && Filter(o.completed, Ours(l)) == []
  }

  lemma TickedFrames(s: Session, elapsed: nat, l: Link)
    requires SessionOk(s) && !Between(s, l)
    ensures var r := TickSession(s, elapsed);
            && Filter(r.sent, OfLink(l)) == []
            && (r.Alive? || r.Finished? ==> !Between(r.session, l))
  {
    TickKeepsSession(s, elapsed);
    if s.direction == Transmit {
      GenerateFacts(s.(timer := 0), 1);
    }
    NothingPasses(TickSession(s, elapsed).sent, OfLink(l));
  }

  /** The outcome of the rest of the pass, with what the first session gave put in front. */
  function Prefixed(sent: seq<Frame>, done: seq<Session>, o: Outcome): Outcome {
    Outcome(o.engine, sent + o.frames, done + o.completed)
  }

  lemma PrefixFilters(sent: seq<Frame>, done: seq<Session>, o: Outcome, l: Link)
    ensures var p := Prefixed(sent, done, o);
            && Filter(p.frames, OfLink(l)) == Filter(sent, OfLink(l)) + Filter(o.frames, OfLink(l))
            && Filter(p.completed, Ours(l)) == Filter(done, Ours(l)) + Filter(o.completed, Ours(l))
  {
    FilterAppend(sent, o.frames, OfLink(l));
    FilterAppend(done, o.completed, Ours(l));
  }

  lemma PrefixOther(sent: seq<Frame>, done: seq<Session>, o: Outcome, l: Link)
    requires Filter(sent, OfLink(l)) == [] && Filter(done, Ours(l)) == []
    ensures TickedNone(o, l) ==> TickedNone(Prefixed(sent, done, o), l)
    ensures forall r :: Ticked(o, r, l) ==> Ticked(Prefixed(sent, done, o), r, l)
  {
    PrefixFilters(sent, done, o, l);
    var p := Prefixed(sent, done, o);
    assert Filter(p.frames, OfLink(l)) == Filter(o.frames, OfLink(l));
    assert Filter(p.completed, Ours(l)) == Filter(o.completed, Ours(l));
  }

  /** The table and the place of the pass after visiting session `i`. */
  function Visited(e: Engine, i: nat, r: Tick): (Engine, nat)
    requires i < |e.sessions|
  {
    if r.Alive? then (e.(sessions := e.sessions[i := r.session]), i + 1) else (Remove(e, i), i)
  }

  lemma VisitedIsValid(e: Table, i: nat, elapsed: nat)
    requires i < |e.sessions|
    ensures SessionOk(e.sessions[i])
    ensures var (e', j) := Visited(e, i, TickSession(e.sessions[i], elapsed));
            Valid(e') && j <= |e'.sessions| && |e'.sessions| - j < |e.sessions| - i && |e'.sessions| <= |e.sessions|
  {
    assert e.sessions[i] in e.sessions;
    TickKeepsSession(e.sessions[i], elapsed);
    var r := TickSession(e.sessions[i], elapsed);
    if r.Alive? {
      ReplaceKeepsValid(e, i, r.session);
    } else {
      RemoveKeepsValid(e, i);
    }
  }

  lemma UpdateUnfolds(e: Table, i: nat, elapsed: nat)
    requires i < |e.sessions|
    ensures SessionOk(e.sessions[i])
    ensures var r := TickSession(e.sessions[i], elapsed);
            var (e', j) := Visited(e, i, r);
            && Valid(e') && j <= |e'.sessions| && |e'.sessions| - j < |e.sessions| - i && |e'.sessions| <= |e.sessions|
            && UpdateFrom(e, i, elapsed)
               == Prefixed(r.sent, if r.Finished? then [r.session] else [], UpdateFrom(e', j, elapsed))
  {
    VisitedIsValid(e, i, elapsed);
    var r := TickSession(e.sessions[i], elapsed);
    var (e', j) := Visited(e, i, r);
    var o := UpdateFrom(e', j, elapsed);
    assert [] + o.completed == o.completed;
  }

  lemma {:induction false} TickOthers(e: Table, i: nat, elapsed: nat, l: Link)
    requires i <= |e.sessions| && Absent(e, l)
    ensures TickedNone(UpdateFrom(e, i, elapsed), l)
    decreases |e.sessions| - i
  {
    if i < |e.sessions| {
      var s := e.sessions[i];
      assert s in e.sessions;
      UpdateUnfolds(e, i, elapsed);
      TickedFrames(s, elapsed, l);
      var r := TickSession(s, elapsed);
      var (e', j) := Visited(e, i, r);
      VisitOther(e, i, r, l);
      TickOthers(e', j, elapsed, l);
      PrefixOther(r.sent, if r.Finished? then [r.session] else [], UpdateFrom(e', j, elapsed), l);
    }
  }

  lemma VisitOther(e: Table, i: nat, r: Tick, l: Link)
    requires i < |e.sessions| && !Between(e.sessions[i], l) && (r.Alive? || r.Finished? ==> !Between(r.session, l))
    ensures Untouched(e, Visited(e, i, r).0, l)
    ensures Absent(e, l) ==> Absent(Visited(e, i, r).0, l)
    ensures forall s :: Alone(e, s, l) ==> Alone(Visited(e, i, r).0, s, l)
    ensures r.Finished? ==> Filter([r.session], Ours(l)) == []
  {
    if r.Alive? {
      ReplaceOther(e, i, r.session, l);
    } else {
      RemoveOther(e, i, l);
    }
    UntouchedKeeps(e, Visited(e, i, r).0, l);
  }

  // A session the pass has already visited is not visited again.
  lemma {:induction false} TickBehind(e: Table, i: nat, elapsed: nat, l: Link, p: nat)
    requires p < i <= |e.sessions| && Alone(e, e.sessions[p], l)
    ensures Ticked(UpdateFrom(e, i, elapsed), Alive(e.sessions[p], []), l)
    decreases |e.sessions| - i
  {
    var s := e.sessions[p];
    if i < |e.sessions| {
      OnlyOne(e, p, l);
      UpdateUnfolds(e, i, elapsed);
      TickedFrames(e.sessions[i], elapsed, l);
      var r := TickSession(e.sessions[i], elapsed);
      var (e', j) := Visited(e, i, r);
      VisitOther(e, i, r, l);
      assert e'.sessions[p] == s;
      TickBehind(e', j, elapsed, l, p);
      PrefixOther(r.sent, if r.Finished? then [r.session] else [], UpdateFrom(e', j, elapsed), l);
    }
  }

  lemma {:induction false} TickAhead(e: Table, i: nat, elapsed: nat, l: Link, p: nat)
    requires i <= p < |e.sessions| && Alone(e, e.sessions[p], l)
    ensures SessionOk(e.sessions[p]) && Ticked(UpdateFrom(e, i, elapsed), TickSession(e.sessions[p], elapsed), l)
    decreases |e.sessions| - i
  {
    assert e.sessions[p] in e.sessions;
    if i == p {
      TickHere(e, i, elapsed, l);
    } else {
      OnlyOne(e, p, l);
      UpdateUnfolds(e, i, elapsed);
      TickedFrames(e.sessions[i], elapsed, l);
      var r := TickSession(e.sessions[i], elapsed);
      var (e', j) := Visited(e, i, r);
      VisitOther(e, i, r, l);
      var p' := if !r.Alive? && p == |e.sessions| - 1 then i else p;
      assert e'.sessions[p'] == e.sessions[p];
      TickAhead(e', j, elapsed, l, p');
      PrefixOther(r.sent, if r.Finished? then [r.session] else [], UpdateFrom(e', j, elapsed), l);
    }
  }

  lemma TickHere(e: Table, i: nat, elapsed: nat, l: Link)
    requires i < |e.sessions| && Alone(e, e.sessions[i], l)
    ensures SessionOk(e.sessions[i]) && Ticked(UpdateFrom(e, i, elapsed), TickSession(e.sessions[i], elapsed), l)
  {
    var s := e.sessions[i];
    UpdateUnfolds(e, i, elapsed);
    TickKeepsSession(s, elapsed);
    var r := TickSession(s, elapsed);
    var (e', j) := Visited(e, i, r);
    var done := if r.Finished? then [r.session] else [];
    var o := UpdateFrom(e', j, elapsed);
    PrefixFilters(r.sent, done, o, l);
    if r.Alive? {
      ReplaceAlone(e, i, r.session, l);
      TickBehind(e', j, elapsed, l, i);
    } else {
      RemoveAlone(e, i, l);
      TickOthers(e', j, elapsed, l);
      if r.Finished? {
        TickFinishes(s, elapsed, l);
      }
    }
  }

  lemma TickFinishes(s: Session, elapsed: nat, l: Link)
    requires SessionOk(s) && TickSession(s, elapsed).Finished? && Between(s, l)
    ensures Filter([TickSession(s, elapsed).session], Ours(l)) == [TickSession(s, elapsed).session]
  {
    if s.direction == Transmit {
      GenerateFacts(s.(timer := 0), 1);
    }
  }

  lemma TickAlone(e: Table, s: Session, elapsed: nat, l: Link)
    requires Alone(e, s, l)
    ensures SessionOk(s) && Ticked(Update(e, elapsed), TickSession(s, elapsed), l)
  {
    var p :| 0 <= p < |e.sessions| && e.sessions[p] == s;
    TickAhead(e, 0, elapsed, l, p);
  }
}
