/**
 The time limits of the transport protocol, for a table of any number of sessions and time that passes in steps of
 any size: which sessions are still there, and what was sent on account of each.
 */
module TpTimers {
  import opened Can
  import opened TpWire
  import opened Seqs
  import opened TpEngine
  import opened TpSafety

  /** A run of `update` calls with nothing received in between. */
  ghost function Serve(e: Engine, ticks: seq<nat>): (o: Outcome)
    requires Valid(e)
    ensures Valid(o.engine)
    decreases |ticks|
  {
    if ticks == [] then Idle(e)
    else
      UpdateFromKeepsValid(e, 0, ticks[0]);
      var o := Update(e, ticks[0]);
      var rest := Serve(o.engine, ticks[1..]);
      Outcome(rest.engine, o.frames + rest.frames, o.completed + rest.completed)
  }

  // ----- sums over a table

  ghost function Sum<T>(ss: seq<Session>, f: Session -> multiset<T>): multiset<T> {
    if ss == [] then multiset{} else f(ss[0]) + Sum(ss[1..], f)
  }

  lemma {:induction false} SumConcat<T>(a: seq<Session>, b: seq<Session>, f: Session -> multiset<T>)
    ensures Sum(a + b, f) == Sum(a, f) + Sum(b, f)
  {
    if a == [] {
      assert a + b == b;
    } else {
      assert (a + b)[1..] == a[1..] + b;
      SumConcat(a[1..], b, f);
    }
  }

  lemma SumOne<T>(s: Session, f: Session -> multiset<T>)
    ensures Sum([s], f) == f(s)
  {
    assert [s][1..] == [];
  }

  lemma SumCut<T>(ss: seq<Session>, i: nat, f: Session -> multiset<T>)
    requires i < |ss|
    ensures Sum(ss, f) == f(ss[i]) + Sum(ss[..i] + ss[i + 1..], f)
  {
    assert ss == ss[..i] + ([ss[i]] + ss[i + 1..]);
    SumConcat(ss[..i], [ss[i]] + ss[i + 1..], f);
    SumConcat([ss[i]], ss[i + 1..], f);
    SumConcat(ss[..i], ss[i + 1..], f);
    SumOne(ss[i], f);
    MovesToFront(Sum(ss[..i], f), f(ss[i]), Sum(ss[i + 1..], f));
  }

  lemma MovesToFront<T>(a: multiset<T>, b: multiset<T>, c: multiset<T>)
    ensures a + (b + c) == b + (a + c)
  {
  }

  lemma CutContents(ss: seq<Session>, i: nat)
    requires i < |ss|
    ensures multiset(ss) == multiset{ss[i]} + multiset(ss[..i] + ss[i + 1..])
  {
    assert ss == ss[..i] + [ss[i]] + ss[i + 1..];
  }

  // The order of the table does not matter.
  lemma {:induction false} SumPermuted<T>(a: seq<Session>, b: seq<Session>, f: Session -> multiset<T>)
    requires multiset(a) == multiset(b)
    ensures Sum(a, f) == Sum(b, f)
    decreases |a|
  {
    if a == [] {
      assert |multiset(b)| == 0;
    } else {
      assert a[0] in multiset(b);
      var j :| 0 <= j < |b| && b[j] == a[0];
      CutContents(b, j);
      assert a == [a[0]] + a[1..];
      assert multiset(a) == multiset{a[0]} + multiset(a[1..]);
      assert multiset(a[1..]) == multiset(a) - multiset{a[0]};
      SumPermuted(a[1..], b[..j] + b[j + 1..], f);
      SumCut(b, j, f);
    }
  }

  lemma {:induction false} SumPointwise<T>(ss: seq<Session>, f: Session -> multiset<T>, g: Session -> multiset<T>,
                                           h: Session -> multiset<T>)
    requires forall s :: s in ss ==> f(s) == g(s) + h(s)
    ensures Sum(ss, f) == Sum(ss, g) + Sum(ss, h)
  {
    if ss != [] {
      SumPointwise(ss[1..], f, g, h);
    }
  }

  // ----- one service

  /** What `f` makes of the session that this one becomes in a service, if it outlives it. */
  ghost function After<T>(ms: nat, f: Session -> multiset<T>): Session -> multiset<T> {
    s => if SessionOk(s) && TickSession(s, ms).Alive? then f(TickSession(s, ms).session) else multiset{}
  }

  /** The frames a service sends for a session. */
  ghost function SentFor(ms: nat): Session -> multiset<Frame> {
    s => if SessionOk(s) then multiset(TickSession(s, ms).sent) else multiset{}
  }

  /** The session a service reports as complete, if it is this one. */
  ghost function DoneFor(ms: nat): Session -> multiset<Session> {
    s => if SessionOk(s) && TickSession(s, ms).Finished? then multiset{TickSession(s, ms).session} else multiset{}
  }

  // The last session takes the place of one that goes; none is visited twice or forgotten.
  lemma SumRemoved<T>(ss: seq<Session>, i: nat, f: Session -> multiset<T>)
    requires i < |ss|
    ensures Sum(SwapRemove(ss, i)[i..], f) == Sum(ss[i + 1..], f)
    ensures SwapRemove(ss, i)[..i] == ss[..i]
  {
    var r, n := SwapRemove(ss, i), |ss| - 1;
    if i < n {
      assert r[i..] == [ss[n]] + ss[i + 1..n] && ss[i + 1..] == ss[i + 1..n] + [ss[n]];
      SumConcat([ss[n]], ss[i + 1..n], f);
      SumConcat(ss[i + 1..n], [ss[n]], f);
    } else {
      assert r[i..] == [] && ss[i + 1..] == [];
    }
  }

  lemma SumFrom<T>(ss: seq<Session>, i: nat, f: Session -> multiset<T>)
    requires i < |ss|
    ensures Sum(ss[i..], f) == f(ss[i]) + Sum(ss[i + 1..], f)
  {
    assert ss[i..][1..] == ss[i + 1..];
  }

  lemma {:induction false} PassKeepsEach<T>(e: Engine, i: nat, ms: nat, f: Session -> multiset<T>)
    requires i <= |e.sessions|
    requires forall k :: i <= k < |e.sessions| ==> SessionOk(e.sessions[k])
    ensures Sum(UpdateFrom(e, i, ms).engine.sessions, f)
         == Sum(e.sessions[..i], f) + Sum(e.sessions[i..], After(ms, f))
    decreases |e.sessions| - i
  {
    var ss := e.sessions;
    if i == |ss| {
      assert ss[..i] == ss;
    } else {
      SumFrom(ss, i, After(ms, f));
      var t := TickSession(ss[i], ms);
      if t.Alive? {
        var e' := e.(sessions := ss[i := t.session]);
        PassKeepsEach(e', i + 1, ms, f);
        assert e'.sessions[..i + 1] == ss[..i] + [t.session] && e'.sessions[i + 1..] == ss[i + 1..];
        SumConcat(ss[..i], [t.session], f);
        SumOne(t.session, f);
      } else {
        PassKeepsEach(Remove(e, i), i, ms, f);
        SumRemoved(ss, i, After(ms, f));
      }
    }
  }

  lemma {:induction false} PassSendsForEach(e: Engine, i: nat, ms: nat)
    requires i <= |e.sessions|
    requires forall k :: i <= k < |e.sessions| ==> SessionOk(e.sessions[k])
    ensures multiset(UpdateFrom(e, i, ms).frames) == Sum(e.sessions[i..], SentFor(ms))
    decreases |e.sessions| - i
  {
    var ss := e.sessions;
    if i < |ss| {
      SumFrom(ss, i, SentFor(ms));
      var t := TickSession(ss[i], ms);
      if t.Alive? {
        var e' := e.(sessions := ss[i := t.session]);
        PassSendsForEach(e', i + 1, ms);
        assert e'.sessions[i + 1..] == ss[i + 1..];
      } else {
        PassSendsForEach(Remove(e, i), i, ms);
        SumRemoved(ss, i, SentFor(ms));
      }
    }
  }

  lemma {:induction false} PassReportsEach(e: Engine, i: nat, ms: nat)
    requires i <= |e.sessions|
    requires forall k :: i <= k < |e.sessions| ==> SessionOk(e.sessions[k])
    ensures multiset(UpdateFrom(e, i, ms).completed) == Sum(e.sessions[i..], DoneFor(ms))
    decreases |e.sessions| - i
  {
    var ss := e.sessions;
    if i < |ss| {
      SumFrom(ss, i, DoneFor(ms));
      var t := TickSession(ss[i], ms);
      if t.Alive? {
        var e' := e.(sessions := ss[i := t.session]);
        PassReportsEach(e', i + 1, ms);
        assert e'.sessions[i + 1..] == ss[i + 1..];
      } else {
        PassReportsEach(Remove(e, i), i, ms);
        SumRemoved(ss, i, DoneFor(ms));
      }
    }
  }

  // ----- any number of services

  /** What is left of a session, and what was sent for it, after a run of services that nothing interrupts. */
  ghost function Kept(s: Session, ticks: seq<nat>): multiset<Session>
    decreases |ticks|
  {
    if ticks == [] then multiset{s}
    else if SessionOk(s) && TickSession(s, ticks[0]).Alive? then Kept(TickSession(s, ticks[0]).session, ticks[1..])
    else multiset{}
  }

  ghost function SentOver(s: Session, ticks: seq<nat>): multiset<Frame>
    decreases |ticks|
  {
    if ticks == [] || !SessionOk(s) then multiset{}
    else
      var t := TickSession(s, ticks[0]);
      multiset(t.sent) + if t.Alive? then SentOver(t.session, ticks[1..]) else multiset{}
  }

  ghost function Done(s: Session, ticks: seq<nat>): multiset<Session>
    decreases |ticks|
  {
    if ticks == [] || !SessionOk(s) then multiset{}
    else
      match TickSession(s, ticks[0])
      case Alive(s', _) => Done(s', ticks[1..])
      case Finished(s', _) => multiset{s'}
      case Expired(_) => multiset{}
  }

  ghost function KeptOver(ticks: seq<nat>): Session -> multiset<Session> {
    s => Kept(s, ticks)
  }

  ghost function SentIn(ticks: seq<nat>): Session -> multiset<Frame> {
    s => SentOver(s, ticks)
  }

  ghost function DoneIn(ticks: seq<nat>): Session -> multiset<Session> {
    s => Done(s, ticks)
  }

  lemma {:induction false} SumOfSingles(ss: seq<Session>)
    ensures Sum(ss, KeptOver([])) == multiset(ss)
  {
    if ss != [] {
      SumOfSingles(ss[1..]);
      assert ss == [ss[0]] + ss[1..];
    }
  }

  lemma {:induction false} SumOfNothing<T>(ss: seq<Session>, f: Session -> multiset<T>)
    requires forall s :: s in ss ==> f(s) == multiset{}
    ensures Sum(ss, f) == multiset{}
  {
    if ss != [] {
      SumOfNothing(ss[1..], f);
    }
  }

  lemma {:induction false} SumSame<T>(ss: seq<Session>, f: Session -> multiset<T>, g: Session -> multiset<T>)
    requires forall s :: s in ss ==> f(s) == g(s)
    ensures Sum(ss, f) == Sum(ss, g)
  {
    if ss != [] {
      SumSame(ss[1..], f, g);
    }
  }

  lemma FirstServiceApart(ss: seq<Session>, ticks: seq<nat>)
    requires ticks != []
    ensures Sum(ss, KeptOver(ticks)) == Sum(ss, After(ticks[0], KeptOver(ticks[1..])))
    ensures Sum(ss, SentIn(ticks)) == Sum(ss, SentFor(ticks[0])) + Sum(ss, After(ticks[0], SentIn(ticks[1..])))
    ensures Sum(ss, DoneIn(ticks)) == Sum(ss, DoneFor(ticks[0])) + Sum(ss, After(ticks[0], DoneIn(ticks[1..])))
  {
    SumSame(ss, KeptOver(ticks), After(ticks[0], KeptOver(ticks[1..])));
    SumPointwise(ss, SentIn(ticks), SentFor(ticks[0]), After(ticks[0], SentIn(ticks[1..])));
    SumPointwise(ss, DoneIn(ticks), DoneFor(ticks[0]), After(ticks[0], DoneIn(ticks[1..])));
  }

  lemma WholePass<T>(e: Engine, ms: nat, f: Session -> multiset<T>)
    requires Valid(e)
    ensures Sum(Update(e, ms).engine.sessions, f) == Sum(e.sessions, After(ms, f))
  {
    PassKeepsEach(e, 0, ms, f);
    assert e.sessions[..0] == [] && e.sessions[0..] == e.sessions;
  }

  // Sessions do not disturb each other: a run of services does to the table what it does to each session by itself.
  lemma {:induction false} EachByItself(e: Engine, ticks: seq<nat>, o: Outcome)
    requires Valid(e) && o == Serve(e, ticks)
    ensures multiset(o.engine.sessions) == Sum(e.sessions, KeptOver(ticks))
    ensures multiset(o.frames) == Sum(e.sessions, SentIn(ticks))
    ensures multiset(o.completed) == Sum(e.sessions, DoneIn(ticks))
    decreases |ticks|
  {
    var ss := e.sessions;
    if ticks == [] {
      SumOfSingles(ss);
      SumOfNothing(ss, SentIn(ticks));
      SumOfNothing(ss, DoneIn(ticks));
    } else {
      var ms, rest := ticks[0], ticks[1..];
      UpdateFromKeepsValid(e, 0, ms);
      EachByItself(Update(e, ms).engine, rest, Serve(Update(e, ms).engine, rest));
      WholePass(e, ms, KeptOver(rest));
      WholePass(e, ms, SentIn(rest));
      WholePass(e, ms, DoneIn(rest));
      PassSendsForEach(e, 0, ms);
      PassReportsEach(e, 0, ms);
      assert ss[0..] == ss;
      FirstServiceApart(ss, ticks);
    }
  }

  // ----- the four states that wait

  predicate Waits(s: Session) {
    s.state in {WaitingForCTS, WaitingForEndOfMsg, WaitingForData, ReceivingData}
  }

  /** ISO 11783-3: T1 for a listener of a broadcast, T2 for a receiver and T3 for a sender of a connection. */
  function Patience(s: Session): nat {
    match s.state
    case ReceivingData => 750
    case _ => 1250
  }

  /** What a session that runs out of time sends: an abort from this node's end of the connection to the other. */
  function GivesUp(s: Session): seq<Frame> {
    var (us, them) := if s.direction == Transmit then (s.source, s.destination) else (s.destination, s.source);
    if s.destination == 0xFF then []
    else [Frame(0xEC00, us, them, 7,
                [0xFF, 3, 0xFF, 0xFF, 0xFF, s.pgn % 256, s.pgn / 256 % 256, s.pgn / 65536 % 256], 8)]
  }

  /** The session at time `t` as long as its time lasts, and what is sent once it is over. */
  function Besides(s: Session, t: nat): multiset<Session> {
    if t < Patience(s) then multiset{s.(timer := t)} else multiset{}
  }

  function Cost(s: Session, t: nat): multiset<Frame> {
    if t < Patience(s) then multiset{} else multiset(GivesUp(s))
  }

  lemma OneService(s: Session, ms: nat)
    requires SessionOk(s) && Waits(s)
    ensures TickSession(s, ms)
         == if s.timer + ms < Patience(s) then Alive(s.(timer := s.timer + ms), []) else Expired(GivesUp(s))
  {
  }

  lemma PlusNothing(a: multiset<Frame>)
    ensures multiset([]) + a == a && a + multiset{} == a
  {
    var none: seq<Frame> := [];
    assert multiset(none) == multiset{};
  }

  lemma SentAlive(s: Session, ticks: seq<nat>, s': Session)
    requires SessionOk(s) && ticks != [] && TickSession(s, ticks[0]) == Alive(s', [])
    ensures SentOver(s, ticks) == SentOver(s', ticks[1..])
  {
    PlusNothing(SentOver(s', ticks[1..]));
  }

  lemma SentExpired(s: Session, ticks: seq<nat>, g: seq<Frame>)
    requires SessionOk(s) && ticks != [] && TickSession(s, ticks[0]) == Expired(g)
    ensures SentOver(s, ticks) == multiset(g)
  {
    PlusNothing(multiset(g));
  }

  lemma GoesOn(s: Session, ticks: seq<nat>, s': Session)
    requires SessionOk(s) && Waits(s) && ticks != []
    requires s.timer + ticks[0] < Patience(s) && s' == s.(timer := s.timer + ticks[0])
    ensures Kept(s, ticks) == Kept(s', ticks[1..]) && SentOver(s, ticks) == SentOver(s', ticks[1..])
  {
    OneService(s, ticks[0]);
    SentAlive(s, ticks, s');
  }

  lemma EndsHere(s: Session, ticks: seq<nat>)
    requires SessionOk(s) && Waits(s) && ticks != [] && s.timer + ticks[0] >= Patience(s)
    ensures Kept(s, ticks) == multiset{} && SentOver(s, ticks) == multiset(GivesUp(s))
  {
    OneService(s, ticks[0]);
    SentExpired(s, ticks, GivesUp(s));
  }

  lemma {:induction false} AnySplit(s: Session, ticks: seq<nat>, t: nat, kept: multiset<Session>, sent: multiset<Frame>)
    requires SessionOk(s) && Waits(s) && (ticks == [] ==> s.timer < Patience(s))
    requires t == s.timer + TotalTime(ticks) && kept == Kept(s, ticks) && sent == SentOver(s, ticks)
    ensures kept == Besides(s, t) && sent == Cost(s, t)
    decreases |ticks|
  {
    if ticks == [] {
    } else if s.timer + ticks[0] < Patience(s) {
      var s' := s.(timer := s.timer + ticks[0]);
      GoesOn(s, ticks, s');
      StillOk(s, s');
      SameTime(s, s', t);
      AnySplit(s', ticks[1..], t, kept, sent);
    } else {
      EndsHere(s, ticks);
    }
  }

  lemma {:induction false} NeverDone(s: Session, ticks: seq<nat>)
    requires SessionOk(s) && Waits(s)
    ensures Done(s, ticks) == multiset{}
    decreases |ticks|
  {
    if ticks != [] {
      OneService(s, ticks[0]);
      if s.timer + ticks[0] < Patience(s) {
        var s' := s.(timer := s.timer + ticks[0]);
        StillOk(s, s');
        NeverDone(s', ticks[1..]);
      }
    }
  }

  lemma SameTime(s: Session, s': Session, t: nat)
    requires s' == s.(timer := s'.timer)
    ensures Besides(s', t) == Besides(s, t) && Cost(s', t) == Cost(s, t)
  {
  }

  lemma StillOk(s: Session, s': Session)
    requires SessionOk(s) && Waits(s) && s'.timer < Patience(s) && s' == s.(timer := s'.timer)
    ensures SessionOk(s') && Waits(s') && Patience(s') == Patience(s) && GivesUp(s') == GivesUp(s)
  {
  }

  /** The two outcomes differ by what there is of `s`, and what was sent for it, at time `t`. */
  ghost predicate OneMore(o: Outcome, p: Outcome, s: Session, t: nat) {
    && multiset(o.engine.sessions) == multiset(p.engine.sessions) + Besides(s, t)
    && multiset(o.frames) == multiset(p.frames) + Cost(s, t)
    && multiset(o.completed) == multiset(p.completed)
  }

  // A session in one of the four waiting states is there exactly while its time lasts, however that time is cut up and
  // whatever else the table holds; a connection that goes costs exactly one frame, the abort.
  lemma WaitsItsTime(e: Engine, others: Engine, s: Session, ticks: seq<nat>, o: Outcome, p: Outcome)
    requires Valid(e) && Valid(others) && multiset(e.sessions) == multiset(others.sessions) + multiset{s}
    requires Waits(s) && (ticks == [] ==> s.timer < Patience(s))
    requires o == Serve(e, ticks) && p == Serve(others, ticks)
    ensures OneMore(o, p, s, s.timer + TotalTime(ticks))
  {
    SplitOff(e.sessions, others.sessions, s, KeptOver(ticks));
    SplitOff(e.sessions, others.sessions, s, SentIn(ticks));
    SplitOff(e.sessions, others.sessions, s, DoneIn(ticks));
    EachByItself(e, ticks, o);
    EachByItself(others, ticks, p);
    IsOk(e, s);
    AnySplit(s, ticks, s.timer + TotalTime(ticks), Kept(s, ticks), SentOver(s, ticks));
    NeverDone(s, ticks);
  }

  lemma IsOk(e: Engine, s: Session)
    requires Valid(e) && s in multiset(e.sessions)
    ensures SessionOk(s)
  {
  }

  lemma SplitOff<T>(ss: seq<Session>, others: seq<Session>, s: Session, f: Session -> multiset<T>)
    requires multiset(ss) == multiset(others) + multiset{s}
    ensures Sum(ss, f) == Sum(others, f) + f(s)
  {
    SumPermuted(ss, others + [s], f);
    SumConcat(others, [s], f);
    SumOne(s, f);
  }

  lemma {:induction false} SumMember<T>(ss: seq<Session>, f: Session -> multiset<T>, x: T)
    requires x in Sum(ss, f)
    ensures exists s :: s in ss && x in f(s)
  {
    if x !in f(ss[0]) {
      SumMember(ss[1..], f, x);
    }
  }

  lemma {:induction false} KeptKeepsKey(s: Session, ticks: seq<nat>, x: Session)
    requires x in Kept(s, ticks)
    ensures SameKey(s, x)
    decreases |ticks|
  {
    if ticks != [] {
      TickKeepsSession(s, ticks[0]);
      KeptKeepsKey(TickSession(s, ticks[0]).session, ticks[1..], x);
    }
  }

  ghost predicate Present(ss: seq<Session>, s: Session) {
    exists x :: x in ss && SameKey(s, x)
  }

  lemma PresentIff(s: Session, o: Outcome, p: Outcome, t: nat)
    ensures OneMore(o, p, s, t) ==>
              Present(o.engine.sessions, s) == (Present(p.engine.sessions, s) || t < Patience(s))
  {
    if OneMore(o, p, s, t) {
      var a, b := o.engine.sessions, p.engine.sessions;
      forall x
        ensures x in a <==> x in b || (t < Patience(s) && x == s.(timer := t))
      {
        assert x in a <==> x in multiset(a);
        assert x in b <==> x in multiset(b);
      }
      assert SameKey(s, s.(timer := t));
    }
  }

  lemma OthersHaveOtherKeys(e: Engine, i: nat, ticks: seq<nat>)
    requires Valid(e) && i < |e.sessions| && Valid(Remove(e, i))
    ensures !Present(Serve(Remove(e, i), ticks).engine.sessions, e.sessions[i])
  {
    var s, others := e.sessions[i], Remove(e, i);
    assert Clash(s, s);
    RemoveLeavesNoClash(e, i, s);
    EachByItself(others, ticks, Serve(others, ticks));
    forall x | x in Serve(others, ticks).engine.sessions
      ensures !SameKey(s, x)
    {
      assert x in multiset(Serve(others, ticks).engine.sessions);
      SumMember(others.sessions, KeptOver(ticks), x);
      var y :| y in others.sessions && x in Kept(y, ticks);
      KeptKeepsKey(y, ticks, x);
      assert !Clash(y, s);
    }
  }

  lemma TakenOut(e: Engine, i: nat)
    requires Valid(e) && i < |e.sessions|
    ensures Valid(Remove(e, i)) && multiset(e.sessions) == multiset(Remove(e, i).sessions) + multiset{e.sessions[i]}
  {
    RemoveKeepsValid(e, i);
    SwapRemoveContents(e.sessions, i);
    assert e.sessions[i] in multiset(e.sessions);
  }

  lemma PresentAmong(e: Engine, others: Engine, s: Session, ticks: seq<nat>, o: Outcome, p: Outcome)
    requires Valid(e) && Valid(others) && multiset(e.sessions) == multiset(others.sessions) + multiset{s}
    requires Waits(s) && (ticks == [] ==> s.timer < Patience(s))
    requires o == Serve(e, ticks) && p == Serve(others, ticks)
    ensures Present(o.engine.sessions, s) == (Present(p.engine.sessions, s) || s.timer + TotalTime(ticks) < Patience(s))
  {
    WaitsItsTime(e, others, s, ticks, o, p);
    PresentIff(s, o, p, s.timer + TotalTime(ticks));
  }

  // Nothing comes back: after its time no session of those two nodes, that direction and that PGN is in the table.
  lemma StillThereIff(e: Engine, i: nat, ticks: seq<nat>)
    requires Valid(e) && i < |e.sessions| && Waits(e.sessions[i])
    requires ticks == [] ==> e.sessions[i].timer < Patience(e.sessions[i])
    ensures Present(Serve(e, ticks).engine.sessions, e.sessions[i])
       <==> e.sessions[i].timer + TotalTime(ticks) < Patience(e.sessions[i])
  {
    TakenOut(e, i);
    OthersHaveOtherKeys(e, i, ticks);
    PresentAmong(e, Remove(e, i), e.sessions[i], ticks, Serve(e, ticks), Serve(Remove(e, i), ticks));
  }
}
