/**
 Where the transport engine stops short of what its comments aim for. Data frames carry no PGN, so two
 receive sessions on one path can be confused.
 */
module TpLimits {
  import opened Can
  import opened TpWire
  import opened Seqs
  import opened TpEngine
  import opened TpSafety
  import opened TpNetwork

  // ----- one receive session per data path

  /** A data frame can belong to at most one receive session. */
  ghost predicate PathsDistinct(ss: seq<Session>) {
    forall i, j :: 0 <= i < j < |ss| && ss[i].direction == ss[j].direction == Receive ==>
                   !(ss[i].source == ss[j].source && ss[i].destination == ss[j].destination && ss[i].port == ss[j].port)
  }

  /** A BAM the engine accepts while a broadcast of another PGN from the same source is still open. */
  ghost predicate OverlappingBam(e: Engine, f: Frame, port: byte) {
    && f.pgn == PGN_TP_CM && f.length >= 8 && ValidSource(f.source)
    && f.data[0] == BAM && f.destination == BROADCAST_ADDRESS && CmPgn(f.data) <= MAX_PGN
    && PayloadShape(CmSize(f.data), f.data[3]) && CmSize(f.data) <= e.maxReceive
    && |e.sessions| - (if Position(e.sessions,
                                   OnTransfer(Receive, f.source, BROADCAST_ADDRESS, port, CmPgn(f.data))).Some?
                       then 1 else 0) < e.maxSessions
    && exists s :: s in e.sessions && OnPath(Receive, f.source, BROADCAST_ADDRESS, port)(s) && s.pgn != CmPgn(f.data)
  }

  lemma RemoveKeepsPaths(ss: seq<Session>, i: nat)
    requires PathsDistinct(ss) && i < |ss|
    ensures PathsDistinct(SwapRemove(ss, i))
  {
    var r := SwapRemove(ss, i);
    var n := |ss| - 1;
    forall x, y | 0 <= x < y < |r| && r[x].direction == r[y].direction == Receive
      ensures !(r[x].source == r[y].source && r[x].destination == r[y].destination && r[x].port == r[y].port)
    {
      var x', y' := if x == i then n else x, if y == i then n else y;
      assert r[x] == ss[x'] && r[y] == ss[y'];
      assert x' < y' || y' < x';
    }
  }

  lemma ReplaceKeepsPaths(ss: seq<Session>, i: nat, s: Session)
    requires PathsDistinct(ss) && i < |ss| && SameKey(ss[i], s)
    ensures PathsDistinct(ss[i := s])
  {
  }

  lemma AppendKeepsPaths(ss: seq<Session>, s: Session)
    requires PathsDistinct(ss)
    requires forall x :: x in ss && s.direction == Receive ==> !OnPath(Receive, s.source, s.destination, s.port)(x)
    ensures PathsDistinct(ss + [s])
  {
    var r := ss + [s];
    forall x, y | 0 <= x < y < |r| && r[x].direction == r[y].direction == Receive
      ensures !(r[x].source == r[y].source && r[x].destination == r[y].destination && r[x].port == r[y].port)
    {
      assert r[x] in ss;
    }
  }

  lemma RtsKeepsPaths(e: Engine, f: Frame, port: byte, pgn: nat)
    requires Valid(e) && PathsDistinct(e.sessions) && f.destination != BROADCAST_ADDRESS
    ensures PathsDistinct(HandleRts(e, f, port, pgn).engine.sessions)
  {
    var existing := Position(e.sessions, OnTransfer(Receive, f.source, f.destination, port, pgn));
    var total, packets, maxPerCts := CmSize(f.data), f.data[3], f.data[4];
    if PayloadShape(total, packets) && maxPerCts != 0 {
      var maxPkts: byte := Min(maxPerCts, TP_MAX_PACKETS_PER_CTS);
      var s := NewReceive(f, port, pgn, total, maxPkts, Min(packets, maxPkts));
      if existing.Some? {
        RemoveKeepsPaths(e.sessions, existing.value);
        RemoveLeavesNoClash(e, existing.value, s);
        forall x | x in Remove(e, existing.value).sessions
          ensures !OnPath(Receive, f.source, f.destination, port)(x)
        {
          assert !Clash(x, s);
        }
        AppendKeepsPaths(Remove(e, existing.value).sessions, s);
      } else if Position(e.sessions, OnPath(Receive, f.source, f.destination, port)).None? {
        AppendKeepsPaths(e.sessions, s);
      }
    }
  }

  lemma BamPaths(e: Engine, f: Frame, port: byte, pgn: nat)
    requires Valid(e) && PathsDistinct(e.sessions) && ValidSource(f.source)
    requires pgn <= MAX_PGN && pgn == CmPgn(f.data) && f.data[0] == BAM && f.pgn == PGN_TP_CM && f.length >= 8
    ensures PathsDistinct(HandleBam(e, f, port, pgn).engine.sessions) <==> !OverlappingBam(e, f, port)
  {
    var existing := Position(e.sessions, OnTransfer(Receive, f.source, BROADCAST_ADDRESS, port, pgn));
    var e' := if existing.Some? then Remove(e, existing.value) else e;
    if existing.Some? {
      RemoveKeepsPaths(e.sessions, existing.value);
      SwapRemoveFacts(e.sessions, existing.value);
    }
    var total := CmSize(f.data);
    if f.destination == BROADCAST_ADDRESS && PayloadShape(total, f.data[3]) && total <= e.maxReceive
       && |e'.sessions| < e.maxSessions {
      var s := NewReceive(f, port, pgn, total, TP_MAX_PACKETS_PER_CTS, 0);
      if OverlappingBam(e, f, port) {
        var x :| x in e.sessions && OnPath(Receive, f.source, BROADCAST_ADDRESS, port)(x) && x.pgn != pgn;
        OtherSurvives(e.sessions, existing, x);
        var k :| 0 <= k < |e'.sessions| && e'.sessions[k] == x;
        var r := e'.sessions + [s];
        assert r[k] == x && r[|e'.sessions|] == s;
      } else {
        forall x | x in e'.sessions
          ensures !OnPath(Receive, f.source, BROADCAST_ADDRESS, port)(x)
        {
          if existing.Some? {
            RemoveLeavesNoClash(e, existing.value, s);
            assert x in e.sessions && !Clash(x, s);
          }
        }
        AppendKeepsPaths(e'.sessions, s);
      }
    }
  }

  lemma OtherSurvives(ss: seq<Session>, removed: Option<nat>, x: Session)
    requires x in ss && (removed.Some? ==> removed.value < |ss| && ss[removed.value] != x)
    ensures x in (if removed.Some? then SwapRemove(ss, removed.value) else ss)
  {
    if removed.Some? {
      SwapRemoveFacts(ss, removed.value);
      assert x in multiset(SwapRemove(ss, removed.value));
    }
  }

  // MAIN RESULT. Each arriving frame leaves the receive paths unambiguous, except exactly when it
  // is a BAM accepted on top of an open broadcast of another PGN from the same source.
  lemma PathsStayDistinctIff(e: Engine, f: Frame, port: byte)
    requires Valid(e) && PathsDistinct(e.sessions)
    ensures PathsDistinct(ProcessFrame(e, f, port).engine.sessions) <==> !OverlappingBam(e, f, port)
  {
    if f.length >= 8 && ValidSource(f.source) && ValidDestination(f.destination) {
      var pgn := CmPgn(f.data);
      if f.pgn == PGN_TP_DT {
        DataKeepsPaths(e, f, port);
      } else if f.pgn == PGN_TP_CM && pgn <= MAX_PGN && (f.data[0] == BAM || f.destination != BROADCAST_ADDRESS) {
        if f.data[0] == RTS {
          RtsKeepsPaths(e, f, port, pgn);
        } else if f.data[0] == CTS {
          CtsKeepsPaths(e, f, port, pgn);
        } else if f.data[0] == BAM {
          BamPaths(e, f, port, pgn);
        } else {
          var at := if f.data[0] == EOMA
                    then Position(e.sessions, OnTransfer(Transmit, f.destination, f.source, port, pgn))
                    else Position(e.sessions, BetweenEither(f.source, f.destination, port, pgn));
          if at.Some? { RemoveKeepsPaths(e.sessions, at.value); }
        }
      }
    }
  }

  lemma DataKeepsPaths(e: Engine, f: Frame, port: byte)
    requires Valid(e) && PathsDistinct(e.sessions)
    ensures PathsDistinct(HandleDt(e, f, port).engine.sessions)
  {
    var at := Position(e.sessions, Collecting(f.source, f.destination, port));
    if at.Some? {
      RemoveKeepsPaths(e.sessions, at.value);
      assert SessionOk(e.sessions[at.value]);
      if f.data[0] == e.sessions[at.value].lastSequence + 1 && HandleDt(e, f, port).completed == [] {
        ReplaceKeepsPaths(e.sessions, at.value, HandleDt(e, f, port).engine.sessions[at.value]);
      }
    }
  }

  lemma CtsKeepsPaths(e: Engine, f: Frame, port: byte, pgn: nat)
    requires Valid(e) && PathsDistinct(e.sessions)
    ensures PathsDistinct(HandleCts(e, f, port, pgn).engine.sessions)
  {
    var at := Position(e.sessions, Awaiting(f.destination, f.source, port, pgn));
    if at.Some? {
      RemoveKeepsPaths(e.sessions, at.value);
      assert SessionOk(e.sessions[at.value]) && e.sessions[at.value].direction == Transmit;
      var v := OnCts(e.sessions[at.value], f.data[1], f.data[2], e.maxRetransmits);
      if v.Granted? {
        GrantKeepsSession(e.sessions[at.value], f.data[1], f.data[2], e.maxRetransmits);
        ReplaceKeepsPaths(e.sessions, at.value, v.session);
      }
    }
  }

  // ----- what goes wrong

  function After(e: Table, op: Op): Table {
    ApplyKeepsValid(e, op);
    Apply(e, op).engine
  }

  lemma BamOpens(e: Table, src: byte, g: nat, total: nat, port: byte)
    requires ValidSource(src) && g <= MAX_PGN && 8 < total <= e.maxReceive && |e.sessions| < e.maxSessions
    requires forall s :: s in e.sessions ==> s.pgn != g
    ensures var f := MakeBam(g, total, src);
            After(e, FrameOp(f, port)) ==
            e.(sessions := e.sessions + [NewReceive(f, port, g, total, TP_MAX_PACKETS_PER_CTS, 0)])
  {
    HeaderRoundTrip(g, total, src, BROADCAST_ADDRESS, 0);
    assert Position(e.sessions, OnTransfer(Receive, src, BROADCAST_ADDRESS, port, g)).None?;
  }

  // The first session of the table takes the data frame it is waiting for.
  lemma HeadStores(e: Table, f: Frame, port: byte)
    requires f.pgn == PGN_TP_DT && f.length == 8 && ValidSource(f.source) && ValidDestination(f.destination)
    requires e.sessions != [] && Collecting(f.source, f.destination, port)(e.sessions[0])
    requires f.data[0] == e.sessions[0].lastSequence + 1
    ensures Position(e.sessions, Collecting(f.source, f.destination, port)) == Some(0)
    ensures var s := Stored(e.sessions[0], f.data);
            && (s.transferred >= s.total ==> Apply(e, FrameOp(f, port)).completed == [s.(state := Complete)])
            && (s.transferred < s.total && s.IsBroadcast() ==>
                  After(e, FrameOp(f, port)) == e.(sessions := e.sessions[0 := s]))
  {
    assert SessionOk(e.sessions[0]);
  }

  lemma TwoFramesFillPayload(data: seq<byte>, src: byte, dst: byte, p: seq<byte>)
    requires |data| == |p| && 8 < |p| <= 14
    ensures Ingest(Ingest(data, 0, MakeDt(src, dst, 1, p, 0).data), 7, MakeDt(src, dst, 2, p, 7).data) == p
  {
  }

  /** A BAM that is dropped as malformed. */
  ghost predicate MalformedBam(e: Engine, f: Frame) {
    && f.pgn == PGN_TP_CM && f.length >= 8 && ValidSource(f.source) && ValidDestination(f.destination)
    && f.data[0] == BAM && CmPgn(f.data) <= MAX_PGN
    && (f.destination != BROADCAST_ADDRESS || !PayloadShape(CmSize(f.data), f.data[3]) || CmSize(f.data) > e.maxReceive)
  }

  // MAIN RESULT. A malformed BAM opens nothing, but it is without effect exactly when no broadcast of its PGN
  // from its source is open: such a broadcast it ends.
  lemma MalformedBamIgnoredIff(e: Table, f: Frame, port: byte)
    requires MalformedBam(e, f)
    ensures var o := ProcessFrame(e, f, port);
            var ofBam := OnTransfer(Receive, f.source, BROADCAST_ADDRESS, port, CmPgn(f.data));
            && o.frames == [] && o.completed == []
            && (o.engine == e <==> forall s :: s in e.sessions ==> !ofBam(s))
            && (forall s :: s in o.engine.sessions <==> s in e.sessions && !ofBam(s))
  {
    var ofBam := OnTransfer(Receive, f.source, BROADCAST_ADDRESS, port, CmPgn(f.data));
    var at := Position(e.sessions, ofBam);
    if at.Some? {
      SwapRemoveFacts(e.sessions, at.value);
      RemoveLeavesNoClash(e, at.value, e.sessions[at.value]);
      assert e.sessions[at.value] in e.sessions;
      forall s | s in e.sessions && !ofBam(s)
        ensures s in Remove(e, at.value).sessions
      {
        assert s in multiset(e.sessions) - multiset{e.sessions[at.value]};
      }
    }
  }

  // The confusion: announce PGN g1, announce PGN g2, send the data of g2. It arrives as g1.
  lemma BroadcastArrivesUnderWrongPgn(src: byte, g1: nat, g2: nat, p: seq<byte>, port: byte)
    requires g1 != g2 && g1 <= MAX_PGN && g2 <= MAX_PGN && 8 < |p| <= 14 && ValidSource(src)
    ensures var e1 := After(Fresh(1785, 32, 3, 16), FrameOp(MakeBam(g1, |p|, src), port));
            var e2 := After(e1, FrameOp(MakeBam(g2, |p|, src), port));
            var e3 := After(e2, FrameOp(MakeDt(src, BROADCAST_ADDRESS, 1, p, 0), port));
            var done := Apply(e3, FrameOp(MakeDt(src, BROADCAST_ADDRESS, 2, p, 7), port)).completed;
            |done| == 1 && done[0].pgn == g1 && done[0].data == p
  {
    var f1, f2 := MakeBam(g1, |p|, src), MakeBam(g2, |p|, src);
    var d1, d2 := MakeDt(src, BROADCAST_ADDRESS, 1, p, 0), MakeDt(src, BROADCAST_ADDRESS, 2, p, 7);
    var s1 := NewReceive(f1, port, g1, |p|, 16, 0);
    BamOpens(Fresh(1785, 32, 3, 16), src, g1, |p|, port);
    var e1 := After(Fresh(1785, 32, 3, 16), FrameOp(f1, port));
    BamOpens(e1, src, g2, |p|, port);
    var e2 := After(e1, FrameOp(f2, port));
    assert e2.sessions[0] == s1;
    HeadStores(e2, d1, port);
    var e3 := After(e2, FrameOp(d1, port));
    HeadStores(e3, d2, port);
    TwoFramesFillPayload(s1.data, src, BROADCAST_ADDRESS, p);
  }
}
