/**
 What every engine operation keeps, whatever frames arrive: the session table stays well formed
 (so no sequence number, window or buffer index ever leaves its range) and no two sessions
 answer to the same frames.
 */
module TpSafety {
  import opened Can
  import opened TpWire
  import opened Seqs
  import opened TpEngine

  // ----- table surgery

  lemma SwapRemoveFacts(ss: seq<Session>, i: nat)
    requires i < |ss|
    ensures multiset(SwapRemove(ss, i)) == multiset(ss) - multiset{ss[i]}
    ensures forall s :: s in SwapRemove(ss, i) ==> s in ss
    ensures Exclusive(ss) ==> Exclusive(SwapRemove(ss, i))
  {
    SwapRemoveContents(ss, i);
    var n := |ss| - 1;
    var r := SwapRemove(ss, i);
    forall s | s in r
      ensures s in ss
    {
      var k :| 0 <= k < |r| && r[k] == s;
      assert s == ss[if k == i then n else k];
    }
    if Exclusive(ss) {
      forall x, y | 0 <= x < y < |r|
        ensures !Clash(r[x], r[y])
      {
        assert r[x] == ss[if x == i then n else x] && r[y] == ss[if y == i then n else y];
        assert Clash(r[x], r[y]) == Clash(r[y], r[x]);
      }
    }
  }

  lemma AppendKeepsExclusive(ss: seq<Session>, s: Session)
    requires Exclusive(ss)
    requires forall x :: x in ss ==> !Clash(x, s)
    ensures Exclusive(ss + [s])
  {
    var r := ss + [s];
    forall x, y | 0 <= x < y < |r|
      ensures !Clash(r[x], r[y])
    {
      assert r[x] in ss;
    }
  }

  /** Same place in the table: any frame that finds one finds the other. */
  predicate SameKey(x: Session, y: Session) {
    && x.direction == y.direction && x.source == y.source && x.destination == y.destination && x.port == y.port
    && x.pgn == y.pgn
  }

  lemma ReplaceKeepsValid(e: Engine, i: nat, s: Session)
    requires Valid(e) && i < |e.sessions| && SameKey(e.sessions[i], s) && SessionOk(s)
    ensures Valid(e.(sessions := e.sessions[i := s]))
  {
  }

  lemma RemoveKeepsValid(e: Engine, i: nat)
    requires Valid(e) && i < |e.sessions|
    ensures Valid(Remove(e, i))
  {
    SwapRemoveFacts(e.sessions, i);
  }

  // Once a session has been taken out, nothing left in the table clashes with it.
  lemma RemoveLeavesNoClash(e: Engine, i: nat, s: Session)
    requires Valid(e) && i < |e.sessions| && Clash(e.sessions[i], s)
    ensures forall x :: x in Remove(e, i).sessions ==> !Clash(x, s)
  {
    var r := Remove(e, i).sessions;
    forall x | x in r
      ensures !Clash(x, s)
    {
      var k :| 0 <= k < |r| && r[k] == x;
      var j := if k == i then |e.sessions| - 1 else k;
      assert x == e.sessions[j] && j != i;
      assert !Clash(e.sessions[Min(i, j)], e.sessions[if i < j then j else i]);
    }
  }

  lemma AppendKeepsValid(e: Engine, s: Session)
    requires Valid(e) && SessionOk(s)
    requires forall x :: x in e.sessions ==> !Clash(x, s)
    ensures Valid(e.(sessions := e.sessions + [s]))
  {
    AppendKeepsExclusive(e.sessions, s);
  }

  // ----- every operation keeps the table well formed

  lemma SendKeepsValid(e: Engine, pgn: nat, data: seq<byte>, src: byte, dst: byte, port: byte, priority: nat)
    requires Valid(e)
    ensures var r := Send(e, pgn, data, src, dst, port, priority); r.Sent? ==> Valid(r.engine)
  {
    var r := Send(e, pgn, data, src, dst, port, priority);
    if r.Sent? {
      var s := NewTransmit(pgn, data, src, dst, port, priority, e.advertised);
      forall x | x in e.sessions
        ensures !Clash(x, s)
      {
        assert !OnPath(Transmit, src, dst, port)(x);
      }
      AppendKeepsValid(e, s);
    }
  }

  lemma RtsKeepsValid(e: Engine, f: Frame, port: byte, pgn: nat)
    requires Valid(e) && pgn <= MAX_PGN && ValidSource(f.source) && ValidDestination(f.destination)
    requires f.destination != BROADCAST_ADDRESS
    ensures Valid(HandleRts(e, f, port, pgn).engine)
  {
    var total, packets, maxPerCts := CmSize(f.data), f.data[3], f.data[4];
    if PayloadShape(total, packets) && maxPerCts != 0 {
      var maxPkts: byte := Min(maxPerCts, TP_MAX_PACKETS_PER_CTS);
      var s := NewReceive(f, port, pgn, total, maxPkts, Min(packets, maxPkts));
      var existing := Position(e.sessions, OnTransfer(Receive, f.source, f.destination, port, pgn));
      var path := Position(e.sessions, OnPath(Receive, f.source, f.destination, port));
      if existing.Some? {
        assert Clash(e.sessions[existing.value], s);
        RemoveKeepsValid(e, existing.value);
        RemoveLeavesNoClash(e, existing.value, s);
        AppendKeepsValid(Remove(e, existing.value), s);
      } else if path.None? {
        forall x | x in e.sessions
          ensures !Clash(x, s)
        {
          assert !OnPath(Receive, f.source, f.destination, port)(x);
        }
        AppendKeepsValid(e, s);
      }
    }
  }

  lemma BamKeepsValid(e: Engine, f: Frame, port: byte, pgn: nat)
    requires Valid(e) && pgn <= MAX_PGN && ValidSource(f.source)
    ensures Valid(HandleBam(e, f, port, pgn).engine)
  {
    var total := CmSize(f.data);
    var s := NewReceive(f, port, pgn, total, TP_MAX_PACKETS_PER_CTS, 0);
    var existing := Position(e.sessions, OnTransfer(Receive, f.source, BROADCAST_ADDRESS, port, pgn));
    var e' := if existing.Some? then Remove(e, existing.value) else e;
    if existing.Some? {
      RemoveKeepsValid(e, existing.value);
    }
    if f.destination == BROADCAST_ADDRESS && PayloadShape(total, f.data[3]) {
      if existing.Some? {
        RemoveLeavesNoClash(e, existing.value, s);
      } else {
        forall x | x in e.sessions
          ensures !Clash(x, s)
        {
          assert !OnTransfer(Receive, f.source, BROADCAST_ADDRESS, port, pgn)(x);
        }
      }
      AppendKeepsValid(e', s);
    }
  }

  lemma CtsKeepsValid(e: Engine, f: Frame, port: byte, pgn: nat)
    requires Valid(e)
    ensures Valid(HandleCts(e, f, port, pgn).engine)
  {
    var at := Position(e.sessions, Awaiting(f.destination, f.source, port, pgn));
    if at.Some? {
      var s := e.sessions[at.value];
      assert SessionOk(s) && s.direction == Transmit;
      var verdict := OnCts(s, f.data[1], f.data[2], e.maxRetransmits);
      if verdict.Granted? {
        GrantKeepsSession(s, f.data[1], f.data[2], e.maxRetransmits);
        ReplaceKeepsValid(e, at.value, verdict.session);
      } else {
        RemoveKeepsValid(e, at.value);
      }
    }
  }

  lemma GrantKeepsSession(s: Session, packets: byte, next: byte, maxRetransmits: byte)
    requires s.direction == Transmit && SessionOk(s)
    requires s.IsBroadcast() ==> s.state == SendingData
    ensures var v := OnCts(s, packets, next, maxRetransmits);
            v.Granted? ==> SessionOk(v.session) && SameKey(s, v.session) && v.session.data == s.data
  {
  }

  lemma DtKeepsValid(e: Engine, f: Frame, port: byte)
    requires Valid(e)
    ensures Valid(HandleDt(e, f, port).engine)
  {
    var at := Position(e.sessions, Collecting(f.source, f.destination, port));
    if at.Some? {
      var i := at.value;
      var s := e.sessions[i];
      assert SessionOk(s) && s.direction == Receive;
      RemoveKeepsValid(e, i);
      if f.data[0] == s.lastSequence + 1 {
        var o := HandleDt(e, f, port);
        if o.completed == [] {
          StoredKeepsSession(s, f.data);
          ReplaceKeepsValid(e, i, o.engine.sessions[i]);
        }
      }
    }
  }

  // Storing the expected data frame of an unfinished transfer leaves a well-formed session.
  lemma StoredKeepsSession(s: Session, d: Data8)
    requires s.direction == Receive && SessionOk(s) && d[0] == s.lastSequence + 1
    requires Stored(s, d).transferred < s.total
    ensures var s' := Stored(s, d);
            && s'.lastSequence < Packets(s.total) && s'.transferred == 7 * s'.lastSequence
            && SameKey(s, s')
            && (s.IsBroadcast() || d[0] - (s.windowStart - 1) < s.windowSize ==> SessionOk(s'))
            && (!s.IsBroadcast() ==>
                  SessionOk(s'.(windowStart := d[0] + 1, windowSize := Min(Packets(s.total) - d[0], s.maxPerCts))))
  {
  }

  lemma FrameKeepsValid(e: Engine, f: Frame, port: byte)
    requires Valid(e)
    ensures Valid(ProcessFrame(e, f, port).engine)
  {
    if f.length >= 8 && ValidSource(f.source) && ValidDestination(f.destination) {
      var pgn := CmPgn(f.data);
      if f.pgn == PGN_TP_DT {
        DtKeepsValid(e, f, port);
      } else if f.pgn == PGN_TP_CM && pgn <= MAX_PGN && (f.data[0] == BAM || f.destination != BROADCAST_ADDRESS) {
        if f.data[0] == RTS {
          RtsKeepsValid(e, f, port, pgn);
        } else if f.data[0] == CTS {
          CtsKeepsValid(e, f, port, pgn);
        } else if f.data[0] == EOMA {
          var at := Position(e.sessions, OnTransfer(Transmit, f.destination, f.source, port, pgn));
          if at.Some? { RemoveKeepsValid(e, at.value); }
        } else if f.data[0] == BAM {
          BamKeepsValid(e, f, port, pgn);
        } else if f.data[0] == ABORT {
          var at := Position(e.sessions, BetweenEither(f.source, f.destination, port, pgn));
          if at.Some? { RemoveKeepsValid(e, at.value); }
        }
      }
    }
  }

  // ----- emitting data

  lemma {:induction false} GenerateFacts(s: Session, count: nat)
    requires s.direction == Transmit && SessionOk(s)
    ensures var (s', frames) := Generate(s, count);
            && s'.lastSequence <= Packets(s.total)
            && s'.transferred == Min(7 * s'.lastSequence, s.total)
            && s' == s.(lastSequence := s'.lastSequence, transferred := s'.transferred)
            && s'.lastSequence == s.lastSequence + |frames|
            && |frames| == Min(count, Packets(s.total) - s.lastSequence)
            && (forall k :: 0 <= k < |frames| ==>
                  frames[k]
                  == MakeDt(s.source, s.destination, s.lastSequence + 1 + k, s.data, 7 * (s.lastSequence + k)))
    decreases count
  {
    if count > 0 && s.transferred < s.total {
      var s1 := AfterDt(s);
      GenerateStep(s);
      if s1.transferred < s1.total {
        GenerateFacts(s1, count - 1);
      }
      var (s', frames) := Generate(s, count);
      var (_, rest) := Generate(s1, count - 1);
      assert frames == [NextDt(s)] + rest;
    }
  }

  lemma GenerateStep(s: Session)
    requires s.direction == Transmit && SessionOk(s) && s.transferred < s.total
    ensures var s1 := AfterDt(s);
            && s1 == s.(lastSequence := s.lastSequence + 1, transferred := Min(7 * (s.lastSequence + 1), s.total))
            && s1.lastSequence <= Packets(s.total)
            && NextDt(s) == MakeDt(s.source, s.destination, s.lastSequence + 1, s.data, 7 * s.lastSequence)
            && (s1.transferred < s1.total ==> SessionOk(s1))
            && (s1.transferred >= s1.total ==> s1.lastSequence == Packets(s.total))
  {
  }

  lemma DrainSessionFacts(s: Session)
    requires SessionOk(s)
    ensures var (s', frames) := DrainSession(s);
            SessionOk(s') && SameKey(s, s') && s'.data == s.data && s'.total == s.total
            && (s.direction == Receive ==> s' == s && frames == [])
  {
    if s.state == SendingData && s.direction == Transmit && !s.IsBroadcast() {
      GenerateFacts(s, s.packetsToSend);
    }
  }

  lemma {:induction false} DrainAllFacts(ss: seq<Session>)
    requires forall s :: s in ss ==> SessionOk(s)
    ensures var r := DrainAll(ss).0;
            |r| == |ss| && forall k :: 0 <= k < |ss| ==> r[k] == DrainSession(ss[k]).0
    ensures forall f :: f in DrainAll(ss).1 ==> exists k :: 0 <= k < |ss| && f in DrainSession(ss[k]).1
  {
    if ss != [] {
      assert forall s :: s in ss[1..] ==> s in ss;
      DrainAllFacts(ss[1..]);
      assert forall k :: 1 <= k < |ss| ==> ss[k] == ss[1..][k - 1];
      forall f | f in DrainAll(ss).1
        ensures exists k :: 0 <= k < |ss| && f in DrainSession(ss[k]).1
      {
        if f !in DrainSession(ss[0]).1 {
          var k :| 0 <= k < |ss[1..]| && f in DrainSession(ss[1..][k]).1;
          assert f in DrainSession(ss[k + 1]).1;
        }
      }
    }
  }

  lemma DrainKeepsValid(e: Engine)
    requires Valid(e)
    ensures Valid(PendingData(e).engine)
  {
    DrainAllFacts(e.sessions);
    var r := PendingData(e).engine.sessions;
    forall k | 0 <= k < |r|
      ensures SessionOk(r[k]) && SameKey(e.sessions[k], r[k])
    {
      DrainSessionFacts(e.sessions[k]);
    }
  }

  // ----- timers

  lemma TickKeepsSession(s: Session, elapsed: nat)
    requires SessionOk(s)
    ensures var t := TickSession(s, elapsed);
            t.Alive? ==> SessionOk(t.session) && SameKey(s, t.session) && t.session.data == s.data
                         && t.session.total == s.total && t.session.transferred >= s.transferred
                         && (s.direction == Receive ==> t.session == s.(timer := t.session.timer) && t.sent == [])
  {
    if s.direction == Transmit {
      GenerateFacts(s.(timer := 0), 1);
    }
  }

  lemma {:induction false} UpdateFromKeepsValid(e: Engine, i: nat, elapsed: nat)
    requires Valid(e) && i <= |e.sessions|
    ensures Valid(UpdateFrom(e, i, elapsed).engine)
    decreases |e.sessions| - i
  {
    if i < |e.sessions| {
      var s := e.sessions[i];
      TickKeepsSession(s, elapsed);
      match TickSession(s, elapsed) {
        case Alive(s', _) =>
          ReplaceKeepsValid(e, i, s');
          UpdateFromKeepsValid(e.(sessions := e.sessions[i := s']), i + 1, elapsed);
        case _ =>
          RemoveKeepsValid(e, i);
          UpdateFromKeepsValid(Remove(e, i), i, elapsed);
      }
    }
  }

  lemma {:induction false} WithoutFacts(ss: seq<Session>, port: byte, address: byte)
    ensures forall s :: s in Without(ss, port, address) <==>
                        s in ss && (s.port != port || (s.source != address && s.destination != address))
    ensures Exclusive(ss) ==> Exclusive(Without(ss, port, address))
  {
    if ss != [] {
      WithoutFacts(ss[1..], port, address);
      var rest := Without(ss[1..], port, address);
      if Exclusive(ss) {
        assert forall i, j :: 0 <= i < j < |ss[1..]| ==> ss[1..][i] == ss[i + 1] && ss[1..][j] == ss[j + 1];
        assert Exclusive(ss[1..]);
        assert forall y :: y in rest ==> exists k :: 1 <= k < |ss| && ss[k] == y;
        assert forall y :: y in rest ==> !Clash(ss[0], y);
      }
    }
  }
}
