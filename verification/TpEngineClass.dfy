/**
 The transport engine as the mutable object it is: a session table edited in place by index loops,
 swap removals and byte-by-byte copying. Every method is proved to compute the function of the same
 name in `TpEngine`, so the theorems of `TpSafety`, `TpNetwork` and `TpProgress` are about it.
 */
module TpEngineClass {
  import opened Can
  import opened TpWire
  import opened Seqs
  import opened TpEngine
  import opened TpSafety

  class TransportProtocol {
    var sessions: seq<Session>
    var maxReceive: nat
    var maxSessions: nat
    var maxRetransmits: byte
    var advertised: byte

    function Table(): Engine
      reads this
    {
      Engine(sessions, maxReceive, maxSessions, maxRetransmits, advertised)
    }

    constructor (maxReceive: nat, maxSessions: nat, maxRetransmits: byte, advertised: byte)
      ensures Table() == Fresh(maxReceive, maxSessions, maxRetransmits, advertised) && Valid(Table())
    {
      this.sessions := [];
      this.maxReceive := Min(maxReceive, TP_MAX_DATA_LENGTH);
      this.maxSessions := maxSessions;
      this.maxRetransmits := maxRetransmits;
      this.advertised := if advertised < 1 then 1 else if advertised > 16 then 16 else advertised;
    }

    method FindSession(p: Session -> bool) returns (r: Option<nat>)
      ensures r == Position(sessions, p)
    {
      r := None;
      var i := 0;
      while i < |sessions|
        invariant 0 <= i <= |sessions|
        invariant forall j :: 0 <= j < i ==> !p(sessions[j])
      {
        if p(sessions[i]) {
          return Some(i);
        }
        i := i + 1;
      }
    }

    method RemoveSession(i: nat) returns (s: Session)
      requires i < |sessions|
      modifies this`sessions
      ensures s == old(sessions)[i] && sessions == SwapRemove(old(sessions), i)
    {
      s := sessions[i];
      var last := |sessions| - 1;
      sessions := sessions[i := sessions[last]];
      sessions := sessions[..last];
    }

    method Send(pgn: nat, data: seq<byte>, src: byte, dst: byte, port: byte, priority: nat) returns (r: SendResult)
      modifies this`sessions
      ensures r == TpEngine.Send(old(Table()), pgn, data, src, dst, port, priority)
      ensures r.Sent? ==> Table() == r.engine
      ensures r.Rejected? ==> Table() == old(Table())
      ensures old(Valid(Table())) ==> Valid(Table())
    {
      SendKeepsValidIfValid(pgn, data, src, dst, port, priority);
      if pgn > MAX_PGN {
        return Rejected(InvalidData);
      }
      if !ValidSource(src) || !ValidDestination(dst) {
        return Rejected(InvalidAddress);
      }
      if |data| > TP_MAX_DATA_LENGTH {
        return Rejected(BufferOverflow);
      }
      if |data| <= 8 {
        return Rejected(InvalidState);
      }
      var active := FindSession(OnPath(Transmit, src, dst, port));
      if active.Some? {
        return Rejected(SessionExists);
      }
      if |sessions| >= maxSessions {
        return Rejected(NoResources);
      }
      var state := WaitingForCTS;
      var first;
      if dst == BROADCAST_ADDRESS {
        state := SendingData;
        first := MakeBam(pgn, |data|, src);
      } else {
        first := MakeRts(pgn, |data|, src, dst, advertised);
      }
      sessions := sessions + [Session(Transmit, state, pgn, data, |data|, 0, src, dst, port, priority,
                                      0, 0, advertised, TP_MAX_PACKETS_PER_CTS, 1, 0, 0, 0)];
      r := Sent(Table(), [first]);
    }

    lemma SendKeepsValidIfValid(pgn: nat, data: seq<byte>, src: byte, dst: byte, port: byte, priority: nat)
      ensures var r := TpEngine.Send(Table(), pgn, data, src, dst, port, priority);
              Valid(Table()) && r.Sent? ==> Valid(r.engine)
    {
      if Valid(Table()) {
        SendKeepsValid(Table(), pgn, data, src, dst, port, priority);
      }
    }

    method ProcessFrame(f: Frame, port: byte) returns (frames: seq<Frame>, completed: seq<Session>)
      requires Valid(Table())
      modifies this`sessions
      ensures Valid(Table())
      ensures Outcome(Table(), frames, completed) == TpEngine.ProcessFrame(old(Table()), f, port)
    {
      FrameKeepsValid(Table(), f, port);
      frames, completed := [], [];
      if f.pgn == PGN_TP_CM || f.pgn == PGN_TP_DT {
        if f.length < 8 || !ValidSource(f.source) || !ValidDestination(f.destination) {
          return;
        }
        if f.pgn == PGN_TP_CM {
          frames, completed := HandleCm(f, port);
        } else {
          frames, completed := HandleDt(f, port);
        }
      }
    }

    method HandleCm(f: Frame, port: byte) returns (frames: seq<Frame>, completed: seq<Session>)
      requires Valid(Table())
      modifies this`sessions
      ensures Outcome(Table(), frames, completed) == TpEngine.HandleCm(old(Table()), f, port)
    {
      frames, completed := [], [];
      var pgn := CmPgn(f.data);
      var control := f.data[0];
      if pgn > MAX_PGN || (control != BAM && f.destination == BROADCAST_ADDRESS) {
        return;
      }
      if control == RTS {
        frames := HandleRts(f, port, pgn);
      } else if control == CTS {
        frames := HandleCts(f, port, pgn);
      } else if control == EOMA {
        var at := FindSession(OnTransfer(Transmit, f.destination, f.source, port, pgn));
        if at.Some? {
          var s := sessions[at.value];
          if s.state == WaitingForEndOfMsg && CmSize(f.data) == s.total && f.data[3] == Packets(s.total) % 256 {
            s := RemoveSession(at.value);
            completed := [s.(state := Complete)];
          }
        }
      } else if control == BAM {
        HandleBam(f, port, pgn);
      } else if control == ABORT {
        var at := FindSession(BetweenEither(f.source, f.destination, port, pgn));
        if at.Some? {
          var _ := RemoveSession(at.value);
        }
      }
    }

    method HandleRts(f: Frame, port: byte, pgn: nat) returns (frames: seq<Frame>)
      modifies this`sessions
      ensures Outcome(Table(), frames, []) == TpEngine.HandleRts(old(Table()), f, port, pgn)
    {
      var total, packets, maxPerCts := CmSize(f.data), f.data[3], f.data[4];
      if !PayloadShape(total, packets) || maxPerCts == 0 {
        return [MakeAbort(f.destination, f.source, pgn, UnexpectedDataSize)];
      }
      var existing := FindSession(OnTransfer(Receive, f.source, f.destination, port, pgn));
      if existing.Some? {
        var _ := RemoveSession(existing.value);
      } else {
        var path := FindSession(OnPath(Receive, f.source, f.destination, port));
        if path.Some? {
          return [MakeAbort(f.destination, f.source, pgn, AlreadyInSession)];
        }
      }
      if |sessions| >= maxSessions || total > maxReceive {
        return [MakeAbort(f.destination, f.source, pgn, ResourcesUnavailable)];
      }
      var maxPkts: byte := Min(maxPerCts, TP_MAX_PACKETS_PER_CTS);
      var window: byte := Min(packets, maxPkts);
      sessions := sessions + [NewReceive(f, port, pgn, total, maxPkts, window)];
      frames := [MakeCts(f.destination, f.source, window, 1, pgn)];
    }

    method HandleBam(f: Frame, port: byte, pgn: nat)
      modifies this`sessions
      ensures Idle(Table()) == TpEngine.HandleBam(old(Table()), f, port, pgn)
    {
      var total := CmSize(f.data);
      var existing := FindSession(OnTransfer(Receive, f.source, BROADCAST_ADDRESS, port, pgn));
      if existing.Some? {
        var _ := RemoveSession(existing.value);
      }
      if f.destination != BROADCAST_ADDRESS || !PayloadShape(total, f.data[3]) || total > maxReceive {
        return;
      }
      if |sessions| >= maxSessions {
        return;
      }
      sessions := sessions + [NewReceive(f, port, pgn, total, TP_MAX_PACKETS_PER_CTS, 0)];
    }

    method HandleCts(f: Frame, port: byte, pgn: nat) returns (frames: seq<Frame>)
      requires Valid(Table())
      modifies this`sessions
      ensures Outcome(Table(), frames, []) == TpEngine.HandleCts(old(Table()), f, port, pgn)
    {
      frames := [];
      var at := FindSession(Awaiting(f.destination, f.source, port, pgn));
      if at.None? {
        return;
      }
      var s := sessions[at.value];
      assert SessionOk(s) && s.direction == Transmit;
      match OnCts(s, f.data[1], f.data[2], maxRetransmits) {
        case Granted(s') => sessions := sessions[at.value := s'];
        case Denied(reason) =>
          var _ := RemoveSession(at.value);
          frames := [SessionAbort(s, reason)];
      }
    }

    method HandleDt(f: Frame, port: byte) returns (frames: seq<Frame>, completed: seq<Session>)
      requires Valid(Table())
      modifies this`sessions
      ensures Outcome(Table(), frames, completed) == TpEngine.HandleDt(old(Table()), f, port)
    {
      frames, completed := [], [];
      var at := FindSession(Collecting(f.source, f.destination, port));
      if at.None? {
        return;
      }
      var i := at.value;
      var s := sessions[i];
      assert SessionOk(s);
      var sequence := f.data[0];
      if sequence != s.lastSequence + 1 {
        var reason := if sequence != 0 && sequence <= s.lastSequence then DuplicateSequence else BadSequence;
        if !s.IsBroadcast() {
          frames := [SessionAbort(s, reason)];
        }
        var _ := RemoveSession(i);
        return;
      }
      var data := CopyChunk(s.data, 7 * (sequence as int - 1), f.data);
      s := s.(data := data, transferred := Min(7 * (sequence as int - 1) + 7, s.total), lastSequence := sequence,
              timer := 0);
      assert s == Stored(sessions[i], f.data);
      if s.transferred >= s.total {
        var _ := RemoveSession(i);
        if !s.IsBroadcast() {
          frames := [MakeEoma(s.destination, s.source, s.total, Packets(s.total) % 256, s.pgn)];
        }
        completed := [s.(state := Complete)];
        return;
      }
      if !s.IsBroadcast() && sequence - (s.windowStart - 1) >= s.windowSize {
        var next: byte := Min(Packets(s.total) - sequence, s.maxPerCts);
        s := s.(windowStart := sequence + 1, windowSize := next);
        frames := [MakeCts(s.destination, s.source, next, sequence + 1, s.pgn)];
      }
      sessions := sessions[i := s];
    }

    static method CopyChunk(data: seq<byte>, offset: nat, d: Data8) returns (r: seq<byte>)
      ensures r == Ingest(data, offset, d)
    {
      r := data;
      for i := 0 to 7
        invariant |r| == |data|
        invariant forall k :: 0 <= k < |data| ==>
                    r[k] == if offset <= k < offset + i then d[k - offset + 1] else data[k]
      {
        if offset + i < |data| {
          r := r[offset + i := d[i + 1]];
        }
      }
    }

    static method GenerateFrames(s0: Session, count: nat) returns (s: Session, frames: seq<Frame>)
      ensures s == Generate(s0, count).0 && frames == Generate(s0, count).1
    {
      s, frames := s0, [];
      var k := 0;
      while k < count && s.transferred < s.total
        invariant 0 <= k <= count
        invariant Generate(s0, count).0 == Generate(s, count - k).0
        invariant Generate(s0, count).1 == frames + Generate(s, count - k).1
      {
        var chunk := [0xFF, 0xFF, 0xFF, 0xFF, 0xFF, 0xFF, 0xFF];
        for j := 0 to 7
          invariant |chunk| == 7
          invariant forall i :: 0 <= i < 7 ==> chunk[i] == if i < j then StreamByte(s.data, s.transferred + i) else 0xFF
        {
          if s.transferred + j < |s.data| {
            chunk := chunk[j := s.data[s.transferred + j]];
          }
        }
        var sequence: byte := (s.lastSequence + 1) % 256;
        var f := Frame(PGN_TP_DT, s.source, s.destination, LOWEST_PRIORITY, [sequence] + chunk, 8);
        assert f == NextDt(s);
        ghost var rest := Generate(AfterDt(s), count - k - 1).1;
        assert frames + ([f] + rest) == (frames + [f]) + rest;
        frames := frames + [f];
        s := s.(lastSequence := sequence, transferred := Min(s.transferred + 7, s.total));
        k := k + 1;
      }
      assert Generate(s, count - k) == (s, []);
    }

    method DrainAt(i: nat) returns (frames: seq<Frame>)
      requires i < |sessions|
      modifies this`sessions
      ensures sessions == old(sessions)[i := DrainSession(old(sessions)[i]).0]
      ensures frames == DrainSession(old(sessions)[i]).1
    {
      frames := [];
      var s := sessions[i];
      if s.state == SendingData && s.direction == Transmit && !s.IsBroadcast() {
        s, frames := GenerateFrames(s, s.packetsToSend);
        if s.transferred >= s.total {
          s := s.(state := WaitingForEndOfMsg, timer := 0);
        } else {
          s := s.(state := WaitingForCTS, timer := 0);
        }
        sessions := sessions[i := s];
      }
    }

    /** The drained front of the table, followed by draining the rest, is the whole drain. */
    static ghost predicate Drained(all: (seq<Session>, seq<Frame>), ss: seq<Session>, i: nat, frames: seq<Frame>)
      requires i <= |ss|
    {
      all.0 == ss[..i] + DrainAll(ss[i..]).0 && all.1 == frames + DrainAll(ss[i..]).1
    }

    static lemma DrainedStep(all: (seq<Session>, seq<Frame>), ss: seq<Session>, i: nat, frames: seq<Frame>)
      requires i < |ss| && Drained(all, ss, i, frames)
      ensures Drained(all, ss[i := DrainSession(ss[i]).0], i + 1, frames + DrainSession(ss[i]).1)
    {
      var (s, sent) := DrainSession(ss[i]);
      var ss' := ss[i := s];
      assert ss[i..][0] == ss[i] && ss[i..][1..] == ss[i + 1..] == ss'[i + 1..];
      assert ss'[..i + 1] == ss[..i] + [s];
    }

    method GetPendingDataFrames() returns (frames: seq<Frame>)
      requires Valid(Table())
      modifies this`sessions
      ensures Valid(Table())
      ensures Outcome(Table(), frames, []) == PendingData(old(Table()))
    {
      DrainKeepsValid(Table());
      frames := [];
      ghost var all := DrainAll(sessions);
      assert sessions[0..] == sessions;
      var i := 0;
      while i < |sessions|
        invariant 0 <= i <= |sessions|
        invariant Drained(all, sessions, i, frames)
      {
        DrainedStep(all, sessions, i, frames);
        var more := DrainAt(i);
        frames := frames + more;
        i := i + 1;
      }
      assert sessions[i..] == [] && sessions[..i] == sessions;
    }

    static ghost predicate Visit(e: Engine, i: nat, elapsed: nat, e': Engine, gone: bool, frames: seq<Frame>,
                                 completed: seq<Session>)
      requires i < |e.sessions| && SessionOk(e.sessions[i])
    {
      match TickSession(e.sessions[i], elapsed)
      case Alive(s, sent) => !gone && e' == e.(sessions := e.sessions[i := s]) && frames == sent && completed == []
      case Finished(s, sent) => gone && e' == Remove(e, i) && frames == sent && completed == [s]
      case Expired(sent) => gone && e' == Remove(e, i) && frames == sent && completed == []
    }

    static lemma VisitUnfolds(e: Engine, i: nat, elapsed: nat, e': Engine, gone: bool, sent: seq<Frame>,
                              done: seq<Session>)
      requires Valid(e) && i < |e.sessions| && SessionOk(e.sessions[i])
      requires Visit(e, i, elapsed, e', gone, sent, done)
      ensures Valid(e')
      ensures var j := if gone then i else i + 1;
              && j <= |e'.sessions| && |e'.sessions| - j < |e.sessions| - i
              && var rest := UpdateFrom(e', j, elapsed);
                 UpdateFrom(e, i, elapsed) == Outcome(rest.engine, sent + rest.frames, done + rest.completed)
    {
      TickKeepsSession(e.sessions[i], elapsed);
      if gone {
        RemoveKeepsValid(e, i);
      } else {
        ReplaceKeepsValid(e, i, e'.sessions[i]);
      }
      var rest := UpdateFrom(e', if gone then i else i + 1, elapsed);
      assert [] + rest.completed == rest.completed;
    }

    /** One visit of the timer loop: session `i` ages, and leaves the table if it finishes or expires. */
    method TickAt(i: nat, elapsed: nat) returns (gone: bool, frames: seq<Frame>, completed: seq<Session>)
      requires Valid(Table()) && i < |sessions| && SessionOk(sessions[i])
      modifies this`sessions
      ensures Visit(old(Table()), i, elapsed, Table(), gone, frames, completed)
    {
      gone, frames, completed := false, [], [];
      assert SessionOk(sessions[i]);
      sessions := sessions[i := sessions[i].(timer := SaturatingAdd32(sessions[i].timer, elapsed))];
      var s := sessions[i];
      if s.IsBroadcast() && s.state == SendingData && s.direction == Transmit && s.timer >= BAM_INTER_PACKET_MS {
        s, frames := GenerateFrames(s.(timer := 0), 1);
        sessions := sessions[i := s];
        if s.transferred >= s.total {
          gone := true;
          completed := [s.(state := Complete)];
        }
      } else if TimeLimit(s.state).Some? && s.timer >= TimeLimit(s.state).value {
        gone := true;
        if !s.IsBroadcast() {
          frames := [SessionAbort(s, Timeout)];
        }
      }
      if gone {
        var _ := RemoveSession(i);
        assert sessions == SwapRemove(old(sessions), i);
      }
    }

    method Update(elapsed: nat) returns (frames: seq<Frame>, completed: seq<Session>)
      requires Valid(Table())
      modifies this`sessions
      ensures Valid(Table())
      ensures Outcome(Table(), frames, completed) == TpEngine.Update(old(Table()), elapsed)
    {
      frames, completed := [], [];
      ghost var all := TpEngine.Update(Table(), elapsed);
      var i := 0;
      while i < |sessions|
        invariant 0 <= i <= |sessions| && Valid(Table())
        invariant AddsUp(all, UpdateFrom(Table(), i, elapsed), frames, completed)
        decreases |sessions| - i
      {
        ghost var before := Table();
        assert SessionOk(before.sessions[i]);
        var gone, sent, done := TickAt(i, elapsed);
        Advanced(all, before, i, elapsed, frames, completed, Table(), gone, sent, done);
        if !gone {
          i := i + 1;
        }
        frames, completed := frames + sent, completed + done;
      }
    }

    /** What the loop has produced so far, followed by what it will still produce, is the whole outcome. */
    static ghost predicate AddsUp(all: Outcome, rest: Outcome, frames: seq<Frame>, completed: seq<Session>) {
      all.engine == rest.engine && all.frames == frames + rest.frames && all.completed == completed + rest.completed
    }

    static lemma Advanced(all: Outcome, e: Engine, i: nat, elapsed: nat, frames: seq<Frame>, completed: seq<Session>,
                          e': Engine, gone: bool, sent: seq<Frame>, done: seq<Session>)
      requires Valid(e) && i < |e.sessions| && SessionOk(e.sessions[i])
      requires Visit(e, i, elapsed, e', gone, sent, done)
      requires AddsUp(all, UpdateFrom(e, i, elapsed), frames, completed)
      ensures var j := if gone then i else i + 1;
              && Valid(e') && j <= |e'.sessions| && |e'.sessions| - j < |e.sessions| - i
              && AddsUp(all, UpdateFrom(e', j, elapsed), frames + sent, completed + done)
    {
      VisitUnfolds(e, i, elapsed, e', gone, sent, done);
      AddsUpStep(all, UpdateFrom(e', if gone then i else i + 1, elapsed), frames, completed, sent, done);
    }

    static lemma AddsUpStep(all: Outcome, rest: Outcome, frames: seq<Frame>, completed: seq<Session>,
                            sent: seq<Frame>, done: seq<Session>)
      requires AddsUp(all, Outcome(rest.engine, sent + rest.frames, done + rest.completed), frames, completed)
      ensures AddsUp(all, rest, frames + sent, completed + done)
    {
      assert frames + (sent + rest.frames) == (frames + sent) + rest.frames;
      assert completed + (done + rest.completed) == (completed + done) + rest.completed;
    }

    method AbortSessionsForAddress(port: byte, address: byte)
      modifies this`sessions
      ensures Idle(Table()) == Discontinue(old(Table()), port, address)
    {
      var kept := [];
      var i := 0;
      while i < |sessions|
        invariant 0 <= i <= |sessions|
        invariant Without(sessions, port, address) == kept + Without(sessions[i..], port, address)
      {
        var s := sessions[i];
        assert sessions[i..][1..] == sessions[i + 1..];
        if s.port != port || (s.source != address && s.destination != address) {
          kept := kept + [s];
        }
        i := i + 1;
      }
      sessions := kept;
    }
  }
}
