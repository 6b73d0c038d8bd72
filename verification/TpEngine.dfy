/**
 The transport protocol engine as functions on values: one session table that serves
 every broadcast (BAM) and connection-mode (RTS/CTS) transfer of a node at once.
 Module `TpEngineClass` is the mutable engine and is proved to compute these functions.
 */
module TpEngine {
  import opened Can
  import opened TpWire
  import opened Seqs

  const TIMEOUT_T1_MS: nat := 750
  const TIMEOUT_T2_MS: nat := 1250
  const TIMEOUT_T3_MS: nat := 1250
  const BAM_INTER_PACKET_MS: nat := 50

  datatype Direction = Transmit | Receive

  datatype State =
    | WaitingForCTS | SendingData | WaitingForEndOfMsg | ReceivingData | WaitingForData | Complete

  datatype Session = Session(
    direction: Direction,
    state: State,
    pgn: nat,
    data: seq<byte>,
    total: nat,
    transferred: nat,
    source: byte,
    destination: byte,
    port: byte,
    priority: nat,
    lastSequence: byte,
    packetsToSend: byte,
    advertised: byte,
    maxPerCts: byte,
    windowStart: byte,
    windowSize: byte,
    retransmits: byte,
    timer: nat)
  {
    predicate IsBroadcast() {
      destination == BROADCAST_ADDRESS
    }
  }

  datatype Engine = Engine(
    sessions: seq<Session>,
    maxReceive: nat,
    maxSessions: nat,
    maxRetransmits: byte,
    advertised: byte)

  /** New engine state, frames to transmit, and sessions reported through `on_complete`. */
  datatype Outcome = Outcome(engine: Engine, frames: seq<Frame>, completed: seq<Session>)

  datatype SendError = InvalidData | InvalidAddress | BufferOverflow | InvalidState | SessionExists | NoResources

  datatype SendResult = Sent(engine: Engine, frames: seq<Frame>) | Rejected(error: SendError)

  function Fresh(maxReceive: nat, maxSessions: nat, maxRetransmits: byte, advertised: byte): Engine {
    Engine([], Min(maxReceive, TP_MAX_DATA_LENGTH), maxSessions, maxRetransmits,
           if advertised < 1 then 1 else if advertised > 16 then 16 else advertised)
  }

  // ----- well-formed tables

  ghost predicate ReceiveOk(s: Session) {
    && 8 < s.total <= TP_MAX_DATA_LENGTH
    && |s.data| == s.total
    && s.lastSequence < Packets(s.total)
    && s.transferred == 7 * s.lastSequence
    && s.state == (if s.IsBroadcast() then ReceivingData else WaitingForData)
    && 1 <= s.maxPerCts <= TP_MAX_PACKETS_PER_CTS
    && (!s.IsBroadcast() ==>
          && 1 <= s.windowStart <= s.lastSequence + 1
          && s.lastSequence + 1 < s.windowStart + s.windowSize <= Packets(s.total) + 1)
  }

  ghost predicate TransmitOk(s: Session) {
    && 8 < s.total <= TP_MAX_DATA_LENGTH
    && |s.data| == s.total
    && s.lastSequence <= Packets(s.total)
    && s.transferred == Min(7 * s.lastSequence, s.total)
    && s.state in {WaitingForCTS, SendingData, WaitingForEndOfMsg}
    && (s.IsBroadcast() ==> s.state == SendingData && s.transferred < s.total)
    && s.maxPerCts == TP_MAX_PACKETS_PER_CTS
  }

  ghost predicate SessionOk(s: Session) {
    && s.pgn <= MAX_PGN
    && s.timer <= U32_MAX
    && ValidSource(s.source)
    && ValidDestination(s.destination)
    && (if s.direction == Receive then ReceiveOk(s) else TransmitOk(s))
  }

  /** Two sessions that one frame could not tell apart. */
  predicate Clash(x: Session, y: Session) {
    && x.direction == y.direction && x.source == y.source && x.destination == y.destination && x.port == y.port
    && (x.direction == Receive && x.IsBroadcast() ==> x.pgn == y.pgn)
  }

  ghost predicate Exclusive(ss: seq<Session>) {
    forall i, j :: 0 <= i < j < |ss| ==> !Clash(ss[i], ss[j])
  }

  ghost predicate Valid(e: Engine) {
    && (forall s :: s in e.sessions ==> SessionOk(s))
    && Exclusive(e.sessions)
    && e.maxReceive <= TP_MAX_DATA_LENGTH
    && 1 <= e.advertised <= TP_MAX_PACKETS_PER_CTS
  }

  // ----- table lookup

  function Position(ss: seq<Session>, p: Session -> bool): (r: Option<nat>)
    ensures r.Some? ==> r.value < |ss| && p(ss[r.value]) && forall j :: 0 <= j < r.value ==> !p(ss[j])
    ensures r.None? ==> forall j :: 0 <= j < |ss| ==> !p(ss[j])
  {
    if ss == [] then None
    else if p(ss[0]) then Some(0)
    else match Position(ss[1..], p)
         case None => assert forall j :: 1 <= j < |ss| ==> ss[j] == ss[1..][j - 1]; None
         case Some(i) => assert forall j :: 1 <= j < |ss| ==> ss[j] == ss[1..][j - 1]; Some(i + 1)
  }

  function OnPath(direction: Direction, source: byte, destination: byte, port: byte): Session -> bool {
    (s: Session) => s.direction == direction && s.source == source && s.destination == destination && s.port == port
  }

  function OnTransfer(direction: Direction, source: byte, destination: byte, port: byte, pgn: nat): Session -> bool {
    (s: Session) =>
      s.direction == direction && s.source == source && s.destination == destination && s.port == port && s.pgn == pgn
  }

  function Awaiting(source: byte, destination: byte, port: byte, pgn: nat): Session -> bool {
    (s: Session) =>
      && s.direction == Transmit && s.source == source && s.destination == destination && s.port == port && s.pgn == pgn
      && s.state in {WaitingForCTS, SendingData, WaitingForEndOfMsg}
  }

  function Collecting(source: byte, destination: byte, port: byte): Session -> bool {
    (s: Session) =>
      && s.direction == Receive && s.source == source && s.destination == destination && s.port == port
      && s.state in {WaitingForData, ReceivingData}
  }

  function BetweenEither(x: byte, y: byte, port: byte, pgn: nat): Session -> bool {
    (s: Session) =>
      && s.pgn == pgn && s.port == port
      && ((s.source == x && s.destination == y) || (s.source == y && s.destination == x))
  }

  // ----- outcomes

  function Idle(e: Engine): Outcome {
    Outcome(e, [], [])
  }

  function Refuse(e: Engine, f: Frame, pgn: nat, reason: AbortReason): Outcome {
    Outcome(e, [MakeAbort(f.destination, f.source, pgn, reason)], [])
  }

  function Remove(e: Engine, i: nat): Engine
    requires i < |e.sessions|
  {
    e.(sessions := SwapRemove(e.sessions, i))
  }

  /** The abort frame leaves from whichever end of the connection this node is. */
  function SessionAbort(s: Session, reason: AbortReason): Frame {
    if s.direction == Transmit then MakeAbort(s.source, s.destination, s.pgn, reason)
    else MakeAbort(s.destination, s.source, s.pgn, reason)
  }

  // ----- starting a transfer

  function NewTransmit(pgn: nat, data: seq<byte>, src: byte, dst: byte, port: byte, priority: nat,
                       advertised: byte): Session {
    Session(Transmit, if dst == BROADCAST_ADDRESS then SendingData else WaitingForCTS, pgn, data, |data|, 0,
            src, dst, port, priority, 0, 0, advertised, TP_MAX_PACKETS_PER_CTS, 1, 0, 0, 0)
  }

  function Send(e: Engine, pgn: nat, data: seq<byte>, src: byte, dst: byte, port: byte, priority: nat): SendResult {
    if pgn > MAX_PGN then Rejected(InvalidData)
    else if !ValidSource(src) || !ValidDestination(dst) then Rejected(InvalidAddress)
    else if |data| > TP_MAX_DATA_LENGTH then Rejected(BufferOverflow)
    else if |data| <= 8 then Rejected(InvalidState)
    else if Position(e.sessions, OnPath(Transmit, src, dst, port)).Some? then Rejected(SessionExists)
    else if |e.sessions| >= e.maxSessions then Rejected(NoResources)
    else
      var s := NewTransmit(pgn, data, src, dst, port, priority, e.advertised);
      Sent(e.(sessions := e.sessions + [s]),
           [if dst == BROADCAST_ADDRESS then MakeBam(pgn, |data|, src)
            else MakeRts(pgn, |data|, src, dst, e.advertised)])
  }

  // ----- connection management

  function NewReceive(f: Frame, port: byte, pgn: nat, total: nat, maxPerCts: byte, window: byte): Session {
    Session(Receive, if f.destination == BROADCAST_ADDRESS then ReceivingData else WaitingForData,
            pgn, seq<byte>(total, _ => 0xFF), total, 0, f.source, f.destination, port, f.priority,
            0, 0, TP_MAX_PACKETS_PER_CTS, maxPerCts, 1, window, 0, 0)
  }

  function HandleRts(e: Engine, f: Frame, port: byte, pgn: nat): Outcome {
    var total := CmSize(f.data);
    var packets := f.data[3];
    var maxPerCts := f.data[4];
    if !PayloadShape(total, packets) || maxPerCts == 0 then Refuse(e, f, pgn, UnexpectedDataSize)
    else
      var existing := Position(e.sessions, OnTransfer(Receive, f.source, f.destination, port, pgn));
      if existing.None? && Position(e.sessions, OnPath(Receive, f.source, f.destination, port)).Some? then
        Refuse(e, f, pgn, AlreadyInSession)
      else
        var e' := if existing.Some? then Remove(e, existing.value) else e;
        if |e'.sessions| >= e'.maxSessions || total > e'.maxReceive then Refuse(e', f, pgn, ResourcesUnavailable)
        else
          var maxPkts: byte := Min(maxPerCts, TP_MAX_PACKETS_PER_CTS);
          var window: byte := Min(packets, maxPkts);
          var s := NewReceive(f, port, pgn, total, maxPkts, window);
          Outcome(e'.(sessions := e'.sessions + [s]), [MakeCts(f.destination, f.source, window, 1, pgn)], [])
  }

  function HandleBam(e: Engine, f: Frame, port: byte, pgn: nat): Outcome {
    var total := CmSize(f.data);
    var existing := Position(e.sessions, OnTransfer(Receive, f.source, BROADCAST_ADDRESS, port, pgn));
    var e' := if existing.Some? then Remove(e, existing.value) else e;
    if f.destination != BROADCAST_ADDRESS || !PayloadShape(total, f.data[3]) || total > e'.maxReceive
       || |e'.sessions| >= e'.maxSessions
    then Idle(e')
    else
      var s := NewReceive(f, port, pgn, total, TP_MAX_PACKETS_PER_CTS, 0);
      Idle(e'.(sessions := e'.sessions + [s]))
  }

  datatype CtsVerdict = Granted(session: Session) | Denied(reason: AbortReason)

  /** The data frames a CTS lets the sender emit, starting at packet `next`. */
  function Window(s: Session, packets: byte, next: byte): int {
    Min(Min(packets, Packets(s.total) - (next - 1)), s.maxPerCts)
  }

  function OnCts(s: Session, packets: byte, next: byte, maxRetransmits: byte): CtsVerdict
    requires s.direction == Transmit && SessionOk(s)
  {
    if s.state == SendingData then
      if packets != 0 && next != 0 && next <= Packets(s.total) && next == Min(s.lastSequence + 1, 255)
         && s.packetsToSend == Window(s, packets, next)
      then Granted(s.(timer := 0))
      else Denied(ConnectionModeError)
    else if packets == 0 then Granted(s.(timer := 0))
    else if next == 0 || next > Packets(s.total) then Denied(BadSequence)
    else
      var again := next - 1 < Packets(s.transferred);
      var count: byte := if again then Min(s.retransmits + 1, 255) else 0;
      if again && count > maxRetransmits then Denied(MaxRetransmitsExceeded)
      else Granted(s.(state := SendingData, packetsToSend := Window(s, packets, next), transferred := 7 * (next - 1),
                      lastSequence := next - 1, retransmits := count, timer := 0))
  }

  function HandleCts(e: Engine, f: Frame, port: byte, pgn: nat): Outcome
    requires Valid(e)
  {
    match Position(e.sessions, Awaiting(f.destination, f.source, port, pgn))
    case None => Idle(e)
    case Some(i) =>
      assert SessionOk(e.sessions[i]) && Awaiting(f.destination, f.source, port, pgn)(e.sessions[i]);
      match OnCts(e.sessions[i], f.data[1], f.data[2], e.maxRetransmits)
      case Granted(s) => Idle(e.(sessions := e.sessions[i := s]))
      case Denied(reason) => Outcome(Remove(e, i), [SessionAbort(e.sessions[i], reason)], [])
  }

  function HandleEoma(e: Engine, f: Frame, port: byte, pgn: nat): Outcome {
    match Position(e.sessions, OnTransfer(Transmit, f.destination, f.source, port, pgn))
    case None => Idle(e)
    case Some(i) =>
      var s := e.sessions[i];
      if s.state != WaitingForEndOfMsg || CmSize(f.data) != s.total || f.data[3] != Packets(s.total) % 256 then Idle(e)
      else Outcome(Remove(e, i), [], [s.(state := Complete)])
  }

  function HandleAbort(e: Engine, f: Frame, port: byte, pgn: nat): Outcome {
    match Position(e.sessions, BetweenEither(f.source, f.destination, port, pgn))
    case None => Idle(e)
    case Some(i) => Idle(Remove(e, i))
  }

  function HandleCm(e: Engine, f: Frame, port: byte): Outcome
    requires Valid(e)
  {
    var pgn := CmPgn(f.data);
    var control := f.data[0];
    if pgn > MAX_PGN || (control != BAM && f.destination == BROADCAST_ADDRESS) then Idle(e)
    else if control == RTS then HandleRts(e, f, port, pgn)
    else if control == CTS then HandleCts(e, f, port, pgn)
    else if control == EOMA then HandleEoma(e, f, port, pgn)
    else if control == BAM then HandleBam(e, f, port, pgn)
    else if control == ABORT then HandleAbort(e, f, port, pgn)
    else Idle(e)
  }

  // ----- data

  function DropSession(e: Engine, i: nat, reason: AbortReason): Outcome
    requires i < |e.sessions|
  {
    var s := e.sessions[i];
    Outcome(Remove(e, i), if s.IsBroadcast() then [] else [SessionAbort(s, reason)], [])
  }

  /** The session after storing data frame `sequence`, before the completion test. */
  function Stored(s: Session, d: Data8): Session
    requires 1 <= d[0]
  {
    var offset: nat := 7 * (d[0] as int - 1);
    s.(data := Ingest(s.data, offset, d), transferred := Min(offset + 7, s.total), lastSequence := d[0], timer := 0)
  }

  function HandleDt(e: Engine, f: Frame, port: byte): Outcome
    requires Valid(e)
  {
    match Position(e.sessions, Collecting(f.source, f.destination, port))
    case None => Idle(e)
    case Some(i) =>
      var s := e.sessions[i];
      assert SessionOk(s);
      var sequence := f.data[0];
      if sequence == 0 then DropSession(e, i, BadSequence)
      else if sequence <= s.lastSequence then DropSession(e, i, DuplicateSequence)
      else if sequence > s.lastSequence + 1 then DropSession(e, i, BadSequence)
      else
        var s' := Stored(s, f.data);
        if s'.transferred >= s'.total then
          Outcome(Remove(e, i),
                  if s.IsBroadcast() then []
                  else [MakeEoma(s.destination, s.source, s.total, Packets(s.total) % 256, s.pgn)],
                  [s'.(state := Complete)])
        else if s.IsBroadcast() || sequence - (s.windowStart - 1) < s.windowSize then
          Idle(e.(sessions := e.sessions[i := s']))
        else
          var next: byte := Min(Packets(s.total) - sequence, s.maxPerCts);
          var s'' := s'.(windowStart := sequence + 1, windowSize := next);
          Outcome(e.(sessions := e.sessions[i := s'']),
                  [MakeCts(s.destination, s.source, next, sequence + 1, s.pgn)], [])
  }

  function ProcessFrame(e: Engine, f: Frame, port: byte): Outcome
    requires Valid(e)
  {
    if f.pgn != PGN_TP_CM && f.pgn != PGN_TP_DT then Idle(e)
    else if f.length < 8 || !ValidSource(f.source) || !ValidDestination(f.destination) then Idle(e)
    else if f.pgn == PGN_TP_CM then HandleCm(e, f, port)
    else HandleDt(e, f, port)
  }

  // ----- emitting data frames

  function NextDt(s: Session): Frame {
    MakeDt(s.source, s.destination, (s.lastSequence + 1) % 256, s.data, s.transferred)
  }

  function AfterDt(s: Session): Session {
    s.(lastSequence := (s.lastSequence + 1) % 256, transferred := Min(s.transferred + 7, s.total))
  }

  function Generate(s: Session, count: nat): (Session, seq<Frame>)
    decreases count
  {
    if count == 0 || s.transferred >= s.total then (s, [])
    else
      var (s', frames) := Generate(AfterDt(s), count - 1);
      (s', [NextDt(s)] + frames)
  }

  function DrainSession(s: Session): (Session, seq<Frame>) {
    if s.state == SendingData && s.direction == Transmit && !s.IsBroadcast() then
      var (s', frames) := Generate(s, s.packetsToSend);
      (s'.(state := if s'.transferred >= s'.total then WaitingForEndOfMsg else WaitingForCTS, timer := 0), frames)
    else (s, [])
  }

  function DrainAll(ss: seq<Session>): (r: (seq<Session>, seq<Frame>))
    ensures |r.0| == |ss|
  {
    if ss == [] then ([], [])
    else
      var (s', frames) := DrainSession(ss[0]);
      var (rest, more) := DrainAll(ss[1..]);
      ([s'] + rest, frames + more)
  }

  /** `get_pending_data_frames`. */
  function PendingData(e: Engine): Outcome {
    var (ss, frames) := DrainAll(e.sessions);
    Outcome(e.(sessions := ss), frames, [])
  }

  // ----- timers

  function TimeLimit(state: State): Option<nat> {
    match state
    case WaitingForCTS => Some(TIMEOUT_T3_MS)
    case WaitingForData => Some(TIMEOUT_T2_MS)
    case WaitingForEndOfMsg => Some(TIMEOUT_T3_MS)
    case ReceivingData => Some(TIMEOUT_T1_MS)
    case _ => None
  }

  datatype Tick = Alive(session: Session, sent: seq<Frame>) | Finished(session: Session, sent: seq<Frame>)
    | Expired(sent: seq<Frame>)

  function TickSession(s: Session, elapsed: nat): Tick
    requires SessionOk(s)
  {
    var t := SaturatingAdd32(s.timer, elapsed);
    if s.IsBroadcast() && s.state == SendingData && s.direction == Transmit && t >= BAM_INTER_PACKET_MS then
      var (s', frames) := Generate(s.(timer := 0), 1);
      if s'.transferred >= s'.total then Finished(s'.(state := Complete), frames) else Alive(s', frames)
    else if TimeLimit(s.state).Some? && t >= TimeLimit(s.state).value then
      Expired(if s.IsBroadcast() then [] else [SessionAbort(s, Timeout)])
    else Alive(s.(timer := t), [])
  }

  /** The timer pass from index `i` on: a session that ends is overwritten by the last one, which is visited next. */
  function UpdateFrom(e: Engine, i: nat, elapsed: nat): Outcome
    requires i <= |e.sessions|
    requires forall k :: i <= k < |e.sessions| ==> SessionOk(e.sessions[k])
    decreases |e.sessions| - i
  {
    if i == |e.sessions| then Idle(e)
    else
      match TickSession(e.sessions[i], elapsed)
      case Alive(s, frames) =>
        var o := UpdateFrom(e.(sessions := e.sessions[i := s]), i + 1, elapsed);
        o.(frames := frames + o.frames)
      case Finished(s, frames) =>
        var o := UpdateFrom(Remove(e, i), i, elapsed);
        o.(frames := frames + o.frames, completed := [s] + o.completed)
      case Expired(frames) =>
        var o := UpdateFrom(Remove(e, i), i, elapsed);
        o.(frames := frames + o.frames)
  }

  function Update(e: Engine, elapsed: nat): Outcome
    requires Valid(e)
  {
    UpdateFrom(e, 0, elapsed)
  }

  // ----- giving up an address

  function Without(ss: seq<Session>, port: byte, address: byte): seq<Session> {
    if ss == [] then []
    else if ss[0].port != port || (ss[0].source != address && ss[0].destination != address)
    then [ss[0]] + Without(ss[1..], port, address)
    else Without(ss[1..], port, address)
  }

  /** `abort_sessions_for_address`: silent, so no frame leaves from an address the node has lost. */
  function Discontinue(e: Engine, port: byte, address: byte): Outcome {
    Idle(e.(sessions := Without(e.sessions, port, address)))
  }
}
