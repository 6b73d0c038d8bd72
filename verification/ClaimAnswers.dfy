/**
 What one node does on each occasion of ISO 11783-5, written out in numbers: whom it gives way to, where it goes
 instead, what it says, and after how much time, however that time is cut up.
 */
module ClaimAnswers {
  import opened Can
  import opened Seqs
  import opened ClaimMachine
  import opened ClaimNetwork

  // ----- where to go

  predicate Open(n: Node, b: byte) {
    128 <= b <= 247 && b != n.preferred && b !in n.occupied
  }

  /** Steps from `from` to `b` going up from 128 to 247 and around; from anywhere else the count starts at 128. */
  function Ahead(from: byte, b: byte): int {
    if !(128 <= from <= 247) then b as int - 128
    else if b > from then b as int - from as int - 1
    else b as int - from as int + 119
  }

  ghost predicate Nearest(n: Node, from: byte, b: byte) {
    Open(n, b) && forall c: byte :: Open(n, c) ==> Ahead(from, b) <= Ahead(from, c)
  }

  lemma NearestIsFound(n: Node, from: byte)
    ensures var r := FindNext(n, from);
            if exists c: byte :: Open(n, c) then Nearest(n, from, r) else r == 0xFE
  {
    FindNextIsNearest(n, from);
    forall c: byte
      ensures Open(n, c) <==> 128 <= c <= 247 && IsFree(n, c)
      ensures 128 <= c <= 247 ==> Steps(Following(from), c) == Ahead(from, c)
    {
    }
  }

  function GivesUp(n: Node): Node {
    n.(state := Failed, online := false, address := 0xFE)
  }

  // ----- a claim is heard

  predicate Contested(n: Node, a: byte) {
    n.attempted && n.state != Failed && !n.listening && a == n.address
  }

  /** The node has lost `a`: it moves to the nearest free address, at once or after its delay, or gives up. */
  ghost predicate GivesWay(n: Node, s: Step, a: byte) {
    if n.name < 0x8000_0000_0000_0000 || !exists c: byte :: Open(n, c) then
      s == Step(GivesUp(n), [Msg.Claim(n.name, 0xFE)])
    else
      exists b: byte :: Nearest(n, a, b)
        && s == if n.rtxd > 0
                then Step(n.(online := false, reclaimPending := true, reclaimTimer := 0, reclaimAddress := b,
                             state := if n.state == Claimed then WaitForClaim else n.state), [])
                else Step(n.(online := false, address := b, guard := 0, state := WaitForContest),
                          [Msg.Claim(n.name, b)])
  }

  lemma ClaimAnswered(n: Node, a: byte, other: nat)
    ensures var s, n' := HandleClaim(n, a, other), n.(occupied := n.occupied + {a});
            if a > 0xFD || other == n.name then s == Step(n, [])
            else if !Contested(n, a) then s == Step(n', [])
            else if n.name < other then s == Step(n', [Msg.Claim(n.name, a)])
            else GivesWay(n', s, a)
  {
    NearestIsFound(n.(occupied := n.occupied + {a}), a);
  }

  // ----- starting, listening, moving

  lemma StartAnswered(n: Node)
    ensures var s, n' := Start(n), n.(attempted := true, occupied := {}, guard := 0);
            if n.preferred <= 0xFD then
              s == Step(n'.(state := SendRequest, listening := true, listenTimer := 0), [Request])
            else s == Step(GivesUp(n').(reclaimPending := false, reclaimTimer := 0, reclaimAddress := 0xFE),
                           [Msg.Claim(n.name, 0xFE)])
  {
  }

  /** The node claims `b` and waits to be contested. */
  predicate Tries(n: Node, s: Step, b: byte) {
    && s.sent == [Msg.Claim(n.name, b)]
    && s.node.state == WaitForContest && s.node.address == b && s.node.guard == 0 && s.node.online == n.online
    && s.node.occupied == n.occupied && SameNode(n, s.node)
  }

  lemma ListenAnswered(n: Node)
    requires NodeOk(n) && n.listening
    ensures var s := FinishListen(n);
            && !s.node.listening
            && if n.preferred !in n.occupied || n.name < 0x8000_0000_0000_0000 then Tries(n, s, n.preferred)
               else if exists c: byte :: Open(n, c) then exists b: byte :: Nearest(n, n.preferred, b) && Tries(n, s, b)
               else s == Step(GivesUp(n).(listening := false, listenTimer := 0), [Msg.Claim(n.name, 0xFE)])
  {
    NearestIsFound(n, n.preferred);
  }

  lemma MoveAnswered(n: Node, elapsed: nat)
    requires NodeOk(n) && n.reclaimPending
    ensures var s := ReclaimPart(n, elapsed);
            if SaturatingAdd32(n.reclaimTimer, elapsed) < n.rtxd then
              s == Step(n.(reclaimTimer := SaturatingAdd32(n.reclaimTimer, elapsed)), [])
            else
              && !s.node.reclaimPending
              && if Open(n, n.reclaimAddress) then Tries(n, s, n.reclaimAddress)
                 else if exists c: byte :: Open(n, c) then
                   exists b: byte :: Nearest(n, n.reclaimAddress, b) && Tries(n, s, b)
                 else
                   s.sent == [Msg.Claim(n.name, 0xFE)] && s.node.state == Failed && s.node.address == 0xFE
                   && !s.node.online
  {
    NearestIsFound(n, n.reclaimAddress);
  }

  lemma RequestAnswered(n: Node)
    ensures var s := HandleRequest(n);
            if n.attempted && !n.reclaimPending && n.state in {Claimed, WaitForContest} then
              s == Step(n, [Msg.Claim(n.name, n.address)])
            else if n.attempted && !n.reclaimPending && n.state == Failed then
              s == if n.rtxd == 0 then Step(n, [Msg.Claim(n.name, 0xFE)])
                   else Step(n.(cannotClaimPending := true, cannotClaimTimer := 0), [])
            else s == Step(n, [])
  {
  }

  // ----- time

  /** A run of `update` calls with nothing received in between. */
  ghost function Serve(n: Node, ticks: seq<nat>): (s: Step)
    requires NodeOk(n)
    ensures NodeOk(s.node)
    decreases |ticks|
  {
    if ticks == [] then Step(n, [])
    else
      UpdateFacts(n, ticks[0]);
      var s := Update(n, ticks[0]);
      var rest := Serve(s.node, ticks[1..]);
      Step(rest.node, s.sent + rest.sent)
  }

  predicate FitsU32(n: Node) {
    n.timeout <= 0xFFFF_FFFF && n.rtxd <= 0xFFFF_FFFF
  }

  lemma UpdateKeepsQuiet(n: Node, ms: nat)
    requires NodeOk(n) && !n.listening
    ensures !Update(n, ms).node.listening && (!n.reclaimPending ==> !Update(n, ms).node.reclaimPending)
  {
  }

  lemma {:induction false} StaysQuiet(n: Node, ticks: seq<nat>)
    requires NodeOk(n) && !n.listening
    ensures !Serve(n, ticks).node.listening && (!n.reclaimPending ==> !Serve(n, ticks).node.reclaimPending)
    decreases |ticks|
  {
    if ticks != [] {
      UpdateFacts(n, ticks[0]);
      UpdateKeepsQuiet(n, ticks[0]);
      StaysQuiet(Update(n, ticks[0]).node, ticks[1..]);
    }
  }

  lemma ListenStep(n: Node, ms: nat)
    requires NodeOk(n) && FitsU32(n) && n.listening
    ensures var s, t := Update(n, ms), n.listenTimer + ms;
            if t < n.timeout then s == Step(n.(listenTimer := t), []) else !s.node.listening
  {
  }

  // A node listens exactly as long as its window lasts, and says nothing meanwhile.
  lemma {:induction false} ListensUntil(n: Node, ticks: seq<nat>)
    requires NodeOk(n) && FitsU32(n) && n.listening && (ticks == [] ==> n.listenTimer < n.timeout)
    ensures var s := Serve(n, ticks);
            && (s.node.listening <==> n.listenTimer + TotalTime(ticks) < n.timeout)
            && (s.node.listening ==> s.sent == [])
    decreases |ticks|
  {
    if ticks != [] {
      var ms := ticks[0];
      UpdateFacts(n, ms);
      ListenStep(n, ms);
      if n.listenTimer + ms < n.timeout {
        ListensUntil(n.(listenTimer := n.listenTimer + ms), ticks[1..]);
      } else {
        StaysQuiet(Update(n, ms).node, ticks[1..]);
      }
    }
  }

  predicate OnTrial(n: Node) {
    !n.listening && !n.reclaimPending && n.state in {WaitForContest, Claimed}
  }

  lemma TrialStep(n: Node, ms: nat)
    requires NodeOk(n) && FitsU32(n) && OnTrial(n)
    ensures var s, t := Update(n, ms), n.guard + ms;
            && s.sent == [] && OnTrial(s.node) && s.node.address == n.address && SameNode(n, s.node)
            && (n.state == Claimed ==> s.node.state == Claimed && s.node.online == n.online)
            && (n.state == WaitForContest && t < n.timeout ==>
                  s.node.state == WaitForContest && s.node.guard == t && s.node.online == n.online)
            && (n.state == WaitForContest && t >= n.timeout ==> s.node.state == Claimed && s.node.online)
  {
  }

  lemma {:induction false} StaysClaimed(n: Node, ticks: seq<nat>)
    requires NodeOk(n) && FitsU32(n) && OnTrial(n) && n.state == Claimed
    ensures var s := Serve(n, ticks);
            s.sent == [] && s.node.state == Claimed && s.node.online == n.online && s.node.address == n.address
    decreases |ticks|
  {
    if ticks != [] {
      UpdateFacts(n, ticks[0]);
      TrialStep(n, ticks[0]);
      StaysClaimed(Update(n, ticks[0]).node, ticks[1..]);
    }
  }

  // An address is the node's own, and the node on line, exactly once the contest window has passed without a contest.
  lemma {:induction false} ClaimedOnce(n: Node, ticks: seq<nat>)
    requires NodeOk(n) && FitsU32(n) && OnTrial(n) && n.state == WaitForContest && (ticks == [] ==> n.guard < n.timeout)
    ensures var s := Serve(n, ticks);
            && s.sent == [] && s.node.address == n.address
            && (if n.guard + TotalTime(ticks) < n.timeout
                then s.node.state == WaitForContest && s.node.online == n.online
                else s.node.state == Claimed && s.node.online)
    decreases |ticks|
  {
    if ticks != [] {
      var s := Update(n, ticks[0]);
      UpdateFacts(n, ticks[0]);
      TrialStep(n, ticks[0]);
      if n.guard + ticks[0] < n.timeout {
        ClaimedOnce(s.node, ticks[1..]);
      } else {
        StaysClaimed(s.node, ticks[1..]);
      }
    }
  }

  lemma MoveStep(n: Node, ms: nat)
    requires NodeOk(n) && FitsU32(n) && !n.listening && n.reclaimPending
    ensures var s, t := Update(n, ms), n.reclaimTimer + ms;
            && s.node.rtxd == n.rtxd && s.node.timeout == n.timeout && !s.node.listening
            && (if t < n.rtxd then s.node.reclaimPending && s.node.reclaimTimer == t else !s.node.reclaimPending)
  {
  }

  // A node that has given way moves on exactly when its delay is over.
  lemma {:induction false} MovesOnce(n: Node, ticks: seq<nat>)
    requires NodeOk(n) && FitsU32(n) && !n.listening && n.reclaimPending && (ticks == [] ==> n.reclaimTimer < n.rtxd)
    ensures Serve(n, ticks).node.reclaimPending <==> n.reclaimTimer + TotalTime(ticks) < n.rtxd
    decreases |ticks|
  {
    if ticks != [] {
      var n' := Update(n, ticks[0]).node;
      UpdateFacts(n, ticks[0]);
      MoveStep(n, ticks[0]);
      if n.reclaimTimer + ticks[0] < n.rtxd {
        MovesOnce(n', ticks[1..]);
      } else {
        StaysQuiet(n', ticks[1..]);
      }
    }
  }

  predicate OutOfIt(n: Node) {
    !n.listening && !n.reclaimPending && n.state == Failed
  }

  lemma OutStep(n: Node, ms: nat)
    requires NodeOk(n) && FitsU32(n) && OutOfIt(n)
    ensures var s, t := Update(n, ms), n.cannotClaimTimer + ms;
            s == if !n.cannotClaimPending then Step(n, [])
                 else if t < n.rtxd then Step(n.(cannotClaimTimer := t), [])
                 else Step(n.(cannotClaimPending := false, cannotClaimTimer := 0), [Msg.Claim(n.name, 0xFE)])
  {
  }

  lemma {:induction false} SaysNoMore(n: Node, ticks: seq<nat>)
    requires NodeOk(n) && FitsU32(n) && OutOfIt(n) && !n.cannotClaimPending
    ensures Serve(n, ticks) == Step(n, [])
    decreases |ticks|
  {
    if ticks != [] {
      UpdateFacts(n, ticks[0]);
      OutStep(n, ticks[0]);
      SaysNoMore(n, ticks[1..]);
    }
  }

  // A node without an address answers a request exactly once, when its delay is over.
  lemma {:induction false} SaysSoOnce(n: Node, ticks: seq<nat>)
    requires NodeOk(n) && FitsU32(n) && OutOfIt(n) && n.cannotClaimPending
    requires ticks == [] ==> n.cannotClaimTimer < n.rtxd
    ensures Serve(n, ticks).sent
         == if n.cannotClaimTimer + TotalTime(ticks) < n.rtxd then [] else [Msg.Claim(n.name, 0xFE)]
    decreases |ticks|
  {
    if ticks != [] {
      UpdateFacts(n, ticks[0]);
      OutStep(n, ticks[0]);
      var n' := Update(n, ticks[0]).node;
      if n.cannotClaimTimer + ticks[0] < n.rtxd {
        SaysSoOnce(n', ticks[1..]);
      } else {
        SaysNoMore(n', ticks[1..]);
      }
    }
  }
}
