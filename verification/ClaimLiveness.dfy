/**
 What claiming costs and when it is over. In every run of the bus, whatever happens in whatever order and
 however the clocks run, the traffic is bounded by the starts and requests that cause it; and as time passes
 every started node claims an address or gives up, except while it is kept from moving.
 */
module ClaimLiveness {
  import opened Can
  import opened ClaimMachine
  import opened ClaimNetwork
  import opened ClaimSettles

  // ----- what a node still has to do

  /** Claimed an address or given up, and nothing pending that could change that. */
  ghost predicate AtRest(n: Node) {
    n.attempted ==> n.state == Claimed || (n.state == Failed && (n.reclaimPending ==> NoneFree(n)))
  }

  /** Has yielded its address and waits for the random delay before it claims another. */
  ghost predicate Waiting(n: Node) {
    n.reclaimPending && !n.listening && !(n.state == Failed && NoneFree(n))
  }

  predicate Contesting(n: Node) {
    n.state == WaitForContest && !n.listening && !n.reclaimPending
  }

  lemma WhatIsLeft(n: Node)
    requires NodeOk(n)
    ensures AtRest(n) || n.listening || Waiting(n) || Contesting(n)
  {
  }

  /** Waits to move although nothing takes its address away: left over from before a restart. */
  ghost predicate Loose(n: Node) {
    n.reclaimPending && if n.state == Failed then !NoneFree(n) else n.address !in n.occupied
  }

  /** Addresses still to try, and steps still to take. */
  ghost function Work(n: Node): nat {
    Budget(n) + (if n.state == Failed then 0 else 1) + (if Loose(n) then 2 else 0) + (if n.listening then 10 else 0)
  }

  /** Falls with every claim the node makes and with every address it loses. */
  ghost function Stake(n: Node): nat {
    2 * Work(n) + if Holds(n) then 1 else 0
  }

  lemma StillNoneFree(n: Node, n': Node)
    requires n'.preferred == n.preferred && n.occupied <= n'.occupied
    ensures NoneFree(n) ==> NoneFree(n')
  {
    assert forall b: byte :: IsFree(n', b) ==> IsFree(n, b);
  }

  lemma {:induction false} RangeSize(lo: byte, hi: byte, s: set<byte>)
    requires lo <= hi && forall b :: b in s ==> lo <= b < hi
    ensures |s| <= hi - lo
    decreases hi - lo
  {
    if lo == hi {
      assert s == {};
    } else {
      RangeSize(lo + 1, hi, s - {lo});
    }
  }

  const MOST: nat := 269

  lemma StakeIsBounded(n: Node)
    ensures Stake(n) <= MOST
  {
    RangeSize(SELF_CONFIG_MIN, SELF_CONFIG_MAX + 1, FreeSet(n));
  }

  // ----- one node, one event

  /** A better NAME claims the address the node has, or had. */
  predicate Challenged(n: Node, claimed: byte, other: nat) {
    claimed == n.address <= MAX_ADDRESS && other < n.name
  }

  /**
   What an event that leaves the stake alone does: timers go on by `ms`, and only a challenge sets the delay of
   a waiting node back.
   */
  ghost predicate Onward(n: Node, n': Node, ms: nat, ticked: bool, challenged: bool)
    requires TimersInRange(n)
  {
    && SameNode(n, n')
    && (n.listening ==>
          && n'.listening && n'.listenTimer == SaturatingAdd32(n.listenTimer, ms)
          && (ticked ==> n'.listenTimer < n'.timeout))
    && (Waiting(n) ==>
          && Waiting(n') && n'.address == n.address
          && n'.reclaimTimer == (if challenged && n.state != Failed then 0 else SaturatingAdd32(n.reclaimTimer, ms))
          && (ticked ==> n'.reclaimTimer < n'.rtxd))
    && (Contesting(n) ==>
          if ticked && SaturatingAdd32(n.guard, ms) >= n.timeout then n'.state == Claimed
          else Contesting(n') && n'.guard == SaturatingAdd32(n.guard, ms))
    && (AtRest(n) ==> AtRest(n'))
  }

  lemma HearingStakes(n: Node, claimed: byte, other: nat)
    requires NodeOk(n) && other != n.name
    ensures var s := HandleClaim(n, claimed, other);
            && Stake(s.node) <= Stake(n)
            && (Stake(s.node) == Stake(n) ==>
                  && (Claims(s.sent) == [] || n.name < other)
                  && Onward(n, s.node, 0, false, Challenged(n, claimed, other)))
  {
    var n1 := n.(occupied := n.occupied + {claimed});
    ClaimCosts(n, claimed, other);
    ClaimFacts(n, claimed, other);
    FindNextIsNearest(n1, claimed);
    assert IsFree(n1, FindNext(n1, claimed)) || NoneFree(n1);
    if claimed <= MAX_ADDRESS {
      StillNoneFree(n, n1);
      StillNoneFree(n1, HandleClaim(n, claimed, other).node);
    }
  }

  lemma AskingStakes(n: Node)
    requires NodeOk(n)
    ensures var s := HandleRequest(n);
            Stake(s.node) == Stake(n) && Onward(n, s.node, 0, false, false) && |Claims(s.sent)| <= 1
  {
    var n' := HandleRequest(n).node;
    SameFree(n, n');
    StillNoneFree(n, n');
    StillNoneFree(n', n);
  }

  lemma ListeningStakes(n: Node, elapsed: nat)
    requires NodeOk(n) && n.listening
    ensures var s := Update(n, elapsed);
            && Stake(s.node) <= Stake(n) && |Claims(s.sent)| <= 1 && (Claims(s.sent) != [] ==> Stake(s.node) < Stake(n))
            && (Stake(s.node) == Stake(n) ==> Onward(n, s.node, elapsed, true, false))
  {
    var n1 := n.(listenTimer := SaturatingAdd32(n.listenTimer, elapsed));
    var s := Update(n, elapsed);
    SameFree(n, n1);
    FinishListenFacts(n1);
    if n1.listenTimer >= n.timeout {
      SameFree(n1, s.node);
      SingleClaim(n.name, NULL_ADDRESS);
      SingleClaim(n.name, s.node.address);
    }
  }

  lemma ReclaimStakes(n: Node, elapsed: nat)
    requires NodeOk(n) && n.reclaimPending && !n.listening
    ensures var s := ReclaimPart(n, elapsed);
            && Stake(s.node) <= Stake(n) && |Claims(s.sent)| <= 1 && (Claims(s.sent) != [] ==> Stake(s.node) < Stake(n))
            && (Stake(s.node) == Stake(n) ==> Onward(n, s.node, elapsed, true, false))
  {
    var s := ReclaimPart(n, elapsed);
    ReclaimedIsFree(n);
    ReclaimFacts(n, elapsed);
    SameFree(n, s.node);
    StillNoneFree(n, s.node);
    StillNoneFree(s.node, n);
    SingleClaim(n.name, NULL_ADDRESS);
    SingleClaim(n.name, Reclaimed(n));
    if NoneFree(n) {
      assert FreeSet(n) == {};
    }
  }

  lemma GuardStakes(n: Node, elapsed: nat)
    requires NodeOk(n) && !n.reclaimPending && !n.listening
    ensures var n' := GuardPart(n, elapsed); Stake(n') == Stake(n) && Onward(n, n', elapsed, true, false)
  {
    SameFree(n, GuardPart(n, elapsed));
  }

  // A pending cannot-claim message has no part in this.
  lemma NoticeIsNoMatter(n: Node, c: Node, n': Node, ms: nat)
    requires TimersInRange(n) && TimersInRange(c)
    requires c == n.(cannotClaimPending := c.cannotClaimPending, cannotClaimTimer := c.cannotClaimTimer)
    ensures Stake(c) == Stake(n) && (Onward(c, n', ms, true, false) ==> Onward(n, n', ms, true, false))
  {
    StillNoneFree(n, c);
    StillNoneFree(c, n);
    SameFree(n, c);
  }

  lemma TimeStakes(n: Node, elapsed: nat)
    requires NodeOk(n)
    ensures var s := Update(n, elapsed);
            && Stake(s.node) <= Stake(n) && |Claims(s.sent)| <= 1 && (Claims(s.sent) != [] ==> Stake(s.node) < Stake(n))
            && (Stake(s.node) == Stake(n) ==> Onward(n, s.node, elapsed, true, false))
  {
    if n.listening {
      ListeningStakes(n, elapsed);
    } else {
      var c := CannotClaimPart(n, elapsed);
      assert NodeOk(c.node) && Claims(c.sent) == [];
      NoticeIsNoMatter(n, c.node, Update(n, elapsed).node, elapsed);
      if n.reclaimPending {
        ReclaimStakes(c.node, elapsed);
        ClaimsJoin(c.sent, ReclaimPart(c.node, elapsed).sent);
      } else {
        GuardStakes(c.node, elapsed);
      }
    }
  }

  lemma {:induction false} ClaimsJoin(a: seq<Msg>, b: seq<Msg>)
    ensures Claims(a + b) == Claims(a) + Claims(b)
  {
    if a == [] {
      assert a + b == b;
    } else {
      assert (a + b)[1..] == a[1..] + b;
      ClaimsJoin(a[1..], b);
    }
  }

  // ----- all nodes

  ghost function TotalStake(ns: seq<Node>): nat {
    if ns == [] then 0 else Stake(ns[0]) + TotalStake(ns[1..])
  }

  lemma {:induction false} TotalStakeFalls(ns: seq<Node>, ns': seq<Node>)
    requires |ns'| == |ns| && forall i :: 0 <= i < |ns| ==> Stake(ns'[i]) <= Stake(ns[i])
    ensures TotalStake(ns') <= TotalStake(ns)
    ensures TotalStake(ns') == TotalStake(ns) ==> forall i :: 0 <= i < |ns| ==> Stake(ns'[i]) == Stake(ns[i])
  {
    if ns != [] {
      assert forall i :: 0 <= i < |ns| - 1 ==> ns[1..][i] == ns[i + 1] && ns'[1..][i] == ns'[i + 1];
      TotalStakeFalls(ns[1..], ns'[1..]);
    }
  }

  lemma {:induction false} TotalStakeUpdate(ns: seq<Node>, i: nat, n: Node)
    requires i < |ns|
    ensures TotalStake(ns[i := n]) == TotalStake(ns) - Stake(ns[i]) + Stake(n)
  {
    if i == 0 {
      assert ns[0 := n][1..] == ns[1..];
    } else {
      assert ns[i := n][1..] == ns[1..][i - 1 := n];
      TotalStakeUpdate(ns[1..], i - 1, n);
    }
  }

  lemma {:induction false} TotalStakeIsBounded(ns: seq<Node>)
    ensures TotalStake(ns) <= MOST * |ns|
  {
    if ns != [] {
      StakeIsBounded(ns[0]);
      TotalStakeIsBounded(ns[1..]);
    }
  }

  // ----- what claims cost

  function Times(k: nat, x: nat): nat {
    if k == 0 then 0 else Times(k - 1, x) + x
  }

  lemma {:induction false} TimesMonotone(a: nat, b: nat, x: nat)
    requires a <= b
    ensures Times(a, x) <= Times(b, x)
    decreases b
  {
    if a < b {
      TimesMonotone(a, b - 1, x);
    }
  }

  lemma {:induction false} TimesGrows(k: nat, x: nat, y: nat)
    requires x <= y
    ensures Times(k, x) <= Times(k, y)
  {
    if k > 0 {
      TimesGrows(k - 1, x, y);
    }
  }

  /** The most that answering one claim can cause among `n` nodes. */
  function Top(n: nat): nat {
    Pow(n + 1, n)
  }

  /** The most that `n` claims at once can cause. */
  function Peak(n: nat): nat {
    PeakOf(n, Top(n))
  }

  function PeakOf(n: nat, top: nat): nat {
    Times(n, Times(n, top))
  }

  lemma {:induction false} PowMonotone(b: nat, lo: nat, hi: nat)
    requires b >= 1 && lo <= hi
    ensures Pow(b, lo) <= Pow(b, hi)
    decreases hi
  {
    if lo < hi {
      PowMonotone(b, lo, hi - 1);
      PowPositive(b, hi - 1);
    }
  }

  lemma {:induction false} IndexSize(n: nat, s: set<nat>)
    requires forall i :: i in s ==> i < n
    ensures |s| <= n
  {
    if n == 0 {
      assert s == {};
    } else {
      IndexSize(n - 1, s - {n - 1});
    }
  }

  ghost predicate AtMost(ns: seq<Node>, top: nat) {
    forall e :: Weight(ns, e) <= top
  }

  lemma WeightIsBounded(ns: seq<Node>)
    ensures AtMost(ns, Top(|ns|))
  {
    forall e
      ensures Weight(ns, e) <= Top(|ns|)
    {
      IndexSize(|ns|, Better(ns, e.name));
      PowMonotone(|ns| + 1, |Better(ns, e.name)|, |ns|);
    }
  }

  lemma FewWeighLittle(ns: seq<Node>, es: seq<Envelope>, top: nat)
    requires |es| <= 1 && AtMost(ns, top)
    ensures Load(ns, es) <= top && (es == [] ==> Load(ns, es) == 0)
  {
    if es != [] {
      assert es[1..] == [] && Weight(ns, es[0]) <= top;
    }
  }

  lemma {:induction false} AgeIsWeightless(ns: seq<Node>, es: seq<Envelope>, ms: nat)
    ensures Load(ns, Aged(es, ms)) == Load(ns, es)
  {
    if es != [] {
      assert Aged(es, ms)[1..] == Aged(es[1..], ms);
      assert Better(ns, Aged(es, ms)[0].name) == Better(ns, es[0].name);
      AgeIsWeightless(ns, es[1..], ms);
    }
  }

  lemma {:induction false} AnnouncedWeight(ns: seq<Node>, steps: seq<Step>, j: nat, from: nat, top: nat)
    requires from <= |steps| && AtMost(ns, top) && forall i :: 0 <= i < |steps| ==> |Claims(steps[i].sent)| <= 1
    ensures Load(ns, Announced(steps, j, from)) <= Times(|steps| - from, top)
    decreases |steps| - from
  {
    if from < |steps| {
      AnnouncedWeight(ns, steps, j, from + 1, top);
      var es, rest := if from == j then [] else Claims(steps[from].sent), Announced(steps, j, from + 1);
      FewWeighLittle(ns, es, top);
      LoadAppend(ns, es, rest);
    }
  }

  lemma {:induction false} NothingAnnounced(steps: seq<Step>, j: nat, from: nat)
    requires from <= |steps| && forall i :: 0 <= i < |steps| ==> Claims(steps[i].sent) == []
    ensures Announced(steps, j, from) == []
    decreases |steps| - from
  {
    if from < |steps| {
      NothingAnnounced(steps, j, from + 1);
    }
  }

  lemma {:induction false} TotalLoadRises(ns: seq<Node>, inbox: seq<seq<Envelope>>, inbox': seq<seq<Envelope>>,
                                          most: nat)
    requires |inbox'| == |inbox| && forall j :: 0 <= j < |inbox| ==> Load(ns, inbox'[j]) <= Load(ns, inbox[j]) + most
    ensures TotalLoad(ns, inbox') <= TotalLoad(ns, inbox) + Times(|inbox|, most)
  {
    if inbox != [] {
      assert forall j :: 0 <= j < |inbox| - 1 ==> inbox[1..][j] == inbox[j + 1] && inbox'[1..][j] == inbox'[j + 1];
      TotalLoadRises(ns, inbox[1..], inbox'[1..], most);
    }
  }

  /** Some node makes a claim in this timer pass. */
  ghost predicate SomeoneClaims(net: Net, clocks: seq<nat>)
    requires WellFormed(net) && |clocks| == |net.nodes|
  {
    exists i :: 0 <= i < |net.nodes| && Claims(Update(net.nodes[i], clocks[i]).sent) != []
  }

  lemma BoxAfterTick(net: Net, clocks: seq<nat>, real_: nat, j: nat)
    requires WellFormed(net) && |clocks| == |net.nodes| && j < |net.nodes|
    ensures TickNet(net, clocks, real_).inbox[j] == Aged(net.inbox[j], real_) + Announced(TickSteps(net, clocks), j, 0)
  {
    var ns := net.nodes;
    assert TickSteps(net, clocks) == seq(|ns|, i requires 0 <= i < |ns| => Update(ns[i], clocks[i]));
  }

  lemma BoxLoad(ns: seq<Node>, es: seq<Envelope>, ms: nat, steps: seq<Step>, j: nat, top: nat)
    requires AtMost(ns, top) && forall i :: 0 <= i < |steps| ==> |Claims(steps[i].sent)| <= 1
    ensures Load(ns, Aged(es, ms) + Announced(steps, j, 0)) <= Load(ns, es) + Times(|steps|, top)
    ensures (forall i :: 0 <= i < |steps| ==> Claims(steps[i].sent) == []) ==>
              Load(ns, Aged(es, ms) + Announced(steps, j, 0)) <= Load(ns, es)
  {
    LoadAppend(ns, Aged(es, ms), Announced(steps, j, 0));
    AgeIsWeightless(ns, es, ms);
    AnnouncedWeight(ns, steps, j, 0, top);
    if forall i :: 0 <= i < |steps| ==> Claims(steps[i].sent) == [] {
      NothingAnnounced(steps, j, 0);
    }
  }

  lemma TickLoad(net: Net, clocks: seq<nat>, real_: nat, top: nat)
    requires WellFormed(net) && |clocks| == |net.nodes| && AtMost(net.nodes, top)
    ensures var net' := TickNet(net, clocks, real_);
            && TotalLoad(net'.nodes, net'.inbox) <= TotalLoad(net.nodes, net.inbox) + PeakOf(|net.nodes|, top)
            && (!SomeoneClaims(net, clocks) ==>
                  TotalLoad(net'.nodes, net'.inbox) <= TotalLoad(net.nodes, net.inbox))
  {
    var net', steps, ns := TickNet(net, clocks, real_), TickSteps(net, clocks), net.nodes;
    forall i | 0 <= i < |ns|
      ensures |Claims(steps[i].sent)| <= 1 && net'.nodes[i].name == ns[i].name
    {
      TimeStakes(ns[i], clocks[i]);
      UpdateFacts(ns[i], clocks[i]);
    }
    var most := if SomeoneClaims(net, clocks) then Times(|ns|, top) else 0;
    forall j | 0 <= j < |ns|
      ensures Load(ns, net'.inbox[j]) <= Load(ns, net.inbox[j]) + most
    {
      BoxAfterTick(net, clocks, real_, j);
      BoxLoad(ns, net.inbox[j], real_, steps, j, top);
    }
    TotalLoadRises(ns, net.inbox, net'.inbox, most);
    TimesNothing(|ns|);
    LoadDependsOnNames(ns, net'.nodes, net'.inbox);
  }

  lemma PostNothing(inbox: seq<seq<Envelope>>, i: nat)
    ensures Post(inbox, i, []) == inbox
  {
    forall j | 0 <= j < |inbox|
      ensures Post(inbox, i, [])[j] == inbox[j]
    {
      assert inbox[j] + [] == inbox[j];
    }
  }

  // Posting at most one claim of a node's own.
  lemma PostLoad(ns: seq<Node>, inbox: seq<seq<Envelope>>, i: nat, es: seq<Envelope>, top: nat)
    requires |es| <= 1 && |inbox| == |ns| && i < |ns| && AtMost(ns, top)
    ensures TotalLoad(ns, Post(inbox, i, es)) <= TotalLoad(ns, inbox) + PeakOf(|ns|, top)
    ensures es == [] ==> TotalLoad(ns, Post(inbox, i, es)) == TotalLoad(ns, inbox)
  {
    if es == [] {
      PostNothing(inbox, i);
    } else {
      FewWeighLittle(ns, es, top);
      forall j | 0 <= j < |inbox|
        ensures Load(ns, Post(inbox, i, es)[j]) <= Load(ns, inbox[j]) + top
      {
        LoadAppend(ns, inbox[j], es);
      }
      TotalLoadRises(ns, inbox, Post(inbox, i, es), top);
      OneIsNotMany(|ns|, top);
    }
  }

  lemma OneIsNotMany(n: nat, top: nat)
    requires n >= 1
    ensures Times(n, top) <= PeakOf(n, top)
  {
    TimesMonotone(1, n, top);
    assert Times(1, top) == Times(0, top) + top;
    TimesGrows(n, top, Times(n, top));
  }

  lemma {:induction false} TimesNothing(k: nat)
    ensures Times(k, 0) == 0
  {
    if k > 0 {
      TimesNothing(k - 1);
    }
  }

  // ----- every step of the bus

  /** Bounds the traffic still to come if nobody starts or asks. */
  ghost function Potential(net: Net): nat {
    Times(TotalStake(net.nodes), Peak(|net.nodes|) + 1) + TotalLoad(net.nodes, net.inbox)
  }

  /** The most that one start or request can add to it, among `n` nodes. */
  function Cost(n: nat): nat {
    MOST * (Peak(n) + 1)
  }

  lemma Exchange(stake': nat, stake: nat, k: nat, load': nat, load: nat)
    requires stake' < stake && load' <= load + k
    ensures Times(stake', k + 1) + load' < Times(stake, k + 1) + load
  {
    TimesMonotone(stake' + 1, stake, k + 1);
  }

  lemma {:induction false} Raise(stake': nat, stake: nat, more: nat, x: nat)
    requires stake' <= stake + more
    ensures Times(stake', x) <= Times(stake, x) + more * x
    decreases more
  {
    if more == 0 || stake' == 0 {
      TimesMonotone(stake', stake, x);
    } else {
      Raise(stake' - 1, stake, more - 1, x);
      Distribute(more - 1, x);
    }
  }

  lemma DeliverySpends(net: Net, i: nat, k: nat)
    requires Inv(net, None) && Enabled(net, Deliver(i, k))
    ensures var net' := Delivered(net, i, k);
            && Stake(net'.nodes[i]) <= Stake(net.nodes[i]) && TotalStake(net'.nodes) <= TotalStake(net.nodes)
            && Potential(net') < Potential(net)
  {
    var ns, n, e, net' := net.nodes, net.nodes[i], net.inbox[i][k], Delivered(net, i, k);
    var s := HandleClaim(n, e.address, e.name);
    HearingStakes(n, e.address, e.name);
    ClaimCosts(n, e.address, e.name);
    ClaimFacts(n, e.address, e.name);
    TotalStakeUpdate(ns, i, s.node);
    LoadDependsOnNames(ns, net'.nodes, net'.inbox);
    if Stake(s.node) == Stake(n) {
      DeliveryLightens(ns, net.inbox, i, k, Claims(s.sent), net'.inbox);
    } else {
      DeliveryLoad(ns, net.inbox, i, k, Claims(s.sent));
    }
    PotentialDrops(net, net');
  }

  lemma PotentialDrops(net: Net, net': Net)
    requires |net'.nodes| == |net.nodes|
    requires var load', load := TotalLoad(net'.nodes, net'.inbox), TotalLoad(net.nodes, net.inbox);
             || (TotalStake(net'.nodes) < TotalStake(net.nodes) && load' <= load + Peak(|net.nodes|))
             || (TotalStake(net'.nodes) == TotalStake(net.nodes) && load' < load)
    ensures Potential(net') < Potential(net)
  {
    if TotalStake(net'.nodes) < TotalStake(net.nodes) {
      Exchange(TotalStake(net'.nodes), TotalStake(net.nodes), Peak(|net.nodes|), TotalLoad(net'.nodes, net'.inbox),
               TotalLoad(net.nodes, net.inbox));
    }
  }

  lemma DeliveryLoad(ns: seq<Node>, inbox: seq<seq<Envelope>>, i: nat, k: nat, es: seq<Envelope>)
    requires i < |ns| == |inbox| && k < |inbox[i]| && |es| <= 1
    ensures var rest := inbox[i := inbox[i][..k] + inbox[i][k + 1..]];
            TotalLoad(ns, Post(rest, i, es)) <= TotalLoad(ns, inbox) + Peak(|ns|)
  {
    var box := inbox[i][..k] + inbox[i][k + 1..];
    LoadTakenOut(ns, inbox[i], k);
    TotalLoadUpdate(ns, inbox, i, box);
    WeightIsBounded(ns);
    PostLoad(ns, inbox[i := box], i, es, Top(|ns|));
  }

  lemma TimeStaked(net: Net, clocks: seq<nat>, real_: nat)
    requires Inv(net, None) && |clocks| == |net.nodes|
    ensures var net' := TickNet(net, clocks, real_);
            && |net'.nodes| == |net.nodes|
            && (forall i :: 0 <= i < |net.nodes| ==> Stake(net'.nodes[i]) <= Stake(net.nodes[i]))
            && TotalStake(net'.nodes) <= TotalStake(net.nodes)
            && (SomeoneClaims(net, clocks) ==> TotalStake(net'.nodes) < TotalStake(net.nodes))
  {
    var net', ns := TickNet(net, clocks, real_), net.nodes;
    forall i | 0 <= i < |ns|
      ensures Stake(net'.nodes[i]) <= Stake(ns[i])
      ensures Claims(Update(ns[i], clocks[i]).sent) != [] ==> Stake(net'.nodes[i]) < Stake(ns[i])
    {
      TimeStakes(ns[i], clocks[i]);
    }
    TotalStakeFalls(ns, net'.nodes);
  }

  lemma PotentialFalls(net: Net, net': Net)
    requires |net'.nodes| == |net.nodes| && TotalStake(net'.nodes) <= TotalStake(net.nodes)
    requires TotalLoad(net'.nodes, net'.inbox) <= TotalLoad(net.nodes, net.inbox) +
                                                  (if TotalStake(net'.nodes) < TotalStake(net.nodes)
                                                   then Peak(|net.nodes|) else 0)
    ensures Potential(net') <= Potential(net)
    ensures TotalStake(net'.nodes) < TotalStake(net.nodes) ==> Potential(net') < Potential(net)
  {
    if TotalStake(net'.nodes) < TotalStake(net.nodes) {
      PotentialDrops(net, net');
    }
  }

  lemma TimeSpends(net: Net, clocks: seq<nat>, real_: nat)
    requires Inv(net, None) && |clocks| == |net.nodes|
    ensures var net' := TickNet(net, clocks, real_);
            && Potential(net') <= Potential(net)
            && (TotalStake(net'.nodes) < TotalStake(net.nodes) ==> Potential(net') < Potential(net))
            && (SomeoneClaims(net, clocks) ==> Potential(net') < Potential(net))
  {
    TimeStaked(net, clocks, real_);
    WeightIsBounded(net.nodes);
    TickLoad(net, clocks, real_, Top(|net.nodes|));
    PotentialFalls(net, TickNet(net, clocks, real_));
  }

  lemma AskingSpends(net: Net, i: nat)
    requires Inv(net, None) && i < |net.nodes|
    ensures var net' := Next(net, RequestAt(i));
            && Stake(net'.nodes[i]) == Stake(net.nodes[i]) && TotalStake(net'.nodes) == TotalStake(net.nodes)
            && Potential(net') <= Potential(net) + Cost(|net.nodes|)
  {
    var ns, net' := net.nodes, Next(net, RequestAt(i));
    var s := HandleRequest(ns[i]);
    AskingStakes(ns[i]);
    RequestFacts(ns[i]);
    TotalStakeUpdate(ns, i, s.node);
    LoadDependsOnNames(ns, net'.nodes, net'.inbox);
    WeightIsBounded(ns);
    PostLoad(ns, net.inbox, i, Claims(s.sent), Top(|ns|));
  }

  lemma StartingSpends(net: Net, i: nat)
    requires Inv(net, None) && i < |net.nodes|
    ensures Potential(Next(net, StartAt(i))) <= Potential(net) + Cost(|net.nodes|)
  {
    var ns, net' := net.nodes, Next(net, StartAt(i));
    var s := Start(ns[i]);
    StartFacts(ns[i]);
    StakeIsBounded(s.node);
    TotalStakeUpdate(ns, i, s.node);
    LoadDependsOnNames(ns, net'.nodes, net'.inbox);
    WeightIsBounded(ns);
    PostLoad(ns, net.inbox, i, [], Top(|ns|));
    PotentialRises(net, net');
  }

  lemma PotentialRises(net: Net, net': Net)
    requires |net'.nodes| == |net.nodes| && TotalStake(net'.nodes) <= TotalStake(net.nodes) + MOST
    requires TotalLoad(net'.nodes, net'.inbox) <= TotalLoad(net.nodes, net.inbox)
    ensures Potential(net') <= Potential(net) + Cost(|net.nodes|)
  {
    Raise(TotalStake(net'.nodes), TotalStake(net.nodes), MOST, Peak(|net.nodes|) + 1);
  }

  // ----- every run

  ghost predicate IsPath(nets: seq<Net>, actions: seq<Action>) {
    && |nets| == |actions| + 1
    && forall k :: 0 <= k < |actions| ==> Enabled(nets[k], actions[k]) && nets[k + 1] == Next(nets[k], actions[k])
  }

  /** Deliveries, and timer passes in which a claim goes out. */
  ghost predicate IsTraffic(net: Net, a: Action) {
    a.Deliver? || (a.Tick? && WellFormed(net) && |a.clocks| == |net.nodes| && SomeoneClaims(net, a.clocks))
  }

  ghost function Traffic(nets: seq<Net>, actions: seq<Action>, k: nat): nat
    requires k <= |actions| <= |nets|
  {
    if k == 0 then 0 else Traffic(nets, actions, k - 1) + if IsTraffic(nets[k - 1], actions[k - 1]) then 1 else 0
  }

  /** Starts and requests. */
  function Prompts(actions: seq<Action>, k: nat): nat
    requires k <= |actions|
  {
    if k == 0 then 0
    else Prompts(actions, k - 1) + if actions[k - 1].StartAt? || actions[k - 1].RequestAt? then 1 else 0
  }

  lemma {:induction false} PathKeepsInv(nets: seq<Net>, actions: seq<Action>, k: nat)
    requires IsPath(nets, actions) && Inv(nets[0], None) && k <= |actions|
    ensures Inv(nets[k], None) && |nets[k].nodes| == |nets[0].nodes|
  {
    if k > 0 {
      PathKeepsInv(nets, actions, k - 1);
      NextKeepsInv(nets[k - 1], actions[k - 1], None);
    }
  }

  lemma StepSpends(net: Net, a: Action)
    requires Inv(net, None) && Enabled(net, a)
    ensures var p := Potential(Next(net, a)) + if IsTraffic(net, a) then 1 else 0;
            p <= Potential(net) + if a.StartAt? || a.RequestAt? then Cost(|net.nodes|) else 0
  {
    match a
    case StartAt(i) => StartingSpends(net, i);
    case RequestAt(i) => AskingSpends(net, i);
    case Deliver(i, k) => DeliverySpends(net, i, k);
    case Tick(clocks, real_) => TimeSpends(net, clocks, real_);
  }

  lemma Tally(traffic: nat, t: nat, potential: nat, potential': nat, start: nat, cost: nat, prompts: nat, p: nat)
    requires p <= 1 && traffic + potential <= start + prompts * cost && potential' + t <= potential + p * cost
    ensures traffic + t + potential' <= start + (prompts + p) * cost
  {
    Distribute(prompts, cost);
  }

  /** One step costs what it brings about. */
  ghost predicate Tallies(net: Net, a: Action, net': Net, cost: nat) {
    Potential(net') + (if IsTraffic(net, a) then 1 else 0)
    <= Potential(net) + if a.StartAt? || a.RequestAt? then cost else 0
  }

  lemma {:induction false} TalliesAddUp(nets: seq<Net>, actions: seq<Action>, cost: nat, k: nat)
    requires k <= |actions| < |nets| && forall j :: 0 <= j < k ==> Tallies(nets[j], actions[j], nets[j + 1], cost)
    ensures Traffic(nets, actions, k) + Potential(nets[k]) <= Potential(nets[0]) + Prompts(actions, k) * cost
  {
    if k > 0 {
      TalliesAddUp(nets, actions, cost, k - 1);
      var net, a := nets[k - 1], actions[k - 1];
      assert Tallies(net, a, nets[k - 1 + 1], cost);
      Tally(Traffic(nets, actions, k - 1), if IsTraffic(net, a) then 1 else 0, Potential(net), Potential(nets[k]),
            Potential(nets[0]), cost, Prompts(actions, k - 1), if a.StartAt? || a.RequestAt? then 1 else 0);
    }
  }

  // MAIN RESULT. In every run of the bus, whatever happens in whatever order and however the clocks run, the
  // deliveries and the timer passes that make claims are bounded by where the run began and by the number of
  // starts and requests in it: claiming never feeds itself.
  lemma TrafficIsBounded(nets: seq<Net>, actions: seq<Action>, k: nat)
    requires IsPath(nets, actions) && Inv(nets[0], None) && k <= |actions|
    ensures Traffic(nets, actions, k) + Potential(nets[k])
            <= Potential(nets[0]) + Prompts(actions, k) * Cost(|nets[0].nodes|)
  {
    forall j | 0 <= j < k
      ensures Tallies(nets[j], actions[j], nets[j + 1], Cost(|nets[0].nodes|))
    {
      PathKeepsInv(nets, actions, j);
      StepSpends(nets[j], actions[j]);
    }
    TalliesAddUp(nets, actions, Cost(|nets[0].nodes|), k);
  }

  // ----- the passage of time

  /** The time that passes for node `i` in an action. */
  function Ms(a: Action, i: nat): nat {
    if a.Tick? && i < |a.clocks| then a.clocks[i] else 0
  }

  /** And from step `p` to step `q` of a run. */
  function Elapsed(actions: seq<Action>, i: nat, p: nat, q: nat): nat
    requires q <= |actions|
    decreases q
  {
    if q <= p then 0 else Elapsed(actions, i, p, q - 1) + Ms(actions[q - 1], i)
  }

  /** A better NAME claims the address of node `i`, which it may have yielded before. */
  predicate IsChallenge(net: Net, a: Action, i: nat) {
    && a.Deliver? && a.i == i < |net.nodes| && i < |net.inbox| && a.k < |net.inbox[i]|
    && Challenged(net.nodes[i], net.inbox[i][a.k].address, net.inbox[i][a.k].name)
  }

  lemma StepOnward(net: Net, a: Action, i: nat)
    requires Inv(net, None) && Enabled(net, a) && !a.StartAt? && i < |net.nodes|
    ensures var net' := Next(net, a);
            && Inv(net', None) && |net'.nodes| == |net.nodes|
            && TotalStake(net'.nodes) <= TotalStake(net.nodes) && Stake(net'.nodes[i]) <= Stake(net.nodes[i])
            && (Stake(net'.nodes[i]) == Stake(net.nodes[i]) ==>
                  Onward(net.nodes[i], net'.nodes[i], Ms(a, i), a.Tick?, IsChallenge(net, a, i)))
  {
    NextKeepsInv(net, a, None);
    var n := net.nodes[i];
    match a {
      case RequestAt(j) =>
        AskingSpends(net, j);
        AskingStakes(n);
        NothingIsOnward(n);
      case Deliver(j, k) =>
        DeliverySpends(net, j, k);
        HearingStakes(net.nodes[j], net.inbox[j][k].address, net.inbox[j][k].name);
        NothingIsOnward(n);
      case Tick(clocks, real_) =>
        TimeStaked(net, clocks, real_);
        TimeStakes(n, clocks[i]);
    }
  }

  lemma NothingIsOnward(n: Node)
    requires NodeOk(n)
    ensures Onward(n, n, 0, false, false)
  {
  }

  /** No node loses anything between steps `p` and `q`. */
  ghost predicate Even(nets: seq<Net>, p: nat, q: nat) {
    p <= q < |nets| && forall k :: p <= k <= q ==> TotalStake(nets[k].nodes) == TotalStake(nets[p].nodes)
  }

  ghost predicate NoStarts(actions: seq<Action>, p: nat, q: nat) {
    p <= q <= |actions| && forall k :: p <= k < q ==> !actions[k].StartAt?
  }

  /** From `p` to `q` the stake of node `i` stays as it is. */
  ghost predicate GoesOn(nets: seq<Net>, actions: seq<Action>, i: nat, p: nat, q: nat) {
    && p <= q <= |actions| < |nets| && (forall k :: p <= k <= q ==> i < |nets[k].nodes| && NodeOk(nets[k].nodes[i]))
    && forall k :: p <= k < q ==>
         Onward(nets[k].nodes[i], nets[k + 1].nodes[i], Ms(actions[k], i), actions[k].Tick?,
                IsChallenge(nets[k], actions[k], i))
  }

  lemma StepIsEven(net: Net, a: Action)
    requires Inv(net, None) && Enabled(net, a) && !a.StartAt? && TotalStake(Next(net, a).nodes) == TotalStake(net.nodes)
    ensures |Next(net, a).nodes| == |net.nodes|
    ensures forall i :: 0 <= i < |net.nodes| ==>
              Onward(net.nodes[i], Next(net, a).nodes[i], Ms(a, i), a.Tick?, IsChallenge(net, a, i))
  {
    var net' := Next(net, a);
    NextKeepsInv(net, a, None);
    forall i | 0 <= i < |net.nodes|
      ensures |net'.nodes| == |net.nodes| && Stake(net'.nodes[i]) <= Stake(net.nodes[i])
    {
      StepOnward(net, a, i);
    }
    TotalStakeFalls(net.nodes, net'.nodes);
    forall i | 0 <= i < |net.nodes|
      ensures Onward(net.nodes[i], net'.nodes[i], Ms(a, i), a.Tick?, IsChallenge(net, a, i))
    {
      StepOnward(net, a, i);
    }
  }

  lemma EvenGoesOn(nets: seq<Net>, actions: seq<Action>, i: nat, p: nat, q: nat)
    requires IsPath(nets, actions) && Inv(nets[0], None) && NoStarts(actions, p, q) && Even(nets, p, q)
    requires i < |nets[0].nodes|
    ensures GoesOn(nets, actions, i, p, q)
  {
    forall k | p <= k <= q
      ensures i < |nets[k].nodes| && NodeOk(nets[k].nodes[i])
    {
      PathKeepsInv(nets, actions, k);
    }
    forall k | p <= k < q
      ensures Onward(nets[k].nodes[i], nets[k + 1].nodes[i], Ms(actions[k], i), actions[k].Tick?,
                     IsChallenge(nets[k], actions[k], i))
    {
      PathKeepsInv(nets, actions, k);
      assert TotalStake(nets[k + 1].nodes) == TotalStake(nets[p].nodes) == TotalStake(nets[k].nodes);
      StepIsEven(nets[k], actions[k]);
    }
  }

  ghost predicate HasTick(actions: seq<Action>, p: nat, q: nat) {
    exists k :: p <= k < q <= |actions| && actions[k].Tick?
  }

  lemma {:induction false} TimeNeedsTicks(actions: seq<Action>, i: nat, p: nat, q: nat)
    requires q <= |actions| && Elapsed(actions, i, p, q) > 0
    ensures HasTick(actions, p, q)
    decreases q
  {
    if !actions[q - 1].Tick? {
      TimeNeedsTicks(actions, i, p, q - 1);
    }
  }

  lemma {:induction false} ListeningGoesOn(nets: seq<Net>, actions: seq<Action>, i: nat, p: nat, q: nat)
    requires GoesOn(nets, actions, i, p, q) && nets[p].nodes[i].listening
    ensures var n, n' := nets[p].nodes[i], nets[q].nodes[i];
            && n'.listening && n'.listenTimer == SaturatingAdd32(n.listenTimer, Elapsed(actions, i, p, q))
            && n'.timeout == n.timeout && (HasTick(actions, p, q) ==> n'.listenTimer < n.timeout)
    decreases q
  {
    if p < q {
      ListeningGoesOn(nets, actions, i, p, q - 1);
    }
  }

  lemma {:induction false} WaitingGoesOn(nets: seq<Net>, actions: seq<Action>, i: nat, p: nat, q: nat)
    requires GoesOn(nets, actions, i, p, q) && Waiting(nets[p].nodes[i])
    ensures var n, n' := nets[p].nodes[i], nets[q].nodes[i];
            && Waiting(n') && n'.rtxd == n.rtxd
            && (Lull(nets, actions, i, p, q) ==>
                  && n'.reclaimTimer == SaturatingAdd32(n.reclaimTimer, Elapsed(actions, i, p, q))
                  && (HasTick(actions, p, q) ==> n'.reclaimTimer < n.rtxd))
    decreases q
  {
    if p < q {
      WaitingGoesOn(nets, actions, i, p, q - 1);
    }
  }

  lemma {:induction false} ContestGoesOn(nets: seq<Net>, actions: seq<Action>, i: nat, p: nat, q: nat)
    requires GoesOn(nets, actions, i, p, q) && Contesting(nets[p].nodes[i])
    ensures var n, n' := nets[p].nodes[i], nets[q].nodes[i];
            || AtRest(n')
            || (&& Contesting(n') && n'.guard == SaturatingAdd32(n.guard, Elapsed(actions, i, p, q))
                && n'.timeout == n.timeout && (HasTick(actions, p, q) ==> n'.guard < n.timeout))
    decreases q
  {
    if p < q {
      ContestGoesOn(nets, actions, i, p, q - 1);
    }
  }

  lemma {:induction false} RestGoesOn(nets: seq<Net>, actions: seq<Action>, i: nat, p: nat, q: nat)
    requires GoesOn(nets, actions, i, p, q) && AtRest(nets[p].nodes[i])
    ensures AtRest(nets[q].nodes[i])
    decreases q
  {
    if p < q {
      RestGoesOn(nets, actions, i, p, q - 1);
    }
  }

  /** From `u` to `v` nobody challenges node `i`. */
  ghost predicate Lull(nets: seq<Net>, actions: seq<Action>, i: nat, u: nat, v: nat) {
    u <= v <= |actions| < |nets| && forall k :: u <= k < v ==> !IsChallenge(nets[k], actions[k], i)
  }

  ghost predicate LullWithin(nets: seq<Net>, actions: seq<Action>, i: nat, ms: nat, p: nat, q: nat) {
    exists u, v :: p <= u <= v <= q && Lull(nets, actions, i, u, v) && Elapsed(actions, i, u, v) >= ms
  }

  /**
   From `p` to `q` a contest window passes for every node, in steps of any size and with anything going on, and
   a node that waits to move is for its random delay not challenged.
   */
  ghost predicate Fair(nets: seq<Net>, actions: seq<Action>, p: nat, q: nat) {
    && p <= q <= |actions| < |nets| && HasTick(actions, p, q)
    && forall i :: 0 <= i < |nets[p].nodes| ==>
         var n := nets[p].nodes[i];
         && Elapsed(actions, i, p, q) >= n.timeout
         && (Waiting(n) ==> LullWithin(nets, actions, i, n.rtxd, p, q))
  }

  /** The timers can reach their limits, which are 32-bit numbers as they are. */
  ghost predicate WindowsFit(net: Net) {
    forall i :: 0 <= i < |net.nodes| ==> net.nodes[i].timeout <= U32_MAX && net.nodes[i].rtxd <= U32_MAX
  }

  ghost predicate AllAtRest(net: Net) {
    forall i :: 0 <= i < |net.nodes| ==> AtRest(net.nodes[i])
  }

  lemma WaitingIsOver(nets: seq<Net>, actions: seq<Action>, i: nat, p: nat, u: nat, v: nat)
    requires p <= u <= v && GoesOn(nets, actions, i, p, v) && Lull(nets, actions, i, u, v)
    requires nets[p].nodes[i].rtxd <= U32_MAX && Elapsed(actions, i, u, v) >= nets[p].nodes[i].rtxd
    ensures !Waiting(nets[p].nodes[i])
  {
    if Waiting(nets[p].nodes[i]) {
      WaitingGoesOn(nets, actions, i, p, u);
      TimeNeedsTicks(actions, i, u, v);
      WaitingGoesOn(nets, actions, i, u, v);
    }
  }

  lemma ListeningIsOver(nets: seq<Net>, actions: seq<Action>, i: nat, p: nat, q: nat)
    requires GoesOn(nets, actions, i, p, q) && HasTick(actions, p, q)
    requires nets[p].nodes[i].timeout <= U32_MAX && Elapsed(actions, i, p, q) >= nets[p].nodes[i].timeout
    ensures !nets[p].nodes[i].listening
  {
    if nets[p].nodes[i].listening {
      ListeningGoesOn(nets, actions, i, p, q);
    }
  }

  lemma NodeRests(nets: seq<Net>, actions: seq<Action>, i: nat, p: nat, q: nat)
    requires GoesOn(nets, actions, i, p, q) && Fair(nets, actions, p, q) && WindowsFit(nets[p])
    ensures AtRest(nets[q].nodes[i])
  {
    var n := nets[p].nodes[i];
    WhatIsLeft(n);
    ListeningIsOver(nets, actions, i, p, q);
    if AtRest(n) {
      RestGoesOn(nets, actions, i, p, q);
    } else if Contesting(n) {
      ContestGoesOn(nets, actions, i, p, q);
    } else {
      var u, v :| p <= u <= v <= q && Lull(nets, actions, i, u, v) && Elapsed(actions, i, u, v) >= n.rtxd;
      WaitingIsOver(nets, actions, i, p, u, v);
    }
  }

  lemma {:induction false} FallingStakes(nets: seq<Net>, p: nat, q: nat)
    requires p <= q < |nets|
    requires forall k :: p <= k < q ==> TotalStake(nets[k + 1].nodes) <= TotalStake(nets[k].nodes)
    ensures TotalStake(nets[q].nodes) <= TotalStake(nets[p].nodes)
    ensures TotalStake(nets[q].nodes) == TotalStake(nets[p].nodes) ==> Even(nets, p, q)
    decreases q
  {
    if p < q {
      FallingStakes(nets, p, q - 1);
      assert TotalStake(nets[q - 1 + 1].nodes) <= TotalStake(nets[q - 1].nodes);
    }
  }

  lemma StakeNeverGrows(nets: seq<Net>, actions: seq<Action>, p: nat, q: nat)
    requires IsPath(nets, actions) && Inv(nets[0], None) && NoStarts(actions, p, q)
    ensures TotalStake(nets[q].nodes) <= TotalStake(nets[p].nodes)
    ensures TotalStake(nets[q].nodes) == TotalStake(nets[p].nodes) ==> Even(nets, p, q)
  {
    forall k | p <= k < q
      ensures TotalStake(nets[k + 1].nodes) <= TotalStake(nets[k].nodes)
    {
      PathKeepsInv(nets, actions, k);
      StepStake(nets[k], actions[k]);
    }
    FallingStakes(nets, p, q);
  }

  lemma StepStake(net: Net, a: Action)
    requires Inv(net, None) && Enabled(net, a) && !a.StartAt?
    ensures TotalStake(Next(net, a).nodes) <= TotalStake(net.nodes)
  {
    match a
    case RequestAt(i) => AskingSpends(net, i);
    case Deliver(i, k) => DeliverySpends(net, i, k);
    case Tick(clocks, real_) => TimeStaked(net, clocks, real_);
  }

  // A fair stretch of a run brings every node to rest, or some node has lost an address or made a claim in it.
  lemma StretchRests(nets: seq<Net>, actions: seq<Action>, p: nat, q: nat)
    requires IsPath(nets, actions) && Inv(nets[0], None) && NoStarts(actions, p, q)
    requires Fair(nets, actions, p, q) && WindowsFit(nets[p])
    ensures AllAtRest(nets[q]) || TotalStake(nets[q].nodes) < TotalStake(nets[p].nodes)
  {
    StakeNeverGrows(nets, actions, p, q);
    PathKeepsInv(nets, actions, p);
    PathKeepsInv(nets, actions, q);
    if TotalStake(nets[q].nodes) == TotalStake(nets[p].nodes) {
      forall i | 0 <= i < |nets[q].nodes|
        ensures AtRest(nets[q].nodes[i])
      {
        EvenGoesOn(nets, actions, i, p, q);
        NodeRests(nets, actions, i, p, q);
      }
    }
  }

  /** `cuts` divides a run without starts into fair stretches. */
  ghost predicate Stretches(nets: seq<Net>, actions: seq<Action>, cuts: seq<nat>) {
    && |cuts| > 0 && (forall k :: 0 <= k < |cuts| ==> cuts[k] <= |actions|)
    && forall k :: 0 <= k < |cuts| - 1 ==>
         NoStarts(actions, cuts[k], cuts[k + 1]) && Fair(nets, actions, cuts[k], cuts[k + 1])
  }

  /** How many of the first `k` stretches do not end with every node at rest. */
  ghost function Restless(nets: seq<Net>, cuts: seq<nat>, k: nat): nat
    requires k < |cuts| && forall j :: 0 <= j < |cuts| ==> cuts[j] < |nets|
  {
    if k == 0 then 0 else Restless(nets, cuts, k - 1) + if AllAtRest(nets[cuts[k]]) then 0 else 1
  }

  lemma {:induction false} RestlessIsBounded(nets: seq<Net>, actions: seq<Action>, cuts: seq<nat>, k: nat)
    requires IsPath(nets, actions) && Inv(nets[0], None) && WindowsFit(nets[0])
    requires Stretches(nets, actions, cuts) && k < |cuts|
    ensures Restless(nets, cuts, k) + TotalStake(nets[cuts[k]].nodes) <= TotalStake(nets[cuts[0]].nodes)
  {
    if k > 0 {
      RestlessIsBounded(nets, actions, cuts, k - 1);
      var p, q := cuts[k - 1], cuts[k];
      PathKeepsWindows(nets, actions, p);
      StakeNeverGrows(nets, actions, p, q);
      StretchRests(nets, actions, p, q);
    }
  }

  lemma {:induction false} PathKeepsWindows(nets: seq<Net>, actions: seq<Action>, k: nat)
    requires IsPath(nets, actions) && Inv(nets[0], None) && k <= |actions|
    ensures Inv(nets[k], None) && |nets[k].nodes| == |nets[0].nodes|
    ensures forall i :: 0 <= i < |nets[0].nodes| ==> SameNode(nets[0].nodes[i], nets[k].nodes[i])
    ensures WindowsFit(nets[0]) ==> WindowsFit(nets[k])
  {
    if k > 0 {
      PathKeepsWindows(nets, actions, k - 1);
      PathKeepsInv(nets, actions, k);
      StepKeepsNodes(nets[k - 1], actions[k - 1]);
    }
  }

  lemma StepKeepsNodes(net: Net, a: Action)
    requires Inv(net, None) && Enabled(net, a)
    ensures |Next(net, a).nodes| == |net.nodes|
    ensures forall i :: 0 <= i < |net.nodes| ==> SameNode(net.nodes[i], Next(net, a).nodes[i])
  {
    match a {
      case StartAt(i) => StartFacts(net.nodes[i]);
      case RequestAt(i) => RequestFacts(net.nodes[i]);
      case Deliver(i, k) => ClaimFacts(net.nodes[i], net.inbox[i][k].address, net.inbox[i][k].name);
      case Tick(clocks, real_) =>
        forall i | 0 <= i < |net.nodes|
          ensures SameNode(net.nodes[i], Next(net, a).nodes[i])
        {
          UpdateFacts(net.nodes[i], clocks[i]);
        }
    }
  }

  // MAIN RESULT. In every run without restarts, with deliveries, requests and time in any order and in steps of
  // any size: of the stretches in which a window passes and waiting nodes are left alone for their delay, all
  // but 269 a node end with every started node in the Claimed state or failed.
  lemma NodesComeToRest(nets: seq<Net>, actions: seq<Action>, cuts: seq<nat>)
    requires IsPath(nets, actions) && Inv(nets[0], None) && WindowsFit(nets[0]) && Stretches(nets, actions, cuts)
    ensures Restless(nets, cuts, |cuts| - 1) <= MOST * |nets[0].nodes|
  {
    RestlessIsBounded(nets, actions, cuts, |cuts| - 1);
    PathKeepsInv(nets, actions, cuts[0]);
    TotalStakeIsBounded(nets[cuts[0]].nodes);
  }

  // ----- without requests, for good

  /** Nothing is under way, and every started node has claimed an address or given up. */
  ghost predicate Settled(net: Net) {
    Quiet(net) && AllAtRest(net)
  }

  /** Only deliveries and time, a window and a delay for every node, and not all claims held up. */
  ghost predicate Moving(nets: seq<Net>, actions: seq<Action>, p: nat, q: nat) {
    && p <= q <= |actions| < |nets| && HasTick(actions, p, q)
    && (forall k :: p <= k < q ==> actions[k].Deliver? || actions[k].Tick?)
    && (forall i :: 0 <= i < |nets[p].nodes| ==>
          Elapsed(actions, i, p, q) >= nets[p].nodes[i].timeout && Elapsed(actions, i, p, q) >= nets[p].nodes[i].rtxd)
    && (Quiet(nets[p]) || exists k :: p <= k < q && actions[k].Deliver?)
  }

  lemma RestIsSilent(n: Node, elapsed: nat)
    requires NodeOk(n) && AtRest(n)
    ensures var s := Update(n, elapsed); AtRest(s.node) && Claims(s.sent) == []
  {
    TimeStakes(n, elapsed);
    var c := CannotClaimPart(n, elapsed);
    if n.reclaimPending {
      StillNoneFree(n, c.node);
      GivingUpIsSilent(c.node, elapsed);
      ClaimsJoin(c.sent, ReclaimPart(c.node, elapsed).sent);
    }
  }

  lemma GivingUpIsSilent(n: Node, elapsed: nat)
    requires NodeOk(n) && n.reclaimPending && n.state == Failed && NoneFree(n)
    ensures var s := ReclaimPart(n, elapsed); AtRest(s.node) && Claims(s.sent) == []
  {
    ReclaimedIsFree(n);
    StillNoneFree(n, ReclaimPart(n, elapsed).node);
    SingleClaim(n.name, NULL_ADDRESS);
  }

  lemma EmptyOrNot(es: seq<Envelope>)
    ensures es == [] || exists e :: e in es
  {
    if es != [] {
      assert es[0] in es;
    }
  }

  // If nobody claims anything, nothing is under way afterwards either.
  lemma SilentTick(net: Net, clocks: seq<nat>, real_: nat)
    requires WellFormed(net) && Quiet(net) && |clocks| == |net.nodes| && !SomeoneClaims(net, clocks)
    ensures Quiet(Next(net, Tick(clocks, real_)))
  {
    var net' := Next(net, Tick(clocks, real_));
    TickShape(net, clocks, real_);
    forall j | 0 <= j < |net'.inbox|
      ensures net'.inbox[j] == []
    {
      EmptyOrNot(net'.inbox[j]);
    }
  }

  lemma SettledStays(net: Net, a: Action)
    requires Inv(net, None) && Enabled(net, a) && Settled(net) && (a.Deliver? || a.Tick?)
    ensures Settled(Next(net, a))
  {
    forall i | 0 <= i < |net.nodes|
      ensures var s := Update(net.nodes[i], a.clocks[i]); AtRest(s.node) && Claims(s.sent) == []
    {
      RestIsSilent(net.nodes[i], a.clocks[i]);
    }
    SilentTick(net, a.clocks, a.real_);
  }

  lemma {:induction false} SettledForGood(nets: seq<Net>, actions: seq<Action>, p: nat, q: nat)
    requires IsPath(nets, actions) && Inv(nets[0], None) && p <= q <= |actions| && Settled(nets[p])
    requires forall k :: p <= k < q ==> actions[k].Deliver? || actions[k].Tick?
    ensures Settled(nets[q])
    decreases q
  {
    if p < q {
      SettledForGood(nets, actions, p, q - 1);
      PathKeepsInv(nets, actions, q - 1);
      SettledStays(nets[q - 1], actions[q - 1]);
    }
  }

  /** From `p` to `q` nothing is delivered, claimed or lost. */
  ghost predicate Still(nets: seq<Net>, actions: seq<Action>, p: nat, q: nat) {
    && p <= q <= |actions| < |nets| && TotalStake(nets[q].nodes) == TotalStake(nets[p].nodes)
    && (forall k :: p <= k < q ==> actions[k].Tick?) && (Quiet(nets[p]) ==> Quiet(nets[q]))
  }

  /** One step: the potential falls, or time passes and nothing else happens. */
  ghost predicate StillStep(net: Net, a: Action, net': Net) {
    || Potential(net') < Potential(net)
    || (&& Potential(net') == Potential(net) && a.Tick? && TotalStake(net'.nodes) == TotalStake(net.nodes)
        && (Quiet(net) ==> Quiet(net')))
  }

  lemma StepIsStill(net: Net, a: Action)
    requires Inv(net, None) && Enabled(net, a) && (a.Deliver? || a.Tick?)
    ensures StillStep(net, a, Next(net, a))
  {
    match a
    case Deliver(i, k) => DeliverySpends(net, i, k);
    case Tick(clocks, real_) =>
      TimeStaked(net, clocks, real_);
      TimeSpends(net, clocks, real_);
      if Quiet(net) && !SomeoneClaims(net, clocks) {
        SilentTick(net, clocks, real_);
      }
  }

  lemma {:induction false} StillOrSpent(nets: seq<Net>, actions: seq<Action>, p: nat, q: nat)
    requires p <= q <= |actions| < |nets| && forall k :: p <= k < q ==> StillStep(nets[k], actions[k], nets[k + 1])
    ensures || Potential(nets[q]) < Potential(nets[p])
            || (Potential(nets[q]) == Potential(nets[p]) && Still(nets, actions, p, q))
    decreases q
  {
    if p < q {
      StillOrSpent(nets, actions, p, q - 1);
      assert StillStep(nets[q - 1], actions[q - 1], nets[q - 1 + 1]);
    }
  }

  lemma PotentialNeverGrows(nets: seq<Net>, actions: seq<Action>, p: nat, q: nat)
    requires IsPath(nets, actions) && Inv(nets[0], None) && p <= q <= |actions|
    requires forall k :: p <= k < q ==> actions[k].Deliver? || actions[k].Tick?
    ensures || Potential(nets[q]) < Potential(nets[p])
            || (Potential(nets[q]) == Potential(nets[p]) && Still(nets, actions, p, q))
  {
    forall k | p <= k < q
      ensures StillStep(nets[k], actions[k], nets[k + 1])
    {
      PathKeepsInv(nets, actions, k);
      StepIsStill(nets[k], actions[k]);
    }
    StillOrSpent(nets, actions, p, q);
  }

  lemma StretchSettles(nets: seq<Net>, actions: seq<Action>, p: nat, q: nat)
    requires IsPath(nets, actions) && Inv(nets[0], None) && Moving(nets, actions, p, q) && WindowsFit(nets[p])
    ensures Settled(nets[q]) || Potential(nets[q]) < Potential(nets[p])
  {
    PotentialNeverGrows(nets, actions, p, q);
    if Potential(nets[q]) == Potential(nets[p]) {
      assert Still(nets, actions, p, q) && NoStarts(actions, p, q);
      forall i | 0 <= i < |nets[p].nodes|
        ensures LullWithin(nets, actions, i, nets[p].nodes[i].rtxd, p, q)
      {
        assert Lull(nets, actions, i, p, q);
      }
      StretchRests(nets, actions, p, q);
    }
  }

  lemma StretchCounts(nets: seq<Net>, actions: seq<Action>, p: nat, q: nat)
    requires IsPath(nets, actions) && Inv(nets[0], None) && WindowsFit(nets[0]) && Moving(nets, actions, p, q)
    ensures Settled(nets[q]) || (!Settled(nets[p]) && Potential(nets[q]) < Potential(nets[p]))
  {
    PathKeepsWindows(nets, actions, p);
    if Settled(nets[p]) {
      SettledForGood(nets, actions, p, q);
    } else {
      StretchSettles(nets, actions, p, q);
    }
  }

  /** `cuts` divides a run of deliveries and time into such stretches. */
  ghost predicate MovingStretches(nets: seq<Net>, actions: seq<Action>, cuts: seq<nat>) {
    && |cuts| > 0 && (forall k :: 0 <= k < |cuts| ==> cuts[k] <= |actions|)
    && forall k :: 0 <= k < |cuts| - 1 ==> Moving(nets, actions, cuts[k], cuts[k + 1])
  }

  lemma {:induction false} CountDown(nets: seq<Net>, cuts: seq<nat>, k: nat)
    requires k < |cuts| && forall j :: 0 <= j < |cuts| ==> cuts[j] < |nets|
    requires forall j :: 0 <= j < k ==>
               || Settled(nets[cuts[j + 1]])
               || (!Settled(nets[cuts[j]]) && Potential(nets[cuts[j + 1]]) < Potential(nets[cuts[j]]))
    ensures Settled(nets[cuts[k]]) || Potential(nets[cuts[k]]) + k <= Potential(nets[cuts[0]])
  {
    if k > 0 {
      CountDown(nets, cuts, k - 1);
      assert Settled(nets[cuts[k - 1 + 1]]) || !Settled(nets[cuts[k - 1]]);
    }
  }

  lemma StretchesSettle(nets: seq<Net>, actions: seq<Action>, cuts: seq<nat>, k: nat)
    requires IsPath(nets, actions) && Inv(nets[0], None) && WindowsFit(nets[0])
    requires MovingStretches(nets, actions, cuts) && k < |cuts|
    ensures Settled(nets[cuts[k]]) || Potential(nets[cuts[k]]) + k <= Potential(nets[cuts[0]])
  {
    forall j | 0 <= j < k
      ensures || Settled(nets[cuts[j + 1]])
              || (!Settled(nets[cuts[j]]) && Potential(nets[cuts[j + 1]]) < Potential(nets[cuts[j]]))
    {
      StretchCounts(nets, actions, cuts[j], cuts[j + 1]);
    }
    CountDown(nets, cuts, k);
  }

  // MAIN RESULT. In every run of deliveries and time, freely interleaved, with any clocks and in steps of any size,
  // that goes on long enough without holding all claims up: every started node has failed or is in the Claimed
  // state, each with an address of its own, nothing is under way, and so it stays.
  lemma EveryNodeSettles(nets: seq<Net>, actions: seq<Action>, cuts: seq<nat>, k: nat)
    requires IsPath(nets, actions) && Inv(nets[0], None) && WindowsFit(nets[0])
    requires MovingStretches(nets, actions, cuts) && Potential(nets[cuts[0]]) < k < |cuts|
    ensures var net := nets[cuts[k]];
            && Settled(net)
            && (forall i :: 0 <= i < |net.nodes| && net.nodes[i].attempted ==> net.nodes[i].state in {Claimed, Failed})
            && (forall i, j :: 0 <= i < j < |net.nodes| && net.nodes[i].state == net.nodes[j].state == Claimed ==>
                                 net.nodes[i].address != net.nodes[j].address)
  {
    var net := nets[cuts[k]];
    StretchesSettle(nets, actions, cuts, k);
    PathKeepsInv(nets, actions, cuts[k]);
    QuietOwnersUnique(net);
    forall i, j | 0 <= i < j < |net.nodes| && net.nodes[i].state == net.nodes[j].state == Claimed
      ensures net.nodes[i].address != net.nodes[j].address
    {
      assert !BothOwn(net, i, j);
    }
  }

  lemma PathExtends(nets: seq<Net>, actions: seq<Action>, a: Action)
    requires IsPath(nets, actions) && Enabled(nets[|actions|], a)
    ensures IsPath(nets + [Next(nets[|actions|], a)], actions + [a])
  {
    var nets', actions' := nets + [Next(nets[|actions|], a)], actions + [a];
    forall k | 0 <= k < |actions'|
      ensures Enabled(nets'[k], actions'[k]) && nets'[k + 1] == Next(nets'[k], actions'[k])
    {
      if k < |actions| {
        assert actions'[k] == actions[k] && nets'[k] == nets[k] && nets'[k + 1] == nets[k + 1];
      }
    }
  }

  // And such a stretch can follow whatever has happened.
  lemma StretchIsPossible(net: Net) returns (nets: seq<Net>, actions: seq<Action>)
    requires Inv(net, None)
    ensures IsPath(nets, actions) && nets[0] == net && Moving(nets, actions, 0, |actions|)
  {
    var ds, quiet := QuietIsReached(net);
    var before, deliveries := DeliveryPath(net, ds, quiet);
    PathKeepsInv(before, deliveries, |deliveries|);
    var clocks := seq(|net.nodes|, i requires 0 <= i < |net.nodes| => net.nodes[i].timeout + net.nodes[i].rtxd);
    var tick := Tick(clocks, 0);
    PathExtends(before, deliveries, tick);
    nets, actions := before + [Next(quiet, tick)], deliveries + [tick];
    DeliveriesThenTime(net, deliveries, tick);
    assert nets[0] == before[0];
    assert deliveries == [] ==> Quiet(net);
  }

  lemma DeliveriesThenTime(net: Net, deliveries: seq<Action>, tick: Action)
    requires (forall k :: 0 <= k < |deliveries| ==> deliveries[k].Deliver?) && tick.Tick?
             && |tick.clocks| == |net.nodes|
    requires forall i :: 0 <= i < |net.nodes| ==> tick.clocks[i] == net.nodes[i].timeout + net.nodes[i].rtxd
    ensures var actions := deliveries + [tick];
            && HasTick(actions, 0, |actions|)
            && (forall k :: 0 <= k < |actions| ==> actions[k].Deliver? || actions[k].Tick?)
            && (forall i :: 0 <= i < |net.nodes| ==>
                  && Elapsed(actions, i, 0, |actions|) >= net.nodes[i].timeout
                  && Elapsed(actions, i, 0, |actions|) >= net.nodes[i].rtxd)
            && (deliveries == [] || exists k :: 0 <= k < |actions| && actions[k].Deliver?)
  {
    var actions := deliveries + [tick];
    assert actions[|deliveries|] == tick;
    if deliveries != [] {
      assert actions[0] == deliveries[0];
    }
  }

  lemma {:induction false} DeliveryPath(net: Net, ds: seq<(nat, nat)>, net': Net)
      returns (nets: seq<Net>, actions: seq<Action>)
    requires Reaches(net, ds, net')
    ensures IsPath(nets, actions) && nets[0] == net && nets[|actions|] == net' && |actions| == |ds|
    ensures forall k :: 0 <= k < |actions| ==> actions[k].Deliver?
    decreases |ds|
  {
    if ds == [] {
      nets, actions := [net], [];
    } else {
      var a := Deliver(ds[0].0, ds[0].1);
      var later, rest := DeliveryPath(Next(net, a), ds[1..], net');
      nets, actions := [net] + later, [a] + rest;
      forall k | 0 <= k < |actions|
        ensures Enabled(nets[k], actions[k]) && nets[k + 1] == Next(nets[k], actions[k])
      {
        if k > 0 {
          assert nets[k] == later[k - 1] && actions[k] == rest[k - 1] && nets[k + 1] == later[k];
        }
      }
    }
  }
}
