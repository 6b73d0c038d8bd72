/**
 How long a node that has yielded its address waits before it claims another: until it has been left alone for
 its random delay, and no longer. A node that keeps its old address on record while it waits is set back by
 every claim of the new owner, so one that is asked often enough keeps it waiting for ever.
 */
module ClaimStarves {
  import opened Can
  import opened ClaimMachine
  import opened ClaimNetwork
  import opened ClaimLimits
  import opened ClaimLiveness

  // ----- the exact condition

  /** What can happen to a node that is not restarted. */
  datatype Event = Hears(claimed: byte, other: nat) | Waits(ms: nat) | IsAsked

  function React(n: Node, e: Event): Node
    requires TimersInRange(n)
  {
    match e
    case Hears(claimed, other) => HandleClaim(n, claimed, other).node
    case Waits(ms) => Update(n, ms).node
    case IsAsked => HandleRequest(n).node
  }

  /** Has yielded its address and not yet claimed another, nor given up. */
  predicate Yielded(n: Node) {
    n.reclaimPending && !n.listening && n.state != Failed
  }

  ghost predicate StaysYielded(n: Node, es: seq<Event>)
    decreases |es|
  {
    NodeOk(n) && Yielded(n) && (es == [] || StaysYielded(React(n, es[0]), es[1..]))
  }

  ghost predicate AllTaken(preferred: byte, occupied: set<byte>) {
    forall b: byte :: SELF_CONFIG_MIN <= b <= SELF_CONFIG_MAX ==> b == preferred || b in occupied
  }

  /**
   The same told from the events alone: the node named `name`, which had `address`, has been left alone for
   `waited`, and is never left alone for `rtxd` in all, nor challenged when no address is left.
   */
  ghost predicate KeptWaiting(name: nat, address: byte, preferred: byte, rtxd: nat, waited: nat, occupied: set<byte>,
                              es: seq<Event>)
    decreases |es|
  {
    if es == [] then true
    else match es[0]
         case IsAsked => KeptWaiting(name, address, preferred, rtxd, waited, occupied, es[1..])
         case Waits(ms) =>
           waited + ms < rtxd && KeptWaiting(name, address, preferred, rtxd, waited + ms, occupied, es[1..])
         case Hears(claimed, other) =>
           var taken := if claimed <= MAX_ADDRESS then occupied + {claimed} else occupied;
           if claimed == address && other < name
           then !AllTaken(preferred, taken) && KeptWaiting(name, address, preferred, rtxd, 0, taken, es[1..])
           else KeptWaiting(name, address, preferred, rtxd, waited, taken, es[1..])
  }

  lemma TakenIsNoneFree(n: Node)
    ensures AllTaken(n.preferred, n.occupied) <==> NoneFree(n)
  {
    assert forall b: byte :: IsFree(n, b) <==> !(b == n.preferred || b in n.occupied);
  }

  lemma HearsWhileYielded(n: Node, claimed: byte, other: nat)
    requires NodeOk(n) && Yielded(n) && other != n.name
    ensures var n' := HandleClaim(n, claimed, other).node;
            var taken := if claimed <= MAX_ADDRESS then n.occupied + {claimed} else n.occupied;
            && NodeOk(n') && SameNode(n, n') && n'.occupied == taken
            && (Yielded(n') <==> !(Challenged(n, claimed, other) && AllTaken(n.preferred, taken)))
            && (Yielded(n') ==>
                  && n'.address == n.address
                  && n'.reclaimTimer == if Challenged(n, claimed, other) then 0 else n.reclaimTimer)
  {
    var n1 := n.(occupied := n.occupied + {claimed});
    ClaimFacts(n, claimed, other);
    FindNextIsNearest(n1, claimed);
    TakenIsNoneFree(n1);
    assert IsFree(n1, FindNext(n1, claimed)) || NoneFree(n1);
  }

  // Once the delay has run out it claims a free address, or gives up if there is none.
  lemma WaitsWhileYielded(n: Node, ms: nat)
    requires NodeOk(n) && Yielded(n) && n.rtxd <= U32_MAX
    ensures var s := Update(n, ms);
            && NodeOk(s.node) && SameNode(n, s.node) && s.node.occupied == n.occupied
            && (Yielded(s.node) <==> n.reclaimTimer + ms < n.rtxd)
            && (Yielded(s.node) ==> s.node.address == n.address && s.node.reclaimTimer == n.reclaimTimer + ms)
            && (!Yielded(s.node) ==> s.node.state == Failed || (Holds(s.node) && IsFree(n, s.node.address)))
  {
    var c := CannotClaimPart(n, ms);
    assert NodeOk(c.node);
    UpdateFacts(n, ms);
    ReclaimFacts(c.node, ms);
    ReclaimedIsFree(c.node);
    TakenIsNoneFree(n);
    TakenIsNoneFree(c.node);
  }

  // MAIN RESULT. A node that has yielded its address claims another or gives up once it has been left alone for its
  // random delay, or is challenged when no address is left, and not before: whatever it hears, is asked and waits.
  lemma {:induction false} WaitsExactly(n: Node, es: seq<Event>)
    requires NodeOk(n) && Yielded(n) && n.rtxd <= U32_MAX && forall e :: e in es && e.Hears? ==> e.other != n.name
    ensures StaysYielded(n, es) <==>
            KeptWaiting(n.name, n.address, n.preferred, n.rtxd, n.reclaimTimer, n.occupied, es)
    decreases |es|
  {
    if es != [] {
      var n' := React(n, es[0]);
      assert es[0] in es && forall x :: x in es[1..] ==> x in es;
      ReactionIsOk(n, es[0]);
      if Yielded(n') {
        WaitsExactly(n', es[1..]);
      }
      match es[0] {
        case Hears(claimed, other) => HearsWhileYielded(n, claimed, other);
        case Waits(ms) => WaitsWhileYielded(n, ms);
        case IsAsked => AskedWhileYielded(n);
      }
    }
  }

  lemma ReactionIsOk(n: Node, e: Event)
    requires NodeOk(n) && (e.Hears? ==> e.other != n.name)
    ensures NodeOk(React(n, e)) && SameNode(n, React(n, e))
  {
    match e
    case Hears(claimed, other) => ClaimFacts(n, claimed, other);
    case Waits(ms) => UpdateFacts(n, ms);
    case IsAsked => RequestFacts(n);
  }

  lemma AskedWhileYielded(n: Node)
    requires Yielded(n)
    ensures HandleRequest(n).node == n
  {
  }

  // ----- a node that is kept waiting for ever

  /** Node 0 owns the address that node 1 has yielded, and nothing is under way. */
  ghost predicate Starving(net: Net) {
    && Inv(net, None) && |net.nodes| == 2 && net.inbox == [[], []]
    && var y, x := net.nodes[0], net.nodes[1];
       && Holds(y) && y.name < x.name && y.address == x.address <= MAX_ADDRESS
       && Yielded(x) && x.reclaimTimer == 0 && x.rtxd <= U32_MAX && x.address in x.occupied && !NoneFree(x)
  }

  /** Some time passes at both nodes, and then the owner is asked for its claim. */
  function Cycle(t: nat): seq<Action> {
    [Tick([t, t], t), RequestAt(0), Deliver(1, 0)]
  }

  lemma OwnerKeepsAddress(y: Node, t: nat)
    requires NodeOk(y) && Holds(y)
    ensures var s := Update(y, t);
            NodeOk(s.node) && Holds(s.node) && s.node.address == y.address && Claims(s.sent) == []
  {
    UpdateFacts(y, t);
    var c := CannotClaimPart(y, t);
    assert Claims(c.sent) == [];
  }

  lemma TimeStarves(net: Net, t: nat)
    requires Starving(net) && t < net.nodes[1].rtxd
    ensures var net' := Next(net, Tick([t, t], t));
            && Inv(net', None) && |net'.nodes| == 2 && net'.inbox == [[], []]
            && Holds(net'.nodes[0]) && net'.nodes[0].name == net.nodes[0].name
            && net'.nodes[0].address == net.nodes[0].address
            && Yielded(net'.nodes[1]) && SameNode(net.nodes[1], net'.nodes[1])
            && net'.nodes[1].address == net.nodes[1].address && net'.nodes[1].occupied == net.nodes[1].occupied
  {
    var y, x := net.nodes[0], net.nodes[1];
    NextKeepsInv(net, Tick([t, t], t), None);
    OwnerKeepsAddress(y, t);
    UpdateFacts(y, t);
    WaitsWhileYielded(x, t);
    TimeStakes(x, t);
    assert net == Pair(y, x, [], []);
    TickOfTwo(y, x, [], [], t);
    YieldedIsSilent(x, t);
    assert Aged([], t) + [] == [];
  }

  lemma YieldedIsSilent(x: Node, t: nat)
    requires NodeOk(x) && Yielded(x) && x.reclaimTimer + t < x.rtxd <= U32_MAX
    ensures Claims(Update(x, t).sent) == []
  {
    var c := CannotClaimPart(x, t);
    assert Claims(c.sent) == [] && ReclaimPart(c.node, t).sent == [];
    ClaimsJoin(c.sent, []);
    assert c.sent + [] == c.sent;
  }

  lemma AskingStarves(net: Net)
    requires Inv(net, None) && |net.nodes| == 2 && net.inbox == [[], []] && Holds(net.nodes[0])
    requires net.nodes[0].address <= MAX_ADDRESS
    ensures var net' := Next(net, RequestAt(0));
            && Inv(net', None) && |net'.nodes| == 2 && net'.nodes[1] == net.nodes[1]
            && Holds(net'.nodes[0]) && net'.nodes[0].name == net.nodes[0].name
            && net'.nodes[0].address == net.nodes[0].address
            && net'.inbox == [[], [Envelope(net.nodes[0].name, net.nodes[0].address, 0)]]
  {
    var y := net.nodes[0];
    NextKeepsInv(net, RequestAt(0), None);
    RequestFacts(y);
    assert [] + Claims([Msg.Claim(y.name, y.address)]) == [Envelope(y.name, y.address, 0)];
  }

  lemma ChallengeStarves(net: Net)
    requires Inv(net, None) && |net.nodes| == 2
    requires net.inbox == [[], [Envelope(net.nodes[0].name, net.nodes[0].address, 0)]]
    requires var y, x := net.nodes[0], net.nodes[1];
             && Holds(y) && y.name < x.name && y.address == x.address <= MAX_ADDRESS
             && Yielded(x) && x.rtxd <= U32_MAX && x.address in x.occupied && !NoneFree(x)
    ensures var net' := Next(net, Deliver(1, 0));
            Starving(net') && net'.nodes[0] == net.nodes[0] && SameNode(net.nodes[1], net'.nodes[1])
  {
    var y, x := net.nodes[0], net.nodes[1];
    NextKeepsInv(net, Deliver(1, 0), None);
    HearsWhileYielded(x, y.address, y.name);
    assert x.occupied + {y.address} == x.occupied;
    TakenIsNoneFree(x);
    var s := HandleClaim(x, y.address, y.name);
    TakenIsNoneFree(s.node);
    ChallengeIsSilent(x, y.name);
    var net' := Next(net, Deliver(1, 0));
    assert net.inbox[1][..0] + net.inbox[1][0 + 1..] == [];
    assert net'.inbox[0] == [] + [] && net'.inbox[1] == [];
  }

  lemma ChallengeIsSilent(x: Node, other: nat)
    requires NodeOk(x) && Yielded(x) && x.address in x.occupied && !NoneFree(x) && other < x.name
             && x.address <= MAX_ADDRESS
    ensures HandleClaim(x, x.address, other).sent == []
  {
    var n1 := x.(occupied := x.occupied + {x.address});
    assert n1 == x;
    FindNextIsNearest(x, x.address);
  }

  ghost predicate Goes(net: Net, a: Action, net': Net) {
    Enabled(net, a) && net' == Next(net, a)
  }

  lemma PathOfThree(n0: Net, n1: Net, n2: Net, n3: Net, actions: seq<Action>)
    requires |actions| == 3 && Goes(n0, actions[0], n1) && Goes(n1, actions[1], n2) && Goes(n2, actions[2], n3)
    ensures IsPath([n0, n1, n2, n3], actions)
  {
  }

  lemma StarvesOn(net: Net, t: nat) returns (net1: Net, net2: Net, net3: Net)
    requires Starving(net) && t < net.nodes[1].rtxd
    ensures Goes(net, Tick([t, t], t), net1) && Goes(net1, RequestAt(0), net2) && Goes(net2, Deliver(1, 0), net3)
    ensures Starving(net3) && SameNode(net.nodes[1], net3.nodes[1])
  {
    TimeStarves(net, t);
    net1 := Next(net, Tick([t, t], t));
    StillNoneFree(net1.nodes[1], net.nodes[1]);
    AskingStarves(net1);
    net2 := Next(net1, RequestAt(0));
    ChallengeStarves(net2);
    net3 := Next(net2, Deliver(1, 0));
  }

  function Cycles(t: nat, k: nat): seq<Action> {
    if k == 0 then [] else Cycles(t, k - 1) + Cycle(t)
  }

  lemma PathsJoin(nets: seq<Net>, actions: seq<Action>, nets': seq<Net>, actions': seq<Action>)
    requires IsPath(nets, actions) && IsPath(nets', actions') && nets'[0] == nets[|actions|]
    ensures var ns := nets + nets'[1..];
            && IsPath(ns, actions + actions')
            && ns[0] == nets[0] && ns[|actions + actions'|] == nets'[|actions'|]
  {
    var ns, acts := nets + nets'[1..], actions + actions';
    forall k | 0 <= k < |acts|
      ensures Enabled(ns[k], acts[k]) && ns[k + 1] == Next(ns[k], acts[k])
    {
      if k < |actions| {
        assert ns[k] == nets[k] && acts[k] == actions[k] && ns[k + 1] == nets[k + 1];
      } else {
        var j := k - |actions|;
        assert ns[k] == nets'[j] && acts[k] == actions'[j] && ns[k + 1] == nets'[j + 1];
      }
    }
  }

  lemma {:induction false} CyclesTake(t: nat, k: nat)
    ensures |Cycles(t, k)| == 3 * k && Elapsed(Cycles(t, k), 1, 0, 3 * k) == t * k
  {
    if k > 0 {
      var before, all := Cycles(t, k - 1), Cycles(t, k);
      CyclesTake(t, k - 1);
      ElapsedInPart(before, Cycle(t), 1, 3 * (k - 1));
      assert all[3 * k - 3] == Tick([t, t], t) && all[3 * k - 2] == RequestAt(0) && all[3 * k - 1] == Deliver(1, 0);
      assert Elapsed(all, 1, 0, 3 * k - 2) == t * (k - 1) + t;
      assert Elapsed(all, 1, 0, 3 * k) == Elapsed(all, 1, 0, 3 * k - 1) == Elapsed(all, 1, 0, 3 * k - 2);
    }
  }

  /** Some run takes the actions from `net` to `net'`. */
  ghost predicate Leads(net: Net, actions: seq<Action>, net': Net) {
    exists nets :: IsPath(nets, actions) && nets[0] == net && nets[|actions|] == net'
  }

  lemma LeadsJoin(net: Net, actions: seq<Action>, net1: Net, actions': seq<Action>, net2: Net)
    requires Leads(net, actions, net1) && Leads(net1, actions', net2)
    ensures Leads(net, actions + actions', net2)
  {
    var nets :| IsPath(nets, actions) && nets[0] == net && nets[|actions|] == net1;
    var nets' :| IsPath(nets', actions') && nets'[0] == net1 && nets'[|actions'|] == net2;
    PathsJoin(nets, actions, nets', actions');
  }

  lemma CycleStarves(net: Net, t: nat) returns (net': Net)
    requires Starving(net) && t < net.nodes[1].rtxd
    ensures Leads(net, Cycle(t), net') && Starving(net') && net'.nodes[1].rtxd == net.nodes[1].rtxd
  {
    var net1, net2, net3 := StarvesOn(net, t);
    PathOfThree(net, net1, net2, net3, Cycle(t));
    net' := net3;
    var nets := [net, net1, net2, net3];
    assert IsPath(nets, Cycle(t)) && nets[0] == net && nets[3] == net';
  }

  lemma NowhereLeads(net: Net)
    ensures Leads(net, [], net)
  {
    assert IsPath([net], []) && [net][0] == net;
  }

  lemma {:induction false} CyclesStarve(net: Net, t: nat, k: nat) returns (net': Net)
    requires Starving(net) && t < net.nodes[1].rtxd
    ensures Leads(net, Cycles(t, k), net') && Starving(net') && net'.nodes[1].rtxd == net.nodes[1].rtxd
  {
    if k == 0 {
      NowhereLeads(net);
      net' := net;
    } else {
      var net1 := CyclesStarve(net, t, k - 1);
      net' := CycleStarves(net1, t);
      LeadsJoin(net, Cycles(t, k - 1), net1, Cycle(t), net');
    }
  }

  // MAIN RESULT. Asked for its claim after every `t` ms, less than the random delay of the node that yielded to it,
  // the owner of an address keeps that node waiting for as long as one likes.
  lemma StarvesForever(net: Net, t: nat, k: nat)
    requires Starving(net) && t < net.nodes[1].rtxd
    ensures Elapsed(Cycles(t, k), 1, 0, |Cycles(t, k)|) == t * k
    ensures exists net' :: Leads(net, Cycles(t, k), net') && Starving(net')
  {
    var net' := CyclesStarve(net, t, k);
    CyclesTake(t, k);
  }

  lemma {:induction false} ElapsedInPart(a: seq<Action>, b: seq<Action>, i: nat, q: nat)
    requires q <= |a|
    ensures Elapsed(a + b, i, 0, q) == Elapsed(a, i, 0, q)
  {
    if q > 0 {
      ElapsedInPart(a, b, i, q - 1);
    }
  }

  // ----- how it comes to that

  function Asking(name: nat, address: byte, window: nat, rtxd: nat): Node {
    NewNode(name, address, window, rtxd).(state := SendRequest, attempted := true, listening := true)
  }

  function Contender(name: nat, address: byte, window: nat, rtxd: nat): Node {
    NewNode(name, address, window, rtxd).(state := WaitForContest, attempted := true)
  }

  lemma BothClaim(a: nat, b: nat, address: byte, window: nat, rtxd: nat, bound: Option<nat>)
    requires a != b && address <= MAX_ADDRESS && rtxd <= RTXD_MAX_MS && window + rtxd <= U32_MAX
    ensures Reachable(Pair(Contender(a, address, window, rtxd), Contender(b, address, window, rtxd),
                           [Envelope(b, address, 0)], [Envelope(a, address, 0)]), window, bound)
  {
    var y, x := NewNode(a, address, window, rtxd), NewNode(b, address, window, rtxd);
    var y1, x1 := Asking(a, address, window, rtxd), Asking(b, address, window, rtxd);
    NewNodesReachable([y, x], [[], []], window, rtxd, bound);
    FirstStarts(y, x, y1, window, bound);
    SecondStarts(y1, x, x1, window, bound);
    BothWait(y1, x1, [], [], window + rtxd, Step(Contender(a, address, window, rtxd), [Msg.Claim(a, address)]),
             Step(Contender(b, address, window, rtxd), [Msg.Claim(b, address)]), window, bound);
    assert Aged([], window + rtxd) + Claims([Msg.Claim(a, address)]) == [Envelope(a, address, 0)];
    assert Aged([], window + rtxd) + Claims([Msg.Claim(b, address)]) == [Envelope(b, address, 0)];
  }

  lemma WinnerAnswers(y: Node, x: Node, e: Envelope, f: Envelope, y': Node, window: nat, bound: Option<nat>)
    requires Reachable(Pair(y, x, [e], [f]), window, bound) && y.address <= MAX_ADDRESS
    requires HandleClaim(y, e.address, e.name) == Step(y', [Msg.Claim(y.name, y.address)])
    ensures Reachable(Pair(y', x, [], [f, Envelope(y.name, y.address, 0)]), window, bound)
  {
    var net, s := Pair(y, x, [e], [f]), Step(y', [Msg.Claim(y.name, y.address)]);
    ReachableIsWellFormed(net, window, bound);
    ReachesNext(net, Deliver(0, 0), window, bound);
    FirstActs(y, x, [], [f], s);
    assert [e][..0] + [e][0 + 1..] == [] && [[e], [f]][0 := []] == [[], [f]];
    assert Next(net, Deliver(0, 0)) == At(Pair(y, x, [], [f]), 0, [[], [f]], s);
    assert [f] + Claims([Msg.Claim(y.name, y.address)]) == [f, Envelope(y.name, y.address, 0)];
  }

  lemma LoserHears(y: Node, x: Node, e: Envelope, f: Envelope, x': Node, window: nat, bound: Option<nat>)
    requires Reachable(Pair(y, x, [], [e, f]), window, bound) && HandleClaim(x, e.address, e.name) == Step(x', [])
    ensures Reachable(Pair(y, x', [], [f]), window, bound)
  {
    var net, s := Pair(y, x, [], [e, f]), Step(x', []);
    ReachableIsWellFormed(net, window, bound);
    ReachesNext(net, Deliver(1, 0), window, bound);
    SecondActs(y, x, [], [f], s);
    assert [e, f][..0] + [e, f][0 + 1..] == [f] && [[], [e, f]][1 := [f]] == [[], [f]];
    assert Next(net, Deliver(1, 0)) == At(Pair(y, x, [], [f]), 1, [[], [f]], s);
    assert [] + Claims([]) == [];
  }

  // Two nodes start together and claim the same address, everything is delivered at once, and the loser starves.
  lemma StarvingIsReached(a: nat, b: nat, address: byte, window: nat, rtxd: nat)
    requires a < b && SelfConfigurable(b) && address <= MAX_ADDRESS && 0 < rtxd <= RTXD_MAX_MS
    requires window + rtxd <= U32_MAX
    ensures exists net ::
              && Reachable(net, window, Some(0)) && Starving(net)
              && net.nodes[0].name == a && net.nodes[1].name == b && net.nodes[1].rtxd == rtxd
  {
    var y, x := Contender(a, address, window, rtxd), Contender(b, address, window, rtxd);
    var e, f := Envelope(b, address, 0), Envelope(a, address, 0);
    var y' := y.(occupied := {address});
    var x' := x.(occupied := {address}, reclaimPending := true,
                 reclaimAddress := FindNext(x.(occupied := {address}), address));
    BothClaim(a, b, address, window, rtxd, Some(0));
    WinnerAnswers(y, x, e, f, y', window, Some(0));
    LoserYields(x, a, x');
    LoserHears(y', x, f, f, x', window, Some(0));
    SecondHears(y', x', f, x', window, Some(0));
    var net := Pair(y', x', [], []);
    ReachableIsInv(net, window, Some(0));
    assert net.nodes[0] == y' && net.nodes[1] == x';
  }

  lemma LoserYields(x: Node, other: nat, x': Node)
    requires NodeOk(x) && Contesting(x) && x.occupied == {} && SelfConfigurable(x.name) && x.rtxd > 0 && other < x.name
    requires x.reclaimTimer == 0 && !x.online && x.address <= MAX_ADDRESS
    requires var n := x.(occupied := {x.address});
             x' == n.(reclaimPending := true, reclaimAddress := FindNext(n, x.address))
    ensures HandleClaim(x, x.address, other) == Step(x', []) && HandleClaim(x', x.address, other) == Step(x', [])
    ensures !NoneFree(x')
  {
    var n := x.(occupied := {x.address});
    FindNextIsNearest(n, x.address);
    var taken := {x.preferred, x.address};
    var b: byte := if 0x80 !in taken then 0x80 else if 0x81 !in taken then 0x81 else 0x82;
    assert IsFree(n, b);
    assert IsFree(x', b);
    SearchIgnores(n, x', x.address);
    assert {} + {x.address} == {x.address} && {x.address} + {x.address} == {x.address};
  }

  lemma SearchIgnores(n: Node, n': Node, a: byte)
    requires n'.preferred == n.preferred && n'.occupied == n.occupied
    ensures FindNext(n', a) == FindNext(n, a)
  {
    SearchIgnoresFrom(n, n', Following(a), 120);
  }

  lemma {:induction false} SearchIgnoresFrom(n: Node, n': Node, a: byte, tries: nat)
    requires n'.preferred == n.preferred && n'.occupied == n.occupied && SELF_CONFIG_MIN <= a <= SELF_CONFIG_MAX
    ensures FirstFree(n', a, tries) == FirstFree(n, a, tries)
    decreases tries
  {
    if tries > 0 {
      SearchIgnoresFrom(n, n', Following(a), tries - 1);
    }
  }

  lemma ReachableIsInv(net: Net, window: nat, bound: Option<nat>)
    requires Reachable(net, window, bound)
    ensures Inv(net, None)
  {
    var nets, actions :| IsRun(nets, actions, bound) && Windows(nets[0], window) && nets[|actions|] == net;
    assert IsRun(nets, actions, None);
    RunKeepsInv(nets, actions, None, |actions|);
  }
}
