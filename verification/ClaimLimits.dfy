/** How tight the guarantees of `ClaimNetwork` are: runs in which address claiming goes wrong. */
module ClaimLimits {
  import opened Can
  import opened ClaimMachine
  import opened ClaimNetwork

  ghost predicate Windows(net: Net, window: nat) {
    forall i :: 0 <= i < |net.nodes| ==> net.nodes[i].timeout >= window
  }

  /** A run of nodes whose contest windows are all at least `window` leads to `net`. */
  ghost predicate Reachable(net: Net, window: nat, bound: Option<nat>) {
    exists nets, actions :: IsRun(nets, actions, bound) && Windows(nets[0], window) && nets[|actions|] == net
  }

  lemma NewNodesReachable(nodes: seq<Node>, inbox: seq<seq<Envelope>>, window: nat, rtxd: nat, bound: Option<nat>)
    requires |inbox| == |nodes| && forall i :: 0 <= i < |inbox| ==> inbox[i] == []
    requires forall i :: 0 <= i < |nodes| ==> nodes[i] == NewNode(nodes[i].name, nodes[i].preferred, window, rtxd)
    requires forall i, j :: 0 <= i < j < |nodes| ==> nodes[i].name != nodes[j].name
    ensures Reachable(Net(nodes, inbox), window, bound)
  {
    var net := Net(nodes, inbox);
    forall i | 0 <= i < |net.nodes|
      ensures IsNew(net.nodes[i])
    {
      assert net.nodes[i] == NewNode(net.nodes[i].name, net.nodes[i].preferred, window, rtxd);
    }
    assert Initial(net);
    assert IsRun([net], [], bound) && [net][0] == net;
  }

  lemma ReachesNext(net: Net, a: Action, window: nat, bound: Option<nat>)
    requires Reachable(net, window, bound) && Enabled(net, a) && Timely(net, a, bound)
    ensures Reachable(Next(net, a), window, bound)
  {
    var nets, actions :| IsRun(nets, actions, bound) && Windows(nets[0], window) && nets[|actions|] == net;
    var nets', actions' := nets + [Next(net, a)], actions + [a];
    forall i | 0 <= i < |actions'|
      ensures Enabled(nets'[i], actions'[i]) && Timely(nets'[i], actions'[i], bound)
      ensures nets'[i + 1] == Next(nets'[i], actions'[i])
    {
      if i < |actions| {
        assert actions'[i] == actions[i] && nets'[i] == nets[i] && nets'[i + 1] == nets[i + 1];
      }
    }
    assert IsRun(nets', actions', bound);
  }

  lemma ReachableIsWellFormed(net: Net, window: nat, bound: Option<nat>)
    requires Reachable(net, window, bound)
    ensures WellFormed(net)
  {
    var nets, actions :| IsRun(nets, actions, bound) && Windows(nets[0], window) && nets[|actions|] == net;
    assert IsRun(nets, actions, None);
    RunKeepsInv(nets, actions, None, |actions|);
  }

  // ----- steps of two nodes

  function Pair(y: Node, x: Node, toY: seq<Envelope>, toX: seq<Envelope>): Net {
    Net([y, x], [toY, toX])
  }

  lemma FirstActs(y: Node, x: Node, toY: seq<Envelope>, toX: seq<Envelope>, s: Step)
    ensures At(Pair(y, x, toY, toX), 0, [toY, toX], s) == Pair(s.node, x, toY, toX + Claims(s.sent))
  {
    var net := At(Pair(y, x, toY, toX), 0, [toY, toX], s);
    assert net.nodes == [s.node, x] && net.inbox == [toY, toX + Claims(s.sent)];
  }

  lemma SecondActs(y: Node, x: Node, toY: seq<Envelope>, toX: seq<Envelope>, s: Step)
    ensures At(Pair(y, x, toY, toX), 1, [toY, toX], s) == Pair(y, s.node, toY + Claims(s.sent), toX)
  {
    var net := At(Pair(y, x, toY, toX), 1, [toY, toX], s);
    assert net.nodes == [y, s.node] && net.inbox == [toY + Claims(s.sent), toX];
  }

  lemma FirstStarts(y: Node, x: Node, y': Node, window: nat, bound: Option<nat>)
    requires Reachable(Pair(y, x, [], []), window, bound) && Start(y) == Step(y', [Request])
    ensures Reachable(Pair(y', x, [], []), window, bound)
  {
    var net := Pair(y, x, [], []);
    ReachableIsWellFormed(net, window, bound);
    ReachesNext(net, StartAt(0), window, bound);
    FirstActs(y, x, [], [], Step(y', [Request]));
    assert [] + Claims([Request]) == [];
  }

  lemma SecondStarts(y: Node, x: Node, x': Node, window: nat, bound: Option<nat>)
    requires Reachable(Pair(y, x, [], []), window, bound) && Start(x) == Step(x', [Request])
    ensures Reachable(Pair(y, x', [], []), window, bound)
  {
    var net := Pair(y, x, [], []);
    ReachableIsWellFormed(net, window, bound);
    ReachesNext(net, StartAt(1), window, bound);
    SecondActs(y, x, [], [], Step(x', [Request]));
    assert [] + Claims([Request]) == [];
  }

  lemma FirstIsAsked(y: Node, x: Node, a: nat, address: byte, window: nat, bound: Option<nat>)
    requires Reachable(Pair(y, x, [], []), window, bound) && address <= MAX_ADDRESS
    requires HandleRequest(y) == Step(y, [Msg.Claim(a, address)])
    ensures Reachable(Pair(y, x, [], [Envelope(a, address, 0)]), window, bound)
  {
    var net := Pair(y, x, [], []);
    ReachableIsWellFormed(net, window, bound);
    ReachesNext(net, RequestAt(0), window, bound);
    FirstActs(y, x, [], [], Step(y, [Msg.Claim(a, address)]));
    assert [] + Claims([Msg.Claim(a, address)]) == [Envelope(a, address, 0)];
  }

  lemma FirstAnswers(y: Node, x: Node, e: Envelope, y': Node, window: nat, bound: Option<nat>)
    requires Reachable(Pair(y, x, [e], []), window, bound) && y.address <= MAX_ADDRESS
    requires HandleClaim(y, e.address, e.name) == Step(y', [Msg.Claim(y.name, y.address)])
    ensures Reachable(Pair(y', x, [], [Envelope(y.name, y.address, 0)]), window, bound)
  {
    var net, s := Pair(y, x, [e], []), Step(y', [Msg.Claim(y.name, y.address)]);
    ReachableIsWellFormed(net, window, bound);
    ReachesNext(net, Deliver(0, 0), window, bound);
    FirstActs(y, x, [], [], s);
    assert [e][..0] + [e][0 + 1..] == [] && [[e], []][0 := []] == [[], []];
    assert Next(net, Deliver(0, 0)) == At(Pair(y, x, [], []), 0, [[], []], s);
    assert [] + Claims([Msg.Claim(y.name, y.address)]) == [Envelope(y.name, y.address, 0)];
  }

  lemma SecondHears(y: Node, x: Node, e: Envelope, x': Node, window: nat, bound: Option<nat>)
    requires Reachable(Pair(y, x, [], [e]), window, bound)
    requires HandleClaim(x, e.address, e.name) == Step(x', [])
    ensures Reachable(Pair(y, x', [], []), window, bound)
  {
    var net, s := Pair(y, x, [], [e]), Step(x', []);
    ReachableIsWellFormed(net, window, bound);
    ReachesNext(net, Deliver(1, 0), window, bound);
    SecondActs(y, x, [], [], s);
    assert [e][..0] + [e][0 + 1..] == [] && [[], [e]][1 := []] == [[], []];
    assert Next(net, Deliver(1, 0)) == At(Pair(y, x, [], []), 1, [[], []], s);
    assert [] + Claims([]) == [];
  }

  lemma TickOfTwo(y: Node, x: Node, toY: seq<Envelope>, toX: seq<Envelope>, ms: nat)
    requires TimersInRange(y) && TimersInRange(x)
    ensures var s, r := Update(y, ms), Update(x, ms);
            TickNet(Pair(y, x, toY, toX), [ms, ms], ms)
            == Pair(s.node, r.node, Aged(toY, ms) + Claims(r.sent), Aged(toX, ms) + Claims(s.sent))
  {
    var net := Pair(y, x, toY, toX);
    var s, r := Update(y, ms), Update(x, ms);
    var steps := seq(|net.nodes|, i requires 0 <= i < |net.nodes| => Update(net.nodes[i], [ms, ms][i]));
    assert steps == [s, r];
    assert Announced(steps, 0, 2) == [] && Announced(steps, 1, 2) == [];
    assert Announced(steps, 0, 1) == Claims(r.sent) && Announced(steps, 1, 1) == [];
    assert Announced(steps, 0, 0) == Claims(r.sent) && Announced(steps, 1, 0) == Claims(s.sent);
    var net' := TickNet(net, [ms, ms], ms);
    assert net'.nodes == [s.node, r.node];
    assert net'.inbox == [Aged(toY, ms) + Claims(r.sent), Aged(toX, ms) + Claims(s.sent)];
  }

  // Both clocks are exact here: each node sees the time that really passes.
  lemma BothWait(y: Node, x: Node, toY: seq<Envelope>, toX: seq<Envelope>, ms: nat, s: Step, r: Step,
                 window: nat, bound: Option<nat>)
    requires Reachable(Pair(y, x, toY, toX), window, bound)
    requires TimersInRange(y) && Update(y, ms) == s && TimersInRange(x) && Update(x, ms) == r
    requires forall e :: e in toY + toX ==> bound.Some? ==> e.age + ms <= bound.value
    ensures Reachable(Pair(s.node, r.node, Aged(toY, ms) + Claims(r.sent), Aged(toX, ms) + Claims(s.sent)), window,
                      bound)
  {
    var net := Pair(y, x, toY, toX);
    ReachableIsWellFormed(net, window, bound);
    forall j, k | 0 <= j < |net.inbox| && 0 <= k < |net.inbox[j]|
      ensures bound.Some? ==> net.inbox[j][k].age + ms <= bound.value
    {
      assert net.inbox[j][k] in toY + toX;
    }
    ReachesNext(net, Tick([ms, ms], ms), window, bound);
    TickOfTwo(y, x, toY, toX, ms);
  }

  lemma SilentWait(y: Node, x: Node, toY: seq<Envelope>, toX: seq<Envelope>, ms: nat, y': Node, x': Node,
                   window: nat, bound: Option<nat>)
    requires Reachable(Pair(y, x, toY, toX), window, bound)
    requires TimersInRange(y) && Update(y, ms) == Step(y', []) && TimersInRange(x) && Update(x, ms) == Step(x', [])
    requires forall e :: e in toY + toX ==> bound.Some? ==> e.age + ms <= bound.value
    ensures Reachable(Pair(y', x', Aged(toY, ms), Aged(toX, ms)), window, bound)
  {
    BothWait(y, x, toY, toX, ms, Step(y', []), Step(x', []), window, bound);
    assert Aged(toY, ms) + Claims([]) == Aged(toY, ms) && Aged(toX, ms) + Claims([]) == Aged(toX, ms);
  }

  lemma AgedOne(e: Envelope, ms: nat)
    ensures Aged([e], ms) == [e.(age := e.age + ms)] && Aged([], ms) == []
    ensures forall f :: f in [e] + [] ==> f == e
  {
  }

  lemma ClaimAges(y: Node, x: Node, e: Envelope, ms: nat, y': Node, x': Node, window: nat, bound: Option<nat>)
    requires Reachable(Pair(y, x, [e], []), window, bound) && (bound.Some? ==> e.age + ms <= bound.value)
    requires TimersInRange(y) && Update(y, ms) == Step(y', []) && TimersInRange(x) && Update(x, ms) == Step(x', [])
    ensures Reachable(Pair(y', x', [e.(age := e.age + ms)], []), window, bound)
  {
    AgedOne(e, ms);
    SilentWait(y, x, [e], [], ms, y', x', window, bound);
  }

  // ----- a contest window that is too short

  function Listening(name: nat, address: byte, window: nat, occupied: set<byte>): Node {
    NewNode(name, address, window, 0).(state := SendRequest, attempted := true, listening := true, occupied := occupied)
  }

  /** `guard` milliseconds into the contest window. */
  function Contending(name: nat, address: byte, window: nat, occupied: set<byte>, guard: nat): Node {
    NewNode(name, address, window, 0).(state := WaitForContest, attempted := true, occupied := occupied, guard := guard)
  }

  function Owning(name: nat, address: byte, window: nat, occupied: set<byte>, guard: nat): Node {
    Contending(name, address, window, occupied, guard).(state := Claimed, online := true)
  }

  // A node that may not move claims its preferred address whatever it heard while listening.
  lemma ListeningEnds(name: nat, address: byte, window: nat, occupied: set<byte>)
    requires address <= MAX_ADDRESS && window <= U32_MAX && (address in occupied ==> !SelfConfigurable(name))
    ensures Update(Listening(name, address, window, occupied), window)
            == Step(Contending(name, address, window, occupied, 0), [Msg.Claim(name, address)])
  {
  }

  lemma ContestEnds(name: nat, address: byte, window: nat, occupied: set<byte>, guard: nat, ms: nat)
    requires address <= MAX_ADDRESS && guard <= U32_MAX
    ensures var later := SaturatingAdd32(guard, ms);
            Update(Contending(name, address, window, occupied, guard), ms)
            == Step(if later < window then Contending(name, address, window, occupied, later)
                    else Owning(name, address, window, occupied, later), [])
  {
  }

  lemma OwnerClaims(a: nat, b: nat, address: byte, window: nat, bound: Option<nat>)
    requires a != b && address <= MAX_ADDRESS && window <= U32_MAX
    ensures Reachable(Pair(Contending(a, address, window, {}, 0), NewNode(b, address, window, 0),
                           [], [Envelope(a, address, 0)]), window, bound)
  {
    var y, x := NewNode(a, address, window, 0), NewNode(b, address, window, 0);
    NewNodesReachable([y, x], [[], []], window, 0, bound);
    FirstStarts(y, x, Listening(a, address, window, {}), window, bound);
    ListeningEnds(a, address, window, {});
    BothWait(Listening(a, address, window, {}), x, [], [], window,
             Step(Contending(a, address, window, {}, 0), [Msg.Claim(a, address)]), Step(x, []), window, bound);
    assert Aged([], window) + Claims([Msg.Claim(a, address)]) == [Envelope(a, address, 0)];
    assert Aged([], window) + Claims([]) == [];
  }

  lemma OwnerSettles(a: nat, b: nat, address: byte, window: nat, bound: Option<nat>)
    requires a != b && address <= MAX_ADDRESS && window <= U32_MAX
    ensures Reachable(Pair(Owning(a, address, window, {}, window),
                           NewNode(b, address, window, 0).(occupied := {address}), [], []), window, bound)
  {
    OwnerClaims(a, b, address, window, bound);
    var y, x := Contending(a, address, window, {}, 0), NewNode(b, address, window, 0);
    var x' := x.(occupied := {address});
    SecondHears(y, x, Envelope(a, address, 0), x', window, bound);
    ContestEnds(a, address, window, {}, 0, window);
    SilentWait(y, x', [], [], window, Owning(a, address, window, {}, window), x', window, bound);
    assert Aged([], window) == [];
  }

  // The newcomer asks for claims and is answered while it listens.
  lemma NewcomerListens(a: nat, b: nat, address: byte, window: nat, bound: Option<nat>)
    requires a != b && address <= MAX_ADDRESS && window <= U32_MAX
    ensures Reachable(Pair(Owning(a, address, window, {}, window), Listening(b, address, window, {address}), [], []),
                      window, bound)
  {
    OwnerSettles(a, b, address, window, bound);
    var y, x := Owning(a, address, window, {}, window), NewNode(b, address, window, 0).(occupied := {address});
    var x' := Listening(b, address, window, {});
    SecondStarts(y, x, x', window, bound);
    FirstIsAsked(y, x', a, address, window, bound);
    SecondHears(y, x', Envelope(a, address, 0), Listening(b, address, window, {address}), window, bound);
  }

  lemma NewcomerContends(a: nat, b: nat, address: byte, window: nat, bound: Option<nat>)
    requires a != b && address <= MAX_ADDRESS && window <= U32_MAX && !SelfConfigurable(b)
    ensures Reachable(Pair(Owning(a, address, window, {}, window), Contending(b, address, window, {address}, 0),
                           [Envelope(b, address, 0)], []), window, bound)
  {
    NewcomerListens(a, b, address, window, bound);
    ListeningEnds(b, address, window, {address});
    var y := Owning(a, address, window, {}, window);
    BothWait(y, Listening(b, address, window, {address}), [], [], window, Step(y, []),
             Step(Contending(b, address, window, {address}, 0), [Msg.Claim(b, address)]), window, bound);
    assert Aged([], window) + Claims([Msg.Claim(b, address)]) == [Envelope(b, address, 0)];
    assert Aged([], window) + Claims([]) == [];
  }

  /** The newcomer once `ms` of its contest window have passed without an answer. */
  function After(b: nat, address: byte, window: nat, ms: nat): Node {
    var guard := SaturatingAdd32(0, ms);
    if guard < window then Contending(b, address, window, {address}, guard)
    else Owning(b, address, window, {address}, guard)
  }

  lemma OwnerWaits(a: nat, address: byte, window: nat, occupied: set<byte>, ms: nat)
    requires window <= U32_MAX
    ensures var y := Owning(a, address, window, occupied, window); TimersInRange(y) && Update(y, ms) == Step(y, [])
  {
  }

  lemma NewcomerWaits(b: nat, address: byte, window: nat, ms: nat)
    requires address <= MAX_ADDRESS
    ensures var x := Contending(b, address, window, {address}, 0);
            TimersInRange(x) && Update(x, ms) == Step(After(b, address, window, ms), [])
  {
  }

  lemma ClaimTravels(a: nat, b: nat, address: byte, window: nat, d: nat)
    requires a < b && address <= MAX_ADDRESS && window <= U32_MAX && !SelfConfigurable(b)
    ensures Reachable(Pair(Owning(a, address, window, {}, window), After(b, address, window, d),
                           [Envelope(b, address, d)], []), window, Some(d))
  {
    NewcomerContends(a, b, address, window, Some(d));
    var y, e := Owning(a, address, window, {}, window), Envelope(b, address, 0);
    OwnerWaits(a, address, window, {}, d);
    NewcomerWaits(b, address, window, d);
    ClaimAges(y, Contending(b, address, window, {address}, 0), e, d, y, After(b, address, window, d), window, Some(d));
  }

  lemma AnswerIsSent(a: nat, b: nat, address: byte, window: nat, d: nat)
    requires a < b && address <= MAX_ADDRESS && window <= U32_MAX && !SelfConfigurable(b)
    ensures Reachable(Pair(Owning(a, address, window, {address}, window), After(b, address, window, d),
                           [], [Envelope(a, address, 0)]), window, Some(d))
  {
    ClaimTravels(a, b, address, window, d);
    FirstAnswers(Owning(a, address, window, {}, window), After(b, address, window, d), Envelope(b, address, d),
                 Owning(a, address, window, {address}, window), window, Some(d));
  }

  // Claim and answer each take all of `d`, which leaves the newcomer the time to settle.
  lemma WindowTooShort(a: nat, b: nat, address: byte, window: nat, d: nat)
    requires a < b && address <= MAX_ADDRESS && window <= U32_MAX && !SelfConfigurable(b)
    requires 2 * d >= window
    ensures exists net ::
              && Reachable(net, window, Some(d)) && |net.nodes| == 2
              && net.nodes[0].name == a && net.nodes[1].name == b
              && net.nodes[0].state == net.nodes[1].state == Claimed
              && net.nodes[0].address == net.nodes[1].address == address
  {
    AnswerIsSent(a, b, address, window, d);
    var y, x, e := Owning(a, address, window, {address}, window), After(b, address, window, d),
      Envelope(a, address, 0);
    if x.state == WaitForContest {
      ContestEnds(b, address, window, {address}, x.guard, d);
    }
    var x' := Update(x, d).node;
    assert x'.state == Claimed && x'.address == address && x'.name == b;
    SilentWait(y, x, [], [e], d, y, x', window, Some(d));
    var net := Pair(y, x', Aged([], d), Aged([e], d));
    assert net.nodes[0] == y && net.nodes[1] == x';
  }

  predicate ClaimedOnce(net: Net) {
    forall i, j :: 0 <= i < j < |net.nodes| && net.nodes[i].state == net.nodes[j].state == Claimed ==>
                     net.nodes[i].address != net.nodes[j].address
  }

  // MAIN RESULT. Delivery within `d` rules out two nodes in the Claimed state on one address, for all nodes
  // with windows of at least `window` and in every run, if and only if twice `d` is less than `window`.
  lemma ClaimedOnceIff(window: nat, d: nat)
    requires window <= U32_MAX
    ensures (forall net :: Reachable(net, window, Some(d)) ==> ClaimedOnce(net)) <==> 2 * d < window
  {
    if 2 * d < window {
      forall net | Reachable(net, window, Some(d))
        ensures ClaimedOnce(net)
      {
        var nets, actions :| IsRun(nets, actions, Some(d)) && Windows(nets[0], window) && nets[|actions|] == net;
        forall i, j | 0 <= i < j < |net.nodes| && net.nodes[i].state == net.nodes[j].state == Claimed
          ensures net.nodes[i].address != net.nodes[j].address
        {
          NeverClaimedTwice(nets, actions, d, |actions|, i, j);
        }
      }
    } else {
      WindowTooShort(0, 1, 0x80, window, d);
    }
  }

  // ----- a yielded address that is still defended

  const NOTHING: seq<seq<Envelope>> := [[], [], []]

  lemma OneStarts(nodes: seq<Node>, i: nat, n': Node, window: nat, bound: Option<nat>)
    requires |nodes| == 3 && i < 3 && Reachable(Net(nodes, NOTHING), window, bound)
    requires Start(nodes[i]) == Step(n', [Request])
    ensures Reachable(Net(nodes[i := n'], NOTHING), window, bound)
  {
    var net := Net(nodes, NOTHING);
    ReachableIsWellFormed(net, window, bound);
    ReachesNext(net, StartAt(i), window, bound);
    assert Claims([Request]) == [];
    assert Post(NOTHING, i, []) == NOTHING;
  }

  lemma TickOfThree(nodes: seq<Node>, ms: nat, s: seq<Step>)
    requires |nodes| == |s| == 3
    requires forall i :: 0 <= i < 3 ==> TimersInRange(nodes[i]) && Update(nodes[i], ms) == s[i]
    ensures var net := TickNet(Net(nodes, NOTHING), [ms, ms, ms], ms);
            && net.nodes == [s[0].node, s[1].node, s[2].node]
            && |net.inbox| == 3 && net.inbox[1] == Claims(s[0].sent) + Claims(s[2].sent)
  {
    var net := Net(nodes, NOTHING);
    var steps := seq(|net.nodes|, i requires 0 <= i < |net.nodes| => Update(net.nodes[i], [ms, ms, ms][i]));
    assert steps == s;
    assert Announced(s, 1, 3) == [] && Announced(s, 1, 2) == Claims(s[2].sent);
    assert Announced(s, 1, 1) == Claims(s[2].sent);
    assert Announced(s, 1, 0) == Claims(s[0].sent) + Claims(s[2].sent);
    assert Aged([], ms) == [];
  }

  function Requesting(name: nat): Node {
    NewNode(name, 0x80, 250, 10).(state := SendRequest, attempted := true, listening := true)
  }

  function Claiming(name: nat): Node {
    NewNode(name, 0x80, 250, 10).(state := WaitForContest, attempted := true)
  }

  lemma AllListen(better: nat, name: nat, worse: nat, bound: Option<nat>)
    requires better < name < worse
    ensures Reachable(Net([Requesting(better), Requesting(name), Requesting(worse)], NOTHING), 250, bound)
  {
    var nodes := [NewNode(better, 0x80, 250, 10), NewNode(name, 0x80, 250, 10), NewNode(worse, 0x80, 250, 10)];
    NewNodesReachable(nodes, NOTHING, 250, 10, bound);
    OneStarts(nodes, 0, Requesting(better), 250, bound);
    var nodes1 := nodes[0 := Requesting(better)];
    OneStarts(nodes1, 1, Requesting(name), 250, bound);
    var nodes2 := nodes1[1 := Requesting(name)];
    OneStarts(nodes2, 2, Requesting(worse), 250, bound);
    assert nodes2[2 := Requesting(worse)] == [Requesting(better), Requesting(name), Requesting(worse)];
  }

  lemma AllClaim(better: nat, name: nat, worse: nat, bound: Option<nat>) returns (net: Net)
    requires better < name < worse
    ensures Reachable(net, 250, bound) && net.nodes == [Claiming(better), Claiming(name), Claiming(worse)]
    ensures |net.inbox| == 3 && net.inbox[1] == [Envelope(better, 0x80, 0), Envelope(worse, 0x80, 0)]
  {
    AllListen(better, name, worse, bound);
    var nodes := [Requesting(better), Requesting(name), Requesting(worse)];
    ReachableIsWellFormed(Net(nodes, NOTHING), 250, bound);
    ReachesNext(Net(nodes, NOTHING), Tick([260, 260, 260], 260), 250, bound);
    net := Next(Net(nodes, NOTHING), Tick([260, 260, 260], 260));
    var s := [Step(Claiming(better), [Msg.Claim(better, 0x80)]), Step(Claiming(name), [Msg.Claim(name, 0x80)]),
              Step(Claiming(worse), [Msg.Claim(worse, 0x80)])];
    TickOfThree(nodes, 260, s);
    assert Claims([Msg.Claim(better, 0x80)]) == [Envelope(better, 0x80, 0)];
    assert Claims([Msg.Claim(worse, 0x80)]) == [Envelope(worse, 0x80, 0)];
  }

  /** Having lost 0x80, the node waits to move to 0x81. */
  function Yielding(name: nat): Node {
    Claiming(name).(reclaimPending := true, reclaimAddress := 0x81, occupied := {0x80})
  }

  lemma NameYields(name: nat, better: nat)
    requires better < name && SelfConfigurable(name)
    ensures HandleClaim(Claiming(name), 0x80, better) == Step(Yielding(name), [])
  {
    var n := Claiming(name).(occupied := {0x80});
    FindNextIsNearest(n, 0x80);
    assert IsFree(n, 0x81);
  }

  /** `better` owns 0x80, the second node has yielded it and yet answers for it when `worse` claims it. */
  ghost predicate AnswersForAnother(net: Net, better: nat, name: nat, worse: nat) {
    && |net.nodes| == |net.inbox| == 3
    && Holds(net.nodes[0]) && net.nodes[0].name == better && net.nodes[0].address == 0x80
    && !Holds(net.nodes[1]) && net.nodes[1].name == name
    && net.inbox[1] == [Envelope(worse, 0x80, 0)]
    && var next := Next(net, Deliver(1, 0));
       |next.inbox| == 3 && Envelope(name, 0x80, 0) in next.inbox[0] && Envelope(name, 0x80, 0) in next.inbox[2]
  }

  // MAIN RESULT. The exception in `AnswersForOwnedAddressIff` is reached by a run, even one without any
  // delay: three nodes claim 0x80, the second loses it to the first and then answers the third.
  lemma YieldedAddressDefended(better: nat, name: nat, worse: nat)
    requires better < name < worse && SelfConfigurable(name)
    ensures exists net :: Reachable(net, 250, Some(0)) && AnswersForAnother(net, better, name, worse)
  {
    var net0 := AllClaim(better, name, worse, Some(0));
    ReachableIsWellFormed(net0, 250, Some(0));
    ReachesNext(net0, Deliver(1, 0), 250, Some(0));
    NameYields(name, better);
    var net := Next(net0, Deliver(1, 0));
    assert Claims([]) == [];
    assert net.inbox[1] == [Envelope(worse, 0x80, 0)];
    ReachableIsWellFormed(net, 250, Some(0));
    assert HandleClaim(Yielding(name), 0x80, worse).sent == [Msg.Claim(name, 0x80)];
    assert Envelope(name, 0x80, 0) in Claims([Msg.Claim(name, 0x80)]);
    assert AnswersForAnother(net, better, name, worse);
  }
}
