/** What a node knows of the others: the addresses in the claims that have reached it since it last started. */
module ClaimHeard {
  import opened Can
  import opened ClaimMachine
  import opened ClaimNetwork

  /** Step `j` of the run hands node `i` a claim for address `a`. */
  ghost predicate HeardAt(nets: seq<Net>, actions: seq<Action>, i: nat, j: nat, a: byte) {
    && j < |actions| && j < |nets| && actions[j].Deliver? && actions[j].i == i
    && i < |nets[j].inbox| && actions[j].k < |nets[j].inbox[i]|
    && nets[j].inbox[i][actions[j].k].address == a && a <= 0xFD
  }

  /** Before step `k` node `i` has heard a claim for address `a`, and has not started since. */
  ghost predicate HasHeard(nets: seq<Net>, actions: seq<Action>, i: nat, k: nat, a: byte)
    requires k <= |actions|
  {
    exists j: nat :: j < k && HeardAt(nets, actions, i, j, a) && forall l :: j < l < k ==> actions[l] != StartAt(i)
  }

  /** The addresses that a step adds to what node `i` has heard. */
  function News(net: Net, act: Action, i: nat): set<byte>
    requires act.Deliver? && act.i == i ==> i < |net.inbox| && act.k < |net.inbox[i]|
  {
    if act.Deliver? && act.i == i && net.inbox[i][act.k].address <= 0xFD then {net.inbox[i][act.k].address} else {}
  }

  lemma OccupiedStep(net: Net, act: Action, i: nat)
    requires WellFormed(net) && Enabled(net, act) && i < |net.nodes|
    ensures i < |Next(net, act).nodes|
    ensures Next(net, act).nodes[i].occupied
         == if act == StartAt(i) then {} else net.nodes[i].occupied + News(net, act, i)
  {
    if act.Tick? {
      UpdateKeepsOccupied(net.nodes[i], act.clocks[i]);
    }
  }

  lemma UpdateKeepsOccupied(n: Node, elapsed: nat)
    requires TimersInRange(n)
    ensures Update(n, elapsed).node.occupied == n.occupied
  {
  }

  lemma HeardStep(nets: seq<Net>, actions: seq<Action>, i: nat, k: nat, a: byte)
    requires k < |actions| && k < |nets| && Enabled(nets[k], actions[k])
    ensures HasHeard(nets, actions, i, k + 1, a)
       <==> actions[k] != StartAt(i) && (HasHeard(nets, actions, i, k, a) || a in News(nets[k], actions[k], i))
  {
    if a in News(nets[k], actions[k], i) {
      assert HeardAt(nets, actions, i, k, a);
    } else if HasHeard(nets, actions, i, k, a) && actions[k] != StartAt(i) {
      var j: nat :| j < k && HeardAt(nets, actions, i, j, a) && forall l :: j < l < k ==> actions[l] != StartAt(i);
      assert forall l :: j < l < k + 1 ==> actions[l] != StartAt(i);
    }
    if HasHeard(nets, actions, i, k + 1, a) {
      var j: nat :|
        j < k + 1 && HeardAt(nets, actions, i, j, a) && forall l :: j < l < k + 1 ==> actions[l] != StartAt(i);
      assert j < k ==> actions[k] != StartAt(i);
    }
  }

  // MAIN RESULT. In every reachable state a node's table of occupied addresses holds exactly the addresses it has been
  // told of since it last started.
  lemma {:induction false} OccupiedIsHeard(nets: seq<Net>, actions: seq<Action>, i: nat, k: nat, a: byte)
    requires IsRun(nets, actions, None) && k <= |actions| && i < |nets[k].nodes|
    ensures a in nets[k].nodes[i].occupied <==> HasHeard(nets, actions, i, k, a)
    decreases k
  {
    if k == 0 {
      assert IsNew(nets[0].nodes[i]);
    } else {
      RunKeepsInv(nets, actions, None, k - 1);
      NodesStay(nets[k - 1], actions[k - 1]);
      OccupiedIsHeard(nets, actions, i, k - 1, a);
      OccupiedStep(nets[k - 1], actions[k - 1], i);
      HeardStep(nets, actions, i, k - 1, a);
    }
  }

  lemma NodesStay(net: Net, act: Action)
    requires WellFormed(net) && Enabled(net, act)
    ensures |Next(net, act).nodes| == |net.nodes|
  {
  }

  // ----- where a node goes

  /** The node has come to own its address in this step. */
  predicate Arrives(n: Node, n': Node) {
    Holds(n') && !(Holds(n) && n.address == n'.address)
  }

  lemma ArrivesOnFree(net: Net, act: Action, i: nat)
    requires WellFormed(net) && Enabled(net, act) && i < |net.nodes| && i < |Next(net, act).nodes|
    requires SelfConfigurable(net.nodes[i].name) && Arrives(net.nodes[i], Next(net, act).nodes[i])
    ensures Next(net, act).nodes[i].address !in Next(net, act).nodes[i].occupied
  {
    var n := net.nodes[i];
    assert NodeOk(n);
    match act {
      case StartAt(j) => StartFacts(net.nodes[j]);
      case RequestAt(j) => RequestFacts(net.nodes[j]);
      case Deliver(j, k) =>
        if j == i {
          HearingArrives(n, net.inbox[i][k].address, net.inbox[i][k].name);
        }
      case Tick(clocks, _) => TickArrives(n, clocks[i]);
    }
  }

  lemma HearingArrives(n: Node, claimed: byte, other: nat)
    requires NodeOk(n) && other != n.name && Arrives(n, HandleClaim(n, claimed, other).node)
    ensures HandleClaim(n, claimed, other).node.address !in HandleClaim(n, claimed, other).node.occupied
  {
    FindNextIsNearest(n.(occupied := n.occupied + {claimed}), claimed);
  }

  lemma TickArrives(n: Node, elapsed: nat)
    requires NodeOk(n) && SelfConfigurable(n.name) && Arrives(n, Update(n, elapsed).node)
    ensures Update(n, elapsed).node.address !in Update(n, elapsed).node.occupied
  {
    UpdateKeepsOccupied(n, elapsed);
    if n.listening {
      FinishListenFacts(n.(listenTimer := SaturatingAdd32(n.listenTimer, elapsed)));
    } else if n.reclaimPending {
      ReclaimFacts(CannotClaimPart(n, elapsed).node, elapsed);
    }
  }

  // A self-configurable node never moves to an address it has heard claimed: in particular the address it claims after
  // listening is in no envelope delivered to it while it listened.
  lemma MovesToUnheard(nets: seq<Net>, actions: seq<Action>, i: nat, k: nat)
    requires IsRun(nets, actions, None) && k < |actions| && i < |nets[k].nodes| && i < |nets[k + 1].nodes|
    requires SelfConfigurable(nets[k].nodes[i].name) && Arrives(nets[k].nodes[i], nets[k + 1].nodes[i])
    ensures !HasHeard(nets, actions, i, k + 1, nets[k + 1].nodes[i].address)
  {
    RunKeepsInv(nets, actions, None, k);
    ArrivesOnFree(nets[k], actions[k], i);
    OccupiedIsHeard(nets, actions, i, k + 1, nets[k + 1].nodes[i].address);
  }
}
