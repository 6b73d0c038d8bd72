/**
 Any number of control functions with distinct NAMEs contending for addresses on one bus.
 Claims may take any time and overtake each other; only loss is excluded.
 */
module ClaimNetwork {
  import opened Can
  import opened ClaimMachine

  /** A claim on its way to one node, with the time it has been under way. */
  datatype Envelope = Envelope(name: nat, address: byte, age: nat)

  datatype Net = Net(nodes: seq<Node>, inbox: seq<seq<Envelope>>)

  /** Delivery takes any waiting envelope, not the oldest. In `Tick` each node's own clock may be off. */
  datatype Action =
    | StartAt(i: nat)
    | RequestAt(i: nat)
    | Deliver(i: nat, k: nat)
    | Tick(clocks: seq<nat>, real_: nat)

  // ----- one node

  /** The node acts as owner of `address`: it has claimed it, or is waiting out the contest window. */
  predicate Holds(n: Node) {
    !n.listening && (n.state == Claimed || (n.state == WaitForContest && !n.reclaimPending))
  }

  ghost predicate NodeOk(n: Node) {
    && TimersInRange(n)
    && (n.state == Claimed ==> !n.reclaimPending)
    && (n.listening ==> n.state == SendRequest && n.preferred <= MAX_ADDRESS)
    && (n.state == SendRequest ==> n.listening)
    && (n.state == Unstarted <==> !n.attempted)
    && (n.state in {Claimed, WaitForContest, WaitForClaim} ==>
          && n.address <= MAX_ADDRESS
          && (|| n.address == n.preferred
              || (SelfConfigurable(n.name) && SELF_CONFIG_MIN <= n.address <= SELF_CONFIG_MAX)))
    && (n.state == WaitForClaim ==> n.reclaimPending)
    && (n.reclaimPending ==>
          && n.attempted && n.rtxd > 0 && SelfConfigurable(n.name)
          && SELF_CONFIG_MIN <= n.reclaimAddress <= SELF_CONFIG_MAX)
  }

  /** Same identity; only the claim progress differs. */
  predicate SameNode(n: Node, n': Node) {
    n'.name == n.name && n'.preferred == n.preferred && n'.timeout == n.timeout && n'.rtxd == n.rtxd
  }

  /** The claims for real addresses among `sent`; a cannot-claim message contests nothing. */
  function Claims(sent: seq<Msg>): (r: seq<Envelope>)
    ensures forall e :: e in r <==> e.age == 0 && e.address <= MAX_ADDRESS && Msg.Claim(e.name, e.address) in sent
  {
    if sent == [] then []
    else if sent[0].Claim? && sent[0].address <= MAX_ADDRESS
    then [Envelope(sent[0].name, sent[0].address, 0)] + Claims(sent[1..])
    else Claims(sent[1..])
  }

  // Whatever it held before, a starting node owns nothing: it asks for claims and listens, or has no address
  // to claim and says so.
  lemma StartFacts(n: Node)
    requires NodeOk(n)
    ensures var s := Start(n);
            && NodeOk(s.node) && SameNode(n, s.node) && !Holds(s.node) && s.node.attempted && Claims(s.sent) == []
            && (if n.preferred <= MAX_ADDRESS then s.node.listening && s.sent == [Request]
                else s.node.state == Failed && s.sent == [Msg.Claim(n.name, NULL_ADDRESS)])
  {
  }

  lemma RequestFacts(n: Node)
    requires NodeOk(n)
    ensures var s := HandleRequest(n);
            && NodeOk(s.node) && SameNode(n, s.node)
            && s.node == n.(cannotClaimPending := s.node.cannotClaimPending,
                            cannotClaimTimer := s.node.cannotClaimTimer)
            && (forall e :: e in Claims(s.sent) ==> e.name == n.name && Holds(n) && e.address == n.address)
            && (Holds(n) ==> s.sent == [Msg.Claim(n.name, n.address)])
            && (n.state == Failed && !n.reclaimPending ==>
                  s.sent == [Msg.Claim(n.name, NULL_ADDRESS)] || s.node.cannotClaimPending)
  {
  }

  /** A node that has just announced the address it now owns. */
  predicate JustClaimed(n: Node, sent: seq<Msg>) {
    Envelope(n.name, n.address, 0) in Claims(sent) && n.guard == 0 && n.state == WaitForContest
  }

  /** Every address the node could move to is taken. */
  ghost predicate NoneFree(n: Node) {
    forall b: byte :: SELF_CONFIG_MIN <= b <= SELF_CONFIG_MAX ==> !IsFree(n, b)
  }

  lemma FinishListenFacts(n: Node)
    requires NodeOk(n) && n.listening
    ensures var s := FinishListen(n);
            && NodeOk(s.node) && SameNode(n, s.node)
            && (Holds(s.node) ==> JustClaimed(s.node, s.sent))
            && (forall e :: e in Claims(s.sent) ==> e.name == n.name)
            && (if SelfConfigurable(n.name)
                then s.node.state == Failed || s.node.address !in n.occupied
                else s.node.address == n.preferred)
            && (s.node.state == Failed <==> SelfConfigurable(n.name) && n.preferred in n.occupied && NoneFree(n))
  {
    FindNextIsNearest(n, n.preferred);
  }

  lemma ReclaimedIsFree(n: Node)
    requires SELF_CONFIG_MIN <= n.reclaimAddress <= SELF_CONFIG_MAX
    ensures var a := Reclaimed(n);
            if NoneFree(n) then a == NULL_ADDRESS else SELF_CONFIG_MIN <= a <= SELF_CONFIG_MAX && IsFree(n, a)
  {
    FindNextIsNearest(n, n.reclaimAddress);
    assert Reclaimed(n) == if IsFree(n, n.reclaimAddress) then n.reclaimAddress else FindNext(n, n.reclaimAddress);
  }

  lemma ReclaimFacts(n: Node, elapsed: nat)
    requires NodeOk(n) && n.reclaimPending && !n.listening
    ensures var s := ReclaimPart(n, elapsed);
            && NodeOk(s.node) && SameNode(n, s.node)
            && (Holds(s.node) ==> JustClaimed(s.node, s.sent) && IsFree(n, s.node.address))
            && (forall e :: e in Claims(s.sent) ==> e.name == n.name)
            && (SaturatingAdd32(n.reclaimTimer, elapsed) >= n.rtxd ==>
                  !s.node.reclaimPending && s.node.state == if NoneFree(n) then Failed else WaitForContest)
  {
    ReclaimedIsFree(n);
  }

  // A node that ends a timer pass owning an address either owned it before the pass too, or has
  // just announced it.
  lemma UpdateFacts(n: Node, elapsed: nat)
    requires NodeOk(n)
    ensures var s := Update(n, elapsed);
            && NodeOk(s.node) && SameNode(n, s.node)
            && (Holds(s.node) ==>
                  || JustClaimed(s.node, s.sent)
                  || (&& Holds(n) && s.node.address == n.address
                      && (n.state == WaitForContest && n.guard + elapsed < n.timeout ==>
                            s.node.state == WaitForContest && s.node.guard <= n.guard + elapsed)))
            && (forall e :: e in Claims(s.sent) ==> e.name == n.name)
  {
    if n.listening {
      FinishListenFacts(n.(listenTimer := SaturatingAdd32(n.listenTimer, elapsed)));
    } else {
      var s := CannotClaimPart(n, elapsed);
      assert NodeOk(s.node) && Claims(s.sent) == [];
      if n.reclaimPending {
        ReclaimFacts(s.node, elapsed);
      }
    }
  }

  // Hearing another claim for the address it owns, a node with the lower NAME repeats its own claim
  // and one with the higher NAME stops owning the address at once.
  lemma ClaimFacts(n: Node, claimed: byte, other: nat)
    requires NodeOk(n) && other != n.name
    ensures var s := HandleClaim(n, claimed, other);
            && NodeOk(s.node) && SameNode(n, s.node)
            && (Holds(s.node) ==>
                  || (&& Holds(n) && s.node.address == n.address && s.node.state == n.state && s.node.guard == n.guard
                      && (claimed == n.address ==> n.name < other && Envelope(n.name, n.address, 0) in Claims(s.sent)))
                  || JustClaimed(s.node, s.sent))
            && (forall e :: e in Claims(s.sent) ==> e.name == n.name)
  {
    var n1 := n.(occupied := n.occupied + {claimed});
    FindNextIsNearest(n1, claimed);
  }

  // ----- the bus

  ghost predicate WellFormed(net: Net) {
    && |net.inbox| == |net.nodes|
    && (forall i :: 0 <= i < |net.nodes| ==> NodeOk(net.nodes[i]))
    && (forall i, j :: 0 <= i < j < |net.nodes| ==> net.nodes[i].name != net.nodes[j].name)
    && (forall i, k :: 0 <= i < |net.inbox| && 0 <= k < |net.inbox[i]| ==> net.inbox[i][k].name != net.nodes[i].name)
  }

  function Post(inbox: seq<seq<Envelope>>, from: nat, es: seq<Envelope>): (r: seq<seq<Envelope>>)
    ensures |r| == |inbox|
    ensures forall j :: 0 <= j < |inbox| ==> r[j] == if j == from then inbox[j] else inbox[j] + es
  {
    seq(|inbox|, j requires 0 <= j < |inbox| => if j == from then inbox[j] else inbox[j] + es)
  }

  function Aged(es: seq<Envelope>, ms: nat): (r: seq<Envelope>)
    ensures |r| == |es| && forall k :: 0 <= k < |es| ==> r[k] == es[k].(age := es[k].age + ms)
  {
    seq(|es|, k requires 0 <= k < |es| => es[k].(age := es[k].age + ms))
  }

  /** Everything nodes `from..` announce during a timer pass, as seen by node `j`. */
  function Announced(steps: seq<Step>, j: nat, from: nat): (r: seq<Envelope>)
    requires from <= |steps|
    ensures forall e :: e in r <==> exists i :: from <= i < |steps| && i != j && e in Claims(steps[i].sent)
    decreases |steps| - from
  {
    if from == |steps| then []
    else (if from == j then [] else Claims(steps[from].sent)) + Announced(steps, j, from + 1)
  }

  ghost predicate Enabled(net: Net, a: Action) {
    match a
    case StartAt(i) => i < |net.nodes|
    case RequestAt(i) => i < |net.nodes|
    case Deliver(i, k) => i < |net.inbox| && k < |net.inbox[i]|
    case Tick(clocks, _) => |clocks| == |net.nodes|
  }

  /** Every node sees its own clock advance, and everything under way ages by the true elapsed time. */
  function TickNet(net: Net, clocks: seq<nat>, real_: nat): Net
    requires |clocks| == |net.nodes| == |net.inbox|
    requires forall i :: 0 <= i < |net.nodes| ==> TimersInRange(net.nodes[i])
  {
    var steps := seq(|net.nodes|, i requires 0 <= i < |net.nodes| => Update(net.nodes[i], clocks[i]));
    Net(seq(|steps|, i requires 0 <= i < |steps| => steps[i].node),
        seq(|steps|, j requires 0 <= j < |steps| => Aged(net.inbox[j], real_) + Announced(steps, j, 0)))
  }

  function At(net: Net, i: nat, inbox: seq<seq<Envelope>>, s: Step): Net
    requires i < |net.nodes|
  {
    Net(net.nodes[i := s.node], Post(inbox, i, Claims(s.sent)))
  }

  function Delivered(net: Net, i: nat, k: nat): Net
    requires i < |net.inbox| == |net.nodes| && k < |net.inbox[i]|
  {
    var e := net.inbox[i][k];
    var rest := net.inbox[i := net.inbox[i][..k] + net.inbox[i][k + 1..]];
    At(net, i, rest, HandleClaim(net.nodes[i], e.address, e.name))
  }

  /** The test for well-formedness only makes `Next` total: it holds in every run (`RunKeepsInv`). */
  ghost function Next(net: Net, a: Action): Net
    requires Enabled(net, a)
  {
    if !WellFormed(net) then net
    else match a
    case StartAt(i) => At(net, i, net.inbox, Start(net.nodes[i]))
    case RequestAt(i) => At(net, i, net.inbox, HandleRequest(net.nodes[i]))
    case Deliver(i, k) => Delivered(net, i, k)
    case Tick(clocks, real_) => TickNet(net, clocks, real_)
  }

  // ----- the timed assumption

  /**
   With `bound == None` nothing is assumed about time. With `bound == Some(d)`, time passes only while
   every claim under way is at most `d` old, and no node's clock runs ahead of it.
   */
  ghost predicate Timely(net: Net, a: Action, bound: Option<nat>) {
    a.Tick? && bound.Some? ==>
      && (forall i :: 0 <= i < |a.clocks| ==> a.clocks[i] <= a.real_)
      && (forall j, k :: 0 <= j < |net.inbox| && 0 <= k < |net.inbox[j]| ==>
            net.inbox[j][k].age + a.real_ <= bound.value)
  }

  /** Every contest window leaves room for a claim and its answer. */
  ghost predicate Roomy(net: Net, bound: Option<nat>) {
    bound.Some? ==> forall i :: 0 <= i < |net.nodes| ==> 2 * bound.value < net.nodes[i].timeout
  }

  ghost predicate Fresh(net: Net, bound: Option<nat>) {
    && Roomy(net, bound)
    && (bound.Some? ==>
          forall j, k :: 0 <= j < |net.inbox| && 0 <= k < |net.inbox[j]| ==> net.inbox[j][k].age <= bound.value)
  }

  // ----- two owners of one address are on their way to settling it

  /** `x`'s claim has not reached `y` yet. */
  ghost predicate ClaimUnderway(net: Net, x: nat, y: nat, bound: Option<nat>)
    requires x < |net.nodes| && y < |net.inbox|
  {
    exists e :: e in net.inbox[y] && e.name == net.nodes[x].name && e.address == net.nodes[x].address
                && (bound.Some? ==> net.nodes[x].guard <= e.age)
  }

  /** `y` has the better NAME and its answer to `x` has not arrived yet. */
  ghost predicate AnswerUnderway(net: Net, x: nat, y: nat, bound: Option<nat>)
    requires x < |net.nodes| && y < |net.nodes| && x < |net.inbox|
  {
    net.nodes[y].name < net.nodes[x].name &&
    exists e :: e in net.inbox[x] && e.name == net.nodes[y].name && e.address == net.nodes[x].address
                && (bound.Some? ==> net.nodes[x].guard <= bound.value + e.age)
  }

  ghost predicate Settling(net: Net, x: nat, y: nat, bound: Option<nat>)
    requires x < |net.nodes| && y < |net.nodes| && |net.inbox| == |net.nodes|
  {
    && (bound.Some? ==> net.nodes[x].state == WaitForContest)
    && (ClaimUnderway(net, x, y, bound) || AnswerUnderway(net, x, y, bound))
  }

  predicate BothOwn(net: Net, i: nat, j: nat)
    requires i < |net.nodes| && j < |net.nodes|
  {
    i != j && Holds(net.nodes[i]) && Holds(net.nodes[j]) && net.nodes[i].address == net.nodes[j].address
  }

  ghost predicate Inv(net: Net, bound: Option<nat>) {
    && WellFormed(net)
    && Fresh(net, bound)
    && forall i, j :: 0 <= i < |net.nodes| && 0 <= j < |net.nodes| && BothOwn(net, i, j) ==>
                      Settling(net, i, j, bound) || Settling(net, j, i, bound)
  }

  // ----- every action keeps the invariant

  lemma NodeChangeKeepsForm(net: Net, i: nat, inbox: seq<seq<Envelope>>, s: Step)
    requires WellFormed(net) && i < |net.nodes| && NodeOk(s.node) && SameNode(net.nodes[i], s.node)
    requires |inbox| == |net.inbox|
    requires forall j, e :: 0 <= j < |inbox| && e in inbox[j] ==> e in net.inbox[j]
    requires forall e :: e in Claims(s.sent) ==> e.name == net.nodes[i].name
    ensures WellFormed(At(net, i, inbox, s))
  {
    var net' := At(net, i, inbox, s);
    forall j, k | 0 <= j < |net'.inbox| && 0 <= k < |net'.inbox[j]|
      ensures net'.inbox[j][k].name != net'.nodes[j].name
    {
      var e := net'.inbox[j][k];
      assert e in net'.inbox[j];
      if j == i || e in inbox[j] {
        assert e in net.inbox[j];
      } else {
        assert e in Claims(s.sent) && e.name == net.nodes[i].name;
      }
    }
  }

  /** What `Settling` looks at in a node. */
  predicate SameStanding(n: Node, n': Node) {
    n'.name == n.name && n'.address == n.address && n'.state == n.state && n'.guard == n.guard
  }

  lemma SettlingPersists(net: Net, net': Net, x: nat, y: nat, bound: Option<nat>)
    requires |net.nodes| == |net'.nodes| == |net.inbox| == |net'.inbox| && x < |net.nodes| && y < |net.nodes|
    requires Settling(net, x, y, bound)
    requires SameStanding(net.nodes[x], net'.nodes[x]) && SameStanding(net.nodes[y], net'.nodes[y])
    requires forall e :: e in net.inbox[x] ==> e in net'.inbox[x]
    requires forall e :: e in net.inbox[y] ==> e in net'.inbox[y]
    ensures Settling(net', x, y, bound)
  {
  }

  // A node that has just announced its address is settling with every other owner of it.
  lemma NewClaimSettles(net: Net, i: nat, j: nat, sent: seq<Msg>, bound: Option<nat>)
    requires |net.nodes| == |net.inbox| && i < |net.nodes| && j < |net.nodes| && i != j
    requires JustClaimed(net.nodes[i], sent)
    requires forall e :: e in Claims(sent) ==> e in net.inbox[j]
    ensures Settling(net, i, j, bound)
  {
    assert Envelope(net.nodes[i].name, net.nodes[i].address, 0) in net.inbox[j];
  }

  // Starting over and answering a request disturb nobody.
  lemma QuietActionKeepsInv(net: Net, i: nat, s: Step, bound: Option<nat>)
    requires Inv(net, bound) && i < |net.nodes| && NodeOk(s.node) && SameNode(net.nodes[i], s.node)
    requires forall e :: e in Claims(s.sent) ==> e.name == net.nodes[i].name
    requires Holds(s.node) ==> Holds(net.nodes[i]) && SameStanding(net.nodes[i], s.node)
    ensures Inv(At(net, i, net.inbox, s), bound)
  {
    var net' := At(net, i, net.inbox, s);
    NodeChangeKeepsForm(net, i, net.inbox, s);
    PostKeepsFresh(net, i, net.inbox, s, bound);
    forall x, y | 0 <= x < |net'.nodes| && 0 <= y < |net'.nodes| && BothOwn(net', x, y)
      ensures Settling(net', x, y, bound) || Settling(net', y, x, bound)
    {
      assert BothOwn(net, x, y);
      if Settling(net, x, y, bound) {
        SettlingPersists(net, net', x, y, bound);
      } else {
        SettlingPersists(net, net', y, x, bound);
      }
    }
  }

  lemma PostKeepsFresh(net: Net, i: nat, inbox: seq<seq<Envelope>>, s: Step, bound: Option<nat>)
    requires WellFormed(net) && Fresh(net, bound) && i < |net.nodes| && SameNode(net.nodes[i], s.node)
    requires |inbox| == |net.inbox|
    requires forall j, e :: 0 <= j < |inbox| && e in inbox[j] ==> e in net.inbox[j]
    ensures Fresh(At(net, i, inbox, s), bound)
  {
    var net' := At(net, i, inbox, s);
    if bound.Some? {
      forall j, k | 0 <= j < |net'.inbox| && 0 <= k < |net'.inbox[j]|
        ensures net'.inbox[j][k].age <= bound.value
      {
        var e := net'.inbox[j][k];
        assert e in net'.inbox[j];
        if j == i || e in inbox[j] {
          assert e in net.inbox[j];
        } else {
          assert e in Claims(s.sent) && e.age == 0;
        }
      }
    }
  }

  lemma TakenOut(es: seq<Envelope>, k: nat)
    requires k < |es|
    ensures var r := es[..k] + es[k + 1..];
            (forall e :: e in r ==> e in es) && (forall e :: e in es && e != es[k] ==> e in r)
  {
    var r := es[..k] + es[k + 1..];
    forall e | e in es && e != es[k]
      ensures e in r
    {
      var m :| 0 <= m < |es| && es[m] == e;
      assert r[if m < k then m else m - 1] == e;
    }
  }

  // The heart of the protocol: delivering a claim never loses the contest it belongs to.
  lemma DeliverKeepsPair(net: Net, i: nat, k: nat, j: nat, bound: Option<nat>)
    requires Inv(net, bound) && Enabled(net, Deliver(i, k)) && j < |net.nodes| && j != i
    requires BothOwn(Delivered(net, i, k), i, j)
    ensures var net' := Delivered(net, i, k); Settling(net', i, j, bound) || Settling(net', j, i, bound)
  {
    var net' := Delivered(net, i, k);
    var gone := net.inbox[i][k];
    assert gone in net.inbox[i];
    var s := HandleClaim(net.nodes[i], gone.address, gone.name);
    ClaimFacts(net.nodes[i], gone.address, gone.name);
    TakenOut(net.inbox[i], k);
    assert forall e :: e in Claims(s.sent) ==> e in net'.inbox[j];
    if JustClaimed(s.node, s.sent) {
      NewClaimSettles(net', i, j, s.sent, bound);
    } else {
      assert BothOwn(net, i, j);
      var a := net.nodes[i].address;
      if gone.name == net.nodes[j].name && gone.address == a {
        // j's claim has arrived, and i, which has the better NAME, has answered it
        var answer := Envelope(net.nodes[i].name, a, 0);
        assert answer in net'.inbox[j];
        assert bound.Some? ==> gone.age <= bound.value;
        AnswerSettles(net, net', i, j, gone, answer, bound);
      } else if Settling(net, i, j, bound) {
        OtherDelivered(net, net', i, j, i, gone, bound);
      } else {
        OtherDelivered(net, net', j, i, i, gone, bound);
      }
    }
  }

  // An envelope that is no part of the contest between x and y does not affect it.
  lemma OtherDelivered(net: Net, net': Net, x: nat, y: nat, i: nat, gone: Envelope, bound: Option<nat>)
    requires |net.nodes| == |net'.nodes| == |net.inbox| == |net'.inbox| && x < |net.nodes| && y < |net.nodes|
    requires i == x || i == y
    requires Settling(net, x, y, bound) && net.nodes[x].address == net.nodes[y].address
    requires SameStanding(net.nodes[x], net'.nodes[x]) && SameStanding(net.nodes[y], net'.nodes[y])
    requires !(gone.name == net.nodes[if i == x then y else x].name && gone.address == net.nodes[x].address)
    requires forall e :: e in net.inbox[x] && (e != gone || x != i) ==> e in net'.inbox[x]
    requires forall e :: e in net.inbox[y] && (e != gone || y != i) ==> e in net'.inbox[y]
    ensures Settling(net', x, y, bound)
  {
    if ClaimUnderway(net, x, y, bound) {
      assert ClaimUnderway(net', x, y, bound);
    } else {
      assert AnswerUnderway(net', x, y, bound);
    }
  }

  lemma AnswerSettles(net: Net, net': Net, i: nat, j: nat, gone: Envelope, answer: Envelope, bound: Option<nat>)
    requires WellFormed(net) && |net'.nodes| == |net'.inbox| == |net.nodes|
    requires i < |net.nodes| && j < |net.nodes| && i != j && BothOwn(net, i, j)
    requires SameStanding(net.nodes[i], net'.nodes[i]) && SameStanding(net.nodes[j], net'.nodes[j])
    requires Settling(net, i, j, bound) || Settling(net, j, i, bound)
    requires gone.name == net.nodes[j].name && gone.address == net.nodes[i].address && gone in net.inbox[i]
    requires bound.Some? ==> gone.age <= bound.value
    requires net.nodes[i].name < net.nodes[j].name
    requires answer == Envelope(net.nodes[i].name, net.nodes[i].address, 0) && answer in net'.inbox[j]
    requires forall e :: e in net.inbox[j] ==> e in net'.inbox[j]
    requires forall e :: e in net.inbox[i] && e != gone ==> e in net'.inbox[i]
    ensures Settling(net', i, j, bound) || Settling(net', j, i, bound)
  {
    if Settling(net, j, i, bound) {
      if AnswerUnderway(net, j, i, bound) {
        assert AnswerUnderway(net', j, i, bound);
      } else {
        var e :| e in net.inbox[i] && e.name == net.nodes[j].name && e.address == net.nodes[j].address
                 && (bound.Some? ==> net.nodes[j].guard <= e.age);
        if e == gone {
          assert AnswerUnderway(net', j, i, bound);
        } else {
          assert ClaimUnderway(net', j, i, bound);
        }
      }
    } else {
      assert ClaimUnderway(net', i, j, bound);
    }
  }

  lemma DeliverKeepsInv(net: Net, i: nat, k: nat, bound: Option<nat>)
    requires Inv(net, bound) && Enabled(net, Deliver(i, k))
    ensures Inv(Delivered(net, i, k), bound)
  {
    var net' := Delivered(net, i, k);
    var e := net.inbox[i][k];
    var s := HandleClaim(net.nodes[i], e.address, e.name);
    var rest := net.inbox[i := net.inbox[i][..k] + net.inbox[i][k + 1..]];
    ClaimFacts(net.nodes[i], e.address, e.name);
    TakenOut(net.inbox[i], k);
    NodeChangeKeepsForm(net, i, rest, s);
    PostKeepsFresh(net, i, rest, s, bound);
    forall x, y | 0 <= x < |net'.nodes| && 0 <= y < |net'.nodes| && BothOwn(net', x, y)
      ensures Settling(net', x, y, bound) || Settling(net', y, x, bound)
    {
      if x == i {
        DeliverKeepsPair(net, i, k, y, bound);
      } else if y == i {
        DeliverKeepsPair(net, i, k, x, bound);
      } else {
        assert BothOwn(net, x, y);
        if Settling(net, x, y, bound) {
          SettlingPersists(net, net', x, y, bound);
        } else {
          SettlingPersists(net, net', y, x, bound);
        }
      }
    }
  }

  // ----- the passage of time

  ghost function TickSteps(net: Net, clocks: seq<nat>): (r: seq<Step>)
    requires WellFormed(net) && |clocks| == |net.nodes|
    ensures |r| == |net.nodes| && forall i :: 0 <= i < |r| ==> r[i] == Update(net.nodes[i], clocks[i])
  {
    seq(|net.nodes|, i requires 0 <= i < |net.nodes| => Update(net.nodes[i], clocks[i]))
  }

  lemma TickShape(net: Net, clocks: seq<nat>, real_: nat)
    requires WellFormed(net) && |clocks| == |net.nodes|
    ensures var net' := TickNet(net, clocks, real_);
            var steps := TickSteps(net, clocks);
            && |net'.nodes| == |net'.inbox| == |net.nodes|
            && (forall i :: 0 <= i < |net.nodes| ==> net'.nodes[i] == steps[i].node)
            && (forall j, e :: 0 <= j < |net.nodes| && e in net'.inbox[j] ==>
                  || (exists e0 :: e0 in net.inbox[j] && e == e0.(age := e0.age + real_))
                  || (exists i :: 0 <= i < |net.nodes| && i != j && e in Claims(steps[i].sent)))
            && (forall j, e :: 0 <= j < |net.nodes| && e in net.inbox[j] ==> e.(age := e.age + real_) in net'.inbox[j])
            && (forall i, j, e :: 0 <= i < |net.nodes| && 0 <= j < |net.nodes| && i != j &&
                                  e in Claims(steps[i].sent) ==>
                  e in net'.inbox[j])
  {
    var net' := TickNet(net, clocks, real_);
    var steps := TickSteps(net, clocks);
    forall j | 0 <= j < |net.nodes|
      ensures net'.inbox[j] == Aged(net.inbox[j], real_) + Announced(steps, j, 0)
    {
      assert steps == seq(|net.nodes|, i requires 0 <= i < |net.nodes| => Update(net.nodes[i], clocks[i]));
    }
    forall j, e | 0 <= j < |net.nodes| && e in net.inbox[j]
      ensures e.(age := e.age + real_) in net'.inbox[j]
    {
      var k :| 0 <= k < |net.inbox[j]| && net.inbox[j][k] == e;
      assert Aged(net.inbox[j], real_)[k] == e.(age := e.age + real_);
      assert net'.inbox[j][k] == e.(age := e.age + real_);
    }
  }

  lemma TickKeepsForm(net: Net, clocks: seq<nat>, real_: nat, bound: Option<nat>)
    requires Inv(net, bound) && |clocks| == |net.nodes| && Timely(net, Tick(clocks, real_), bound)
    ensures WellFormed(TickNet(net, clocks, real_)) && Fresh(TickNet(net, clocks, real_), bound)
  {
    var net' := TickNet(net, clocks, real_);
    var steps := TickSteps(net, clocks);
    TickShape(net, clocks, real_);
    forall i | 0 <= i < |net.nodes|
      ensures NodeOk(net'.nodes[i]) && SameNode(net.nodes[i], net'.nodes[i])
      ensures forall e :: e in Claims(steps[i].sent) ==> e.name == net.nodes[i].name
    {
      UpdateFacts(net.nodes[i], clocks[i]);
    }
    forall j, k | 0 <= j < |net'.inbox| && 0 <= k < |net'.inbox[j]|
      ensures net'.inbox[j][k].name != net'.nodes[j].name
      ensures bound.Some? ==> net'.inbox[j][k].age <= bound.value
    {
      var e := net'.inbox[j][k];
      assert e in net'.inbox[j];
      if e0 :| e0 in net.inbox[j] && e == e0.(age := e0.age + real_) {
        var m :| 0 <= m < |net.inbox[j]| && net.inbox[j][m] == e0;
      } else {
        var i :| 0 <= i < |net.nodes| && i != j && e in Claims(steps[i].sent);
        assert e.name == net.nodes[i].name;
      }
    }
  }

  // A contest between two old owners cannot run out of time before it is settled.
  lemma TickKeepsSettling(net: Net, clocks: seq<nat>, real_: nat, x: nat, y: nat, bound: Option<nat>)
    requires Inv(net, bound) && |clocks| == |net.nodes| && Timely(net, Tick(clocks, real_), bound)
    requires x < |net.nodes| && y < |net.nodes| && x != y && Settling(net, x, y, bound)
    requires var s := Update(net.nodes[x], clocks[x]); Holds(s.node) && !JustClaimed(s.node, s.sent)
    ensures var net' := TickNet(net, clocks, real_);
            |net'.nodes| == |net'.inbox| == |net.nodes| && Settling(net', x, y, bound)
  {
    var net' := TickNet(net, clocks, real_);
    TickShape(net, clocks, real_);
    UpdateFacts(net.nodes[x], clocks[x]);
    UpdateFacts(net.nodes[y], clocks[y]);
    if ClaimUnderway(net, x, y, bound) {
      var e :| e in net.inbox[y] && e.name == net.nodes[x].name && e.address == net.nodes[x].address
               && (bound.Some? ==> net.nodes[x].guard <= e.age);
      var m :| 0 <= m < |net.inbox[y]| && net.inbox[y][m] == e;
      assert e.(age := e.age + real_) in net'.inbox[y];
      assert ClaimUnderway(net', x, y, bound);
    } else {
      var e :| e in net.inbox[x] && e.name == net.nodes[y].name && e.address == net.nodes[x].address
               && (bound.Some? ==> net.nodes[x].guard <= bound.value + e.age);
      var m :| 0 <= m < |net.inbox[x]| && net.inbox[x][m] == e;
      assert e.(age := e.age + real_) in net'.inbox[x];
      assert AnswerUnderway(net', x, y, bound);
    }
  }

  lemma TickKeepsInv(net: Net, clocks: seq<nat>, real_: nat, bound: Option<nat>)
    requires Inv(net, bound) && |clocks| == |net.nodes| && Timely(net, Tick(clocks, real_), bound)
    ensures Inv(TickNet(net, clocks, real_), bound)
  {
    var net' := TickNet(net, clocks, real_);
    var steps := TickSteps(net, clocks);
    TickKeepsForm(net, clocks, real_, bound);
    TickShape(net, clocks, real_);
    forall x, y | 0 <= x < |net'.nodes| && 0 <= y < |net'.nodes| && BothOwn(net', x, y)
      ensures Settling(net', x, y, bound) || Settling(net', y, x, bound)
    {
      UpdateFacts(net.nodes[x], clocks[x]);
      UpdateFacts(net.nodes[y], clocks[y]);
      if JustClaimed(steps[x].node, steps[x].sent) {
        NewClaimSettles(net', x, y, steps[x].sent, bound);
      } else if JustClaimed(steps[y].node, steps[y].sent) {
        NewClaimSettles(net', y, x, steps[y].sent, bound);
      } else {
        assert BothOwn(net, x, y);
        if Settling(net, x, y, bound) {
          TickKeepsSettling(net, clocks, real_, x, y, bound);
        } else {
          TickKeepsSettling(net, clocks, real_, y, x, bound);
        }
      }
    }
  }

  lemma NextKeepsInv(net: Net, a: Action, bound: Option<nat>)
    requires Inv(net, bound) && Enabled(net, a) && Timely(net, a, bound)
    ensures Inv(Next(net, a), bound)
  {
    match a
    case StartAt(i) =>
      StartFacts(net.nodes[i]);
      QuietActionKeepsInv(net, i, Start(net.nodes[i]), bound);
    case RequestAt(i) =>
      RequestFacts(net.nodes[i]);
      QuietActionKeepsInv(net, i, HandleRequest(net.nodes[i]), bound);
    case Deliver(i, k) => DeliverKeepsInv(net, i, k, bound);
    case Tick(clocks, real_) => TickKeepsInv(net, clocks, real_, bound);
  }

  // ----- runs

  ghost predicate IsNew(n: Node) {
    exists base, rtxd :: n == NewNode(n.name, n.preferred, base, rtxd)
  }

  ghost predicate Initial(net: Net) {
    && |net.inbox| == |net.nodes|
    && (forall i :: 0 <= i < |net.nodes| ==> IsNew(net.nodes[i]))
    && (forall i, j :: 0 <= i < j < |net.nodes| ==> net.nodes[i].name != net.nodes[j].name)
    && (forall i :: 0 <= i < |net.inbox| ==> net.inbox[i] == [])
  }

  ghost predicate IsRun(nets: seq<Net>, actions: seq<Action>, bound: Option<nat>) {
    && |nets| == |actions| + 1
    && Initial(nets[0])
    && (forall i :: 0 <= i < |actions| ==>
          && Enabled(nets[i], actions[i]) && Timely(nets[i], actions[i], bound)
          && nets[i + 1] == Next(nets[i], actions[i]))
  }

  lemma {:induction false} RunKeepsInv(nets: seq<Net>, actions: seq<Action>, bound: Option<nat>, n: nat)
    requires IsRun(nets, actions, bound) && Roomy(nets[0], bound) && n < |nets|
    ensures Inv(nets[n], bound)
  {
    if n == 0 {
      forall i | 0 <= i < |nets[0].nodes|
        ensures NodeOk(nets[0].nodes[i]) && !Holds(nets[0].nodes[i])
      {
      }
    } else {
      RunKeepsInv(nets, actions, bound, n - 1);
      NextKeepsInv(nets[n - 1], actions[n - 1], bound);
    }
  }

  // MAIN RESULT. However long claims take and in whatever order they arrive: once no claim for an
  // address is under way, at most one node owns it.
  lemma QuietMeansUnique(nets: seq<Net>, actions: seq<Action>, n: nat, i: nat, j: nat)
    requires IsRun(nets, actions, None) && n < |nets| && i < |nets[n].nodes| && j < |nets[n].nodes|
    requires BothOwn(nets[n], i, j)
    ensures exists k, e :: 0 <= k < |nets[n].inbox| && e in nets[n].inbox[k] && e.address == nets[n].nodes[i].address
  {
    RunKeepsInv(nets, actions, None, n);
    var net := nets[n];
    var x, y := if Settling(net, i, j, None) then i else j, if Settling(net, i, j, None) then j else i;
    assert Settling(net, x, y, None);
    if ClaimUnderway(net, x, y, None) {
      var e :| e in net.inbox[y] && e.name == net.nodes[x].name && e.address == net.nodes[x].address;
    } else {
      var e :| e in net.inbox[x] && e.name == net.nodes[y].name && e.address == net.nodes[x].address;
    }
  }

  // MAIN RESULT. If every claim is delivered within `d` and twice `d` is less than every contest window,
  // no two nodes are ever in the Claimed state with the same address. `ClaimLimits` shows the bound is exact.
  lemma NeverClaimedTwice(nets: seq<Net>, actions: seq<Action>, d: nat, n: nat, i: nat, j: nat)
    requires IsRun(nets, actions, Some(d)) && Roomy(nets[0], Some(d))
    requires n < |nets| && i < |nets[n].nodes| && j < |nets[n].nodes| && i != j
    ensures !(nets[n].nodes[i].state == Claimed && nets[n].nodes[j].state == Claimed
              && nets[n].nodes[i].address == nets[n].nodes[j].address)
  {
    RunKeepsInv(nets, actions, Some(d), n);
    if nets[n].nodes[i].state == Claimed && nets[n].nodes[j].state == Claimed {
      assert nets[n].nodes[i].address == nets[n].nodes[j].address ==> BothOwn(nets[n], i, j);
    }
  }

  // MAIN RESULT. A node that is not self-configurable only ever owns its preferred address; any other
  // node stays on its preferred address or inside the self-configurable range.
  lemma OwnedAddressIsPermitted(nets: seq<Net>, actions: seq<Action>, n: nat, i: nat)
    requires IsRun(nets, actions, None) && n < |nets| && i < |nets[n].nodes| && Holds(nets[n].nodes[i])
    ensures var v := nets[n].nodes[i];
            || v.address == v.preferred
            || (SelfConfigurable(v.name) && SELF_CONFIG_MIN <= v.address <= SELF_CONFIG_MAX)
  {
    RunKeepsInv(nets, actions, None, n);
  }

  // ----- a yielded address is still defended

  /** The node has lost `claimed`, is waiting to move, and hears a third node with a worse NAME claim it. */
  predicate DefendsYielded(n: Node, claimed: byte, other: nat) {
    && n.reclaimPending && n.state != Failed && !n.listening
    && claimed <= MAX_ADDRESS && claimed == n.address && n.name < other
  }

  // MAIN RESULT. A node answers a claim only on behalf of an address it owns afterwards, except exactly
  // when it is waiting to move away from an address it has yielded: the address field is not cleared,
  // so the node then asserts an address that belongs to somebody else.
  lemma AnswersForOwnedAddressIff(n: Node, claimed: byte, other: nat)
    requires NodeOk(n)
    ensures var s := HandleClaim(n, claimed, other);
            (forall e :: e in Claims(s.sent) ==> Holds(s.node) && e.address == s.node.address)
            <==> !DefendsYielded(n, claimed, other)
  {
    var s := HandleClaim(n, claimed, other);
    var n1 := n.(occupied := n.occupied + {claimed});
    FindNextIsNearest(n1, claimed);
    if DefendsYielded(n, claimed, other) {
      assert Envelope(n.name, n.address, 0) in Claims(s.sent);
    }
  }
}
