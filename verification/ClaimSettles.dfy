/**
 Address contention dies out: however the waiting claims are delivered, only finitely many deliveries
 follow, answers and fresh claims included. At the end no address has two owners.
 */
module ClaimSettles {
  import opened Can
  import opened ClaimMachine
  import opened ClaimNetwork

  // ----- how much claiming a node can still do

  ghost function FreeSet(n: Node): set<byte> {
    set b: byte | SELF_CONFIG_MIN <= b <= SELF_CONFIG_MAX && IsFree(n, b)
  }

  /** Addresses left to try, plus one while the present address is not one of them. */
  ghost function Budget(n: Node): nat {
    |FreeSet(n)| + if n.address in FreeSet(n) then 0 else 1
  }

  lemma HearingCosts(n: Node, claimed: byte)
    ensures var n1 := n.(occupied := n.occupied + {claimed});
            && FreeSet(n1) == FreeSet(n) - {claimed}
            && |FreeSet(n1)| == |FreeSet(n)| - (if claimed in FreeSet(n) then 1 else 0)
            && Budget(n1) <= Budget(n)
  {
    var n1 := n.(occupied := n.occupied + {claimed});
    assert FreeSet(n1) == FreeSet(n) - {claimed};
  }

  lemma SameFree(n: Node, n': Node)
    requires n'.preferred == n.preferred && n'.occupied == n.occupied
    ensures FreeSet(n') == FreeSet(n)
  {
    assert forall b: byte :: IsFree(n, b) == IsFree(n', b);
  }

  lemma NextIsFree(n: Node, current: byte)
    ensures FindNext(n, current) == NULL_ADDRESS || FindNext(n, current) in FreeSet(n)
  {
    FindNextIsNearest(n, current);
  }

  // Yielding the address `claimed`, just heard from a better NAME.
  lemma YieldCosts(n: Node, claimed: byte)
    requires claimed == n.address
    ensures var n1 := n.(occupied := n.occupied + {claimed});
            var s := Yield(n1, claimed);
            && Budget(s.node) <= Budget(n)
            && (|| Claims(s.sent) == []
                || (Claims(s.sent) == [Envelope(n.name, s.node.address, 0)] && Budget(s.node) < Budget(n)))
  {
    var n1 := n.(occupied := n.occupied + {claimed});
    HearingCosts(n, claimed);
    YieldShape(n1, claimed);
    SameFree(n1, Yield(n1, claimed).node);
  }

  // What a yielding node sends: nothing another node would weigh, or one claim for a free address.
  lemma YieldShape(n: Node, claimed: byte)
    ensures var s := Yield(n, claimed);
            && s.node.preferred == n.preferred && s.node.occupied == n.occupied
            && (|| Claims(s.sent) == []
                || (Claims(s.sent) == [Envelope(n.name, s.node.address, 0)] && s.node.address in FreeSet(n)))
  {
    NextIsFree(n, claimed);
    SingleClaim(n.name, NULL_ADDRESS);
    SingleClaim(n.name, FindNext(n, claimed));
  }

  lemma SingleClaim(name: nat, a: byte)
    ensures Claims([Msg.Claim(name, a)]) == if a <= MAX_ADDRESS then [Envelope(name, a, 0)] else []
  {
    assert [Msg.Claim(name, a)][1..] == [];
  }

  // Yielding with an immediate fresh claim uses up part of the node's budget; nothing ever adds to it.
  lemma ClaimCosts(n: Node, claimed: byte, other: nat)
    requires NodeOk(n) && other != n.name
    ensures var s := HandleClaim(n, claimed, other);
            && Budget(s.node) <= Budget(n)
            && (Claims(s.sent) == [] || Claims(s.sent) == [Envelope(n.name, s.node.address, 0)])
            && (Claims(s.sent) != [] ==> n.name < other || Budget(s.node) < Budget(n))
  {
    HearingCosts(n, claimed);
    if claimed == n.address {
      YieldCosts(n, claimed);
    }
  }

  ghost function TotalBudget(ns: seq<Node>): nat {
    if ns == [] then 0 else Budget(ns[0]) + TotalBudget(ns[1..])
  }

  lemma {:induction false} TotalBudgetUpdate(ns: seq<Node>, i: nat, n: Node)
    requires i < |ns|
    ensures TotalBudget(ns[i := n]) == TotalBudget(ns) - Budget(ns[i]) + Budget(n)
  {
    if i == 0 {
      assert ns[0 := n][1..] == ns[1..];
    } else {
      assert ns[i := n][1..] == ns[1..][i - 1 := n];
      TotalBudgetUpdate(ns[1..], i - 1, n);
    }
  }

  // ----- how much answering the waiting claims can still cause

  function Pow(b: nat, e: nat): nat {
    if e == 0 then 1 else b * Pow(b, e - 1)
  }

  lemma {:induction false} PowGrows(b: nat, lo: nat, hi: nat)
    requires b >= 1 && lo < hi
    ensures Pow(b, hi) >= b * Pow(b, lo) && Pow(b, lo) >= 1
    decreases hi
  {
    PowPositive(b, lo);
    if lo + 1 < hi {
      PowGrows(b, lo, hi - 1);
      assert Pow(b, hi) >= Pow(b, hi - 1) by { PowPositive(b, hi - 1); }
    }
  }

  lemma {:induction false} PowPositive(b: nat, e: nat)
    requires b >= 1
    ensures Pow(b, e) >= 1 && Pow(b, e + 1) >= Pow(b, e)
  {
    if e > 0 {
      PowPositive(b, e - 1);
    }
  }

  /** The nodes with a better NAME than `name`. */
  ghost function Better(ns: seq<Node>, name: nat): set<nat> {
    set i: nat | i < |ns| && ns[i].name < name
  }

  lemma BetterIsMonotone(ns: seq<Node>, i: nat, name: nat)
    requires i < |ns| && ns[i].name < name
    ensures |Better(ns, ns[i].name)| < |Better(ns, name)|
  {
    assert Better(ns, ns[i].name) <= Better(ns, name) - {i};
    CardinalityMonotone(Better(ns, ns[i].name), Better(ns, name) - {i});
  }

  lemma {:induction false} CardinalityMonotone<T>(a: set<T>, b: set<T>)
    requires a <= b
    ensures |a| <= |b|
  {
    if a != {} {
      var x :| x in a;
      CardinalityMonotone(a - {x}, b - {x});
    }
  }

  /** A claim can set off one answer per node below it in the NAME order, each heard by every node. */
  ghost function Weight(ns: seq<Node>, e: Envelope): nat {
    Pow(|ns| + 1, |Better(ns, e.name)|)
  }

  ghost function Load(ns: seq<Node>, es: seq<Envelope>): nat {
    if es == [] then 0 else Weight(ns, es[0]) + Load(ns, es[1..])
  }

  ghost function TotalLoad(ns: seq<Node>, inbox: seq<seq<Envelope>>): nat {
    if inbox == [] then 0 else Load(ns, inbox[0]) + TotalLoad(ns, inbox[1..])
  }

  lemma {:induction false} LoadAppend(ns: seq<Node>, a: seq<Envelope>, b: seq<Envelope>)
    ensures Load(ns, a + b) == Load(ns, a) + Load(ns, b)
  {
    if a == [] {
      assert a + b == b;
    } else {
      assert (a + b)[1..] == a[1..] + b;
      LoadAppend(ns, a[1..], b);
    }
  }

  lemma LoadTakenOut(ns: seq<Node>, es: seq<Envelope>, k: nat)
    requires k < |es|
    ensures Load(ns, es[..k] + es[k + 1..]) == Load(ns, es) - Weight(ns, es[k])
  {
    assert es == es[..k] + ([es[k]] + es[k + 1..]);
    LoadAppend(ns, es[..k], [es[k]] + es[k + 1..]);
    LoadAppend(ns, es[..k], es[k + 1..]);
    assert ([es[k]] + es[k + 1..])[1..] == es[k + 1..];
  }

  lemma {:induction false} TotalLoadUpdate(ns: seq<Node>, inbox: seq<seq<Envelope>>, i: nat, es: seq<Envelope>)
    requires i < |inbox|
    ensures TotalLoad(ns, inbox[i := es]) == TotalLoad(ns, inbox) - Load(ns, inbox[i]) + Load(ns, es)
  {
    if i == 0 {
      assert inbox[0 := es][1..] == inbox[1..];
    } else {
      assert inbox[i := es][1..] == inbox[1..][i - 1 := es];
      TotalLoadUpdate(ns, inbox[1..], i - 1, es);
    }
  }

  lemma Distribute(n: nat, x: nat)
    ensures (n + 1) * x == n * x + x
  {
  }

  lemma {:induction false} TotalLoadBounded(ns: seq<Node>, inbox: seq<seq<Envelope>>, inbox': seq<seq<Envelope>>,
                                            es: seq<Envelope>)
    requires |inbox'| == |inbox|
    requires forall j :: 0 <= j < |inbox| ==> inbox'[j] == inbox[j] || inbox'[j] == inbox[j] + es
    ensures TotalLoad(ns, inbox') <= TotalLoad(ns, inbox) + |inbox| * Load(ns, es)
  {
    if inbox != [] {
      var rest, rest' := inbox[1..], inbox'[1..];
      assert forall j :: 0 <= j < |rest| ==> rest[j] == inbox[j + 1] && rest'[j] == inbox'[j + 1];
      TotalLoadBounded(ns, rest, rest', es);
      LoadAppend(ns, inbox[0], es);
      Distribute(|rest|, Load(ns, es));
    }
  }

  // Weights depend on NAMEs only.
  lemma {:induction false} LoadDependsOnNames(ns: seq<Node>, ns': seq<Node>, inbox: seq<seq<Envelope>>)
    requires |ns| == |ns'| && forall i :: 0 <= i < |ns| ==> ns[i].name == ns'[i].name
    ensures TotalLoad(ns, inbox) == TotalLoad(ns', inbox)
  {
    if inbox != [] {
      LoadDependsOnNames(ns, ns', inbox[1..]);
      BoxLoadDependsOnNames(ns, ns', inbox[0]);
    }
  }

  lemma {:induction false} BoxLoadDependsOnNames(ns: seq<Node>, ns': seq<Node>, es: seq<Envelope>)
    requires |ns| == |ns'| && forall i :: 0 <= i < |ns| ==> ns[i].name == ns'[i].name
    ensures Load(ns, es) == Load(ns', es)
  {
    if es != [] {
      assert Better(ns, es[0].name) == Better(ns', es[0].name);
      BoxLoadDependsOnNames(ns, ns', es[1..]);
    }
  }

  // ----- every delivery makes progress

  ghost predicate Smaller(a: Net, b: Net) {
    || TotalBudget(a.nodes) < TotalBudget(b.nodes)
    || (TotalBudget(a.nodes) == TotalBudget(b.nodes) && TotalLoad(a.nodes, a.inbox) < TotalLoad(b.nodes, b.inbox))
  }

  // MAIN RESULT. Delivering any waiting claim strictly decreases what contention remains.
  lemma DeliveryMakesProgress(net: Net, i: nat, k: nat)
    requires WellFormed(net) && Enabled(net, Deliver(i, k))
    ensures Smaller(Delivered(net, i, k), net)
  {
    var e := net.inbox[i][k];
    var n := net.nodes[i];
    var s := HandleClaim(n, e.address, e.name);
    var net' := Delivered(net, i, k);
    ClaimCosts(n, e.address, e.name);
    ClaimFacts(n, e.address, e.name);
    TotalBudgetUpdate(net.nodes, i, s.node);
    if Budget(s.node) == Budget(n) {
      LoadDependsOnNames(net.nodes, net'.nodes, net'.inbox);
      DeliveryLightens(net.nodes, net.inbox, i, k, Claims(s.sent), net'.inbox);
    }
  }

  // Taking one claim out of a box, and posting at most one claim of node `i`'s own better NAME to each.
  lemma DeliveryLightens(ns: seq<Node>, inbox: seq<seq<Envelope>>, i: nat, k: nat, es: seq<Envelope>,
                         inbox': seq<seq<Envelope>>)
    requires i < |ns| == |inbox| == |inbox'| && k < |inbox[i]|
    requires es == [] || (|es| == 1 && es[0].name == ns[i].name < inbox[i][k].name)
    requires var rest := inbox[i := inbox[i][..k] + inbox[i][k + 1..]];
             forall j :: 0 <= j < |rest| ==> inbox'[j] == rest[j] || inbox'[j] == rest[j] + es
    ensures TotalLoad(ns, inbox') < TotalLoad(ns, inbox)
  {
    var e := inbox[i][k];
    var box := inbox[i][..k] + inbox[i][k + 1..];
    LoadTakenOut(ns, inbox[i], k);
    TotalLoadUpdate(ns, inbox, i, box);
    TotalLoadBounded(ns, inbox[i := box], inbox', es);
    PowPositive(|ns| + 1, |Better(ns, e.name)|);
    if es != [] {
      BetterIsMonotone(ns, i, e.name);
      PowGrows(|ns| + 1, |Better(ns, ns[i].name)|, |Better(ns, e.name)|);
      assert es[1..] == [] && Load(ns, es) == Weight(ns, es[0]);
      Distribute(|ns|, Load(ns, es));
    }
  }

  ghost predicate Quiet(net: Net) {
    forall j :: 0 <= j < |net.inbox| ==> net.inbox[j] == []
  }

  /** The result of delivering waiting claims in the order `ds`, a list of (node, position) pairs. */
  ghost predicate Reaches(net: Net, ds: seq<(nat, nat)>, net': Net)
    decreases |ds|
  {
    if ds == [] then net' == net
    else Enabled(net, Deliver(ds[0].0, ds[0].1)) && Reaches(Next(net, Deliver(ds[0].0, ds[0].1)), ds[1..], net')
  }

  /** No order of deliveries is longer than `n`. */
  ghost predicate EndsWithin(net: Net, n: nat) {
    forall ds, net' :: Reaches(net, ds, net') ==> |ds| <= n
  }

  // MAIN RESULT. In whatever order the waiting claims are delivered, answers and fresh claims included, the
  // deliveries come to an end, and there is a bound that holds for all orders.
  lemma {:induction false} AnyOrderEnds(net: Net)
    requires Inv(net, None)
    ensures exists n :: EndsWithin(net, n)
    decreases TotalBudget(net.nodes), TotalLoad(net.nodes, net.inbox), 1
  {
    var n := LongestFrom(net, |net.inbox|);
    forall ds, net' | Reaches(net, ds, net')
      ensures |ds| <= n + 1
    {
      if ds != [] {
        var (i, k) := ds[0];
        assert EndsWithin(Delivered(net, i, k), n) && Reaches(Delivered(net, i, k), ds[1..], net');
      }
    }
    assert EndsWithin(net, n + 1);
  }

  // A bound for every order that starts at one of the first `boxes` nodes.
  lemma {:induction false} LongestFrom(net: Net, boxes: nat) returns (n: nat)
    requires Inv(net, None) && boxes <= |net.inbox|
    ensures forall i, k :: 0 <= i < boxes && 0 <= k < |net.inbox[i]| ==> EndsWithin(Delivered(net, i, k), n)
    decreases TotalBudget(net.nodes), TotalLoad(net.nodes, net.inbox), 0
  {
    n := 0;
    for i := 0 to boxes
      invariant forall j, k :: 0 <= j < i && 0 <= k < |net.inbox[j]| ==> EndsWithin(Delivered(net, j, k), n)
    {
      for k := 0 to |net.inbox[i]|
        invariant forall j, h :: 0 <= j < i && 0 <= h < |net.inbox[j]| ==> EndsWithin(Delivered(net, j, h), n)
        invariant forall h :: 0 <= h < k ==> EndsWithin(Delivered(net, i, h), n)
      {
        DeliveryMakesProgress(net, i, k);
        DeliverKeepsInv(net, i, k, None);
        AnyOrderEnds(Delivered(net, i, k));
        var m: nat :| EndsWithin(Delivered(net, i, k), m);
        n := if m > n then m else n;
      }
    }
  }

  lemma {:induction false} ReachesKeepsInv(net: Net, ds: seq<(nat, nat)>, net': Net)
    requires Inv(net, None) && Reaches(net, ds, net')
    ensures Inv(net', None)
    decreases |ds|
  {
    if ds != [] {
      DeliverKeepsInv(net, ds[0].0, ds[0].1, None);
      ReachesKeepsInv(Delivered(net, ds[0].0, ds[0].1), ds[1..], net');
    }
  }

  // MAIN RESULT. And every order that cannot be continued ends with nothing under way and each address owned at
  // most once.
  lemma ContentionSettles(net: Net, ds: seq<(nat, nat)>, net': Net)
    requires Inv(net, None) && Reaches(net, ds, net')
    requires forall i, k :: !Enabled(net', Deliver(i, k))
    ensures Quiet(net') && forall i, j :: 0 <= i < |net'.nodes| && 0 <= j < |net'.nodes| ==> !BothOwn(net', i, j)
  {
    ReachesKeepsInv(net, ds, net');
    forall j | 0 <= j < |net'.inbox|
      ensures net'.inbox[j] == []
    {
      assert !Enabled(net', Deliver(j, 0));
    }
    QuietOwnersUnique(net');
  }

  // Such an order exists.
  lemma {:induction false} QuietIsReached(net: Net) returns (ds: seq<(nat, nat)>, net': Net)
    requires Inv(net, None)
    ensures Reaches(net, ds, net') && Quiet(net')
    decreases TotalBudget(net.nodes), TotalLoad(net.nodes, net.inbox)
  {
    if Quiet(net) {
      ds, net' := [], net;
    } else {
      var j :| 0 <= j < |net.inbox| && net.inbox[j] != [];
      DeliveryMakesProgress(net, j, 0);
      DeliverKeepsInv(net, j, 0, None);
      var rest;
      rest, net' := QuietIsReached(Delivered(net, j, 0));
      ds := [(j, 0)] + rest;
      assert ds[1..] == rest;
    }
  }

  lemma QuietOwnersUnique(net: Net)
    requires Inv(net, None) && Quiet(net)
    ensures forall i, j :: 0 <= i < |net.nodes| && 0 <= j < |net.nodes| ==> !BothOwn(net, i, j)
  {
    forall i, j | 0 <= i < |net.nodes| && 0 <= j < |net.nodes|
      ensures !BothOwn(net, i, j)
    {
      if BothOwn(net, i, j) {
        assert false;
      }
    }
  }
}
