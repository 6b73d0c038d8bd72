/** The standalone NMEA decoder's result queue: one queue shared by five kinds of result, polled by kind. */
module NmeaQueues {
  import opened Can
  import opened Seqs

  /** The bit pattern of an f64; the queue never looks inside. */
  type F64 = nat

  datatype Gnss = Gnss(latitude: F64, longitude: F64, altitude: F64, speed: F64, heading: F64)

  datatype Item = Position(p: Gnss) | Cog(v: F64) | Sog(v: F64) | Heading(v: F64) | MagneticVariation(v: F64)

  datatype Kind = PositionKind | CogKind | SogKind | HeadingKind | VariationKind

  function KindOf(it: Item): Kind {
    match it
    case Position(_) => PositionKind
    case Cog(_) => CogKind
    case Sog(_) => SogKind
    case Heading(_) => HeadingKind
    case MagneticVariation(_) => VariationKind
  }

  function IsA(kind: Kind): Item -> bool {
    (it: Item) => KindOf(it) == kind
  }

  function IsNotA(kind: Kind): Item -> bool {
    (it: Item) => KindOf(it) != kind
  }

  /** The items of one kind, oldest first: the queue that kind's poller sees. */
  function Lane(q: seq<Item>, kind: Kind): seq<Item> {
    Filter(q, IsA(kind))
  }

  function Others(q: seq<Item>, kind: Kind): seq<Item> {
    Filter(q, IsNotA(kind))
  }

  class Nmea {
    var queue: seq<Item>

    constructor ()
      ensures queue == []
    {
      queue := [];
    }

    /** A fed message decodes to any number of results; each is pushed as its callback fires. */
    method Feed(decoded: seq<Item>)
      modifies this
      ensures queue == old(queue) + decoded
    {
      for k := 0 to |decoded|
        invariant queue == old(queue) + decoded[..k]
      {
        queue := queue + [decoded[k]];
      }
    }

    /** Take the oldest item of `kind` out of the middle of the queue. */
    method Pop(kind: Kind) returns (r: Option<Item>)
      modifies this
      ensures Lane(old(queue), kind) == [] ==> r == None && queue == old(queue)
      ensures Lane(old(queue), kind) != [] ==>
                r == Some(Lane(old(queue), kind)[0]) && Lane(queue, kind) == Lane(old(queue), kind)[1..]
      ensures Others(queue, kind) == Others(old(queue), kind)
    {
      var idx := 0;
      while idx < |queue| && KindOf(queue[idx]) != kind
        invariant 0 <= idx <= |queue|
        invariant queue == old(queue)
        invariant forall j :: 0 <= j < idx ==> KindOf(queue[j]) != kind
      {
        idx := idx + 1;
      }
      if idx == |queue| {
        NothingPasses(queue, IsA(kind));
        return None;
      }
      r := Some(queue[idx]);
      RemovalFacts(queue, idx, kind);
      queue := queue[..idx] + queue[idx + 1..];
    }
  }

  lemma RemovalFacts(q: seq<Item>, idx: nat, kind: Kind)
    requires idx < |q| && KindOf(q[idx]) == kind
    requires forall j :: 0 <= j < idx ==> KindOf(q[j]) != kind
    ensures var r := q[..idx] + q[idx + 1..];
            Lane(q, kind) == [q[idx]] + Lane(r, kind) && Others(q, kind) == Others(r, kind)
  {
    var a, x, b := q[..idx], q[idx], q[idx + 1..];
    assert q == a + ([x] + b);
    FirstTaken(a, x, b, IsA(kind));
    OtherTaken(a, x, b, IsNotA(kind));
  }

  // ----- every run

  datatype Op = FeedOp(decoded: seq<Item>) | PollOp(kind: Kind)

  /** Everything of `kind` ever pushed by `ops`. */
  function FedIn(ops: seq<Op>, kind: Kind): seq<Item> {
    if ops == [] then []
    else FedIn(ops[..|ops| - 1], kind)
         + (if ops[|ops| - 1].FeedOp? then Lane(ops[|ops| - 1].decoded, kind) else [])
  }

  /** The answers `kind`'s pollers have had, empty polls left out. */
  function Delivered(answers: seq<Item>, kind: Kind): seq<Item> {
    Lane(answers, kind)
  }

  // MAIN RESULT. Whatever the mix of feeds and polls, each kind behaves as a FIFO of its own: what its
  // pollers received, followed by what is still queued for them, is everything of that kind ever pushed.
  method Drive(n: Nmea, ops: seq<Op>) returns (answers: seq<Item>)
    modifies n
    ensures forall kind: Kind ::
              Delivered(answers, kind) + Lane(n.queue, kind) == Lane(old(n.queue), kind) + FedIn(ops, kind)
  {
    answers := [];
    for k := 0 to |ops|
      invariant forall kind: Kind ::
                  Delivered(answers, kind) + Lane(n.queue, kind) == Lane(old(n.queue), kind) + FedIn(ops[..k], kind)
    {
      ghost var q, a := n.queue, answers;
      assert ops[..k + 1][..k] == ops[..k];
      match ops[k] {
        case FeedOp(decoded) => n.Feed(decoded);
        case PollOp(kind) =>
          var r := n.Pop(kind);
          if r.Some? {
            answers := answers + [r.value];
          }
      }
      forall kind: Kind
        ensures Delivered(answers, kind) + Lane(n.queue, kind) == Lane(old(n.queue), kind) + FedIn(ops[..k + 1], kind)
      {
        StepKeepsLane(q, a, n.queue, answers, ops[k], kind);
        assert FedIn(ops[..k + 1], kind)
            == FedIn(ops[..k], kind) + (if ops[k].FeedOp? then Lane(ops[k].decoded, kind) else []);
      }
    }
    assert ops[..|ops|] == ops;
  }

  /** One operation, as its contract describes it. */
  ghost predicate Stepped(q: seq<Item>, a: seq<Item>, q': seq<Item>, a': seq<Item>, op: Op) {
    match op
    case FeedOp(decoded) => q' == q + decoded && a' == a
    case PollOp(kind) =>
      && Others(q', kind) == Others(q, kind)
      && (if Lane(q, kind) == [] then q' == q && a' == a
          else a' == a + [Lane(q, kind)[0]] && Lane(q', kind) == Lane(q, kind)[1..])
  }

  lemma StepKeepsLane(q: seq<Item>, a: seq<Item>, q': seq<Item>, a': seq<Item>, op: Op, kind: Kind)
    requires Stepped(q, a, q', a', op)
    ensures Delivered(a', kind) + Lane(q', kind)
            == Delivered(a, kind) + Lane(q, kind) + (if op.FeedOp? then Lane(op.decoded, kind) else [])
  {
    var p := IsA(kind);
    match op {
      case FeedOp(decoded) => FilterAppend(q, decoded, p);
      case PollOp(polled) =>
        if Lane(q, polled) != [] {
          PollKeepsLane(q, a, q', polled, kind);
        }
    }
  }

  lemma PollKeepsLane(q: seq<Item>, a: seq<Item>, q': seq<Item>, polled: Kind, kind: Kind)
    requires Lane(q, polled) != [] && Lane(q', polled) == Lane(q, polled)[1..]
             && Others(q', polled) == Others(q, polled)
    ensures Lane(a + [Lane(q, polled)[0]], kind) + Lane(q', kind) == Lane(a, kind) + Lane(q, kind)
  {
    var head := Lane(q, polled)[0];
    assert head in Lane(q, polled) && IsA(polled)(head);
    if polled == kind {
      MovesAcross(a, head, Lane(q', kind), IsA(kind));
      assert Lane(q, kind) == [head] + Lane(q, kind)[1..];
    } else {
      FilterAppend(a, [head], IsA(kind));
      NothingPasses([head], IsA(kind));
      assert Lane(a, kind) + [] == Lane(a, kind);
      LaneOfOthers(q, kind, polled);
      LaneOfOthers(q', kind, polled);
    }
  }

  // A lane can be read off after the items of another kind have been taken away.
  lemma {:induction false} LaneOfOthers(q: seq<Item>, kind: Kind, polled: Kind)
    requires kind != polled
    ensures Lane(q, kind) == Lane(Others(q, polled), kind)
  {
    if q != [] {
      LaneOfOthers(q[1..], kind, polled);
      assert q == [q[0]] + q[1..];
      if KindOf(q[0]) != polled {
        assert Others(q, polled)[1..] == Others(q[1..], polled);
      }
    }
  }
}
