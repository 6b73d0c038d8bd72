/** The fixed-capacity ring queue: a bounded FIFO sequence kept in an inline array of optional cells. */
module FixedQueues {
  import opened Can
  import opened Seqs

  /** The cell that holds logical position `i` of a ring of `n` cells starting at `head`. */
  function Cell(head: nat, i: nat, n: nat): int {
    if head + i < n then head + i else head + i - n
  }

  // The remainder the code computes is that cell.
  lemma RemainderIsCell(head: nat, i: nat, n: nat)
    requires head < n && i <= n
    ensures (head + i) % n == Cell(head, i, n)
  {
    var x := head + i;
    var q := x / n;
    assert x == n * q + x % n;
    if q >= 2 {
      assert n * q >= n * 2 by { MulMonotone(n, 2, q); }
    }
  }

  lemma MulMonotone(n: nat, a: nat, b: nat)
    requires a <= b
    ensures n * a <= n * b
  {
    assert n * b == n * a + n * (b - a);
  }

  class FixedQueue<T> {
    const N: nat
    const buf: array<Option<T>>
    var head: nat
    var len: nat

    /** Exactly the `len` cells from `head` on are filled, and an empty queue starts at cell 0. */
    ghost predicate Valid()
      reads this, buf
    {
      && buf.Length == N && len <= N
      && (if N == 0 then head == 0 else head < N)
      && (len == 0 ==> head == 0)
      && (forall i :: 0 <= i < len ==> buf[Cell(head, i, N)].Some?)
      && (forall i :: len <= i < N ==> buf[Cell(head, i, N)].None?)
    }

    ghost function Contents(): (s: seq<T>)
      requires Valid()
      reads this, buf
      ensures |s| == len
    {
      seq(len, i requires 0 <= i < len && Valid() reads this, buf => buf[Cell(head, i, N)].value)
    }

    constructor (capacity: nat)
      ensures Valid() && fresh(buf) && N == capacity && Contents() == []
    {
      N := capacity;
      buf := new Option<T>[capacity](_ => None);
      head, len := 0, 0;
    }

    method PushBack(item: T) returns (r: PushResult<T>)
      requires Valid()
      modifies this, buf
      ensures Valid()
      ensures |old(Contents())| == N ==> r == Full(item) && Contents() == old(Contents())
      ensures |old(Contents())| < N ==> r == Pushed && Contents() == old(Contents()) + [item]
      ensures head == old(head)
    {
      if len == N {
        return Full(item);
      }
      RemainderIsCell(head, len, N);
      var idx := (head + len) % N;
      buf[idx] := Some(item);
      len := len + 1;
      r := Pushed;
    }

    method PopFront() returns (r: Option<T>)
      requires Valid()
      modifies this, buf
      ensures Valid()
      ensures old(Contents()) == [] ==> r == None && Contents() == []
      ensures old(Contents()) != [] ==> r == Some(old(Contents())[0]) && Contents() == old(Contents())[1..]
      ensures head == if Contents() == [] then 0 else Cell(old(head), 1, N)
    {
      if len == 0 {
        return None;
      }
      r := buf[head];
      buf[head] := None;
      RemainderIsCell(head, 1, N);
      ghost var start := head;
      head := (head + 1) % N;
      len := len - 1;
      assert forall i :: 0 <= i < N - 1 ==> Cell(head, i, N) == Cell(start, i + 1, N);
      assert Cell(head, N - 1, N) == start;
      if len == 0 {
        ghost var drained := head;
        forall c | 0 <= c < N
          ensures buf[c].None?
        {
          assert c == Cell(drained, Cell(c, N - drained, N), N);
        }
        head := 0;
      }
    }

    method Front() returns (r: Option<T>)
      requires Valid()
      ensures r == if Contents() == [] then None else Some(Contents()[0])
    {
      if len > 0 {
        assert head == Cell(head, 0, N);
        return buf[head];
      }
      r := None;
    }

    /** Take the front item off and put it back at the end if it is kept: there is always room for it. */
    method RotateOne(keep: T -> bool) returns (ghost asked: T)
      requires Valid() && Contents() != []
      modifies this, buf
      ensures Valid()
      ensures asked == old(Contents())[0]
      ensures Contents() == old(Contents())[1..] + (if keep(asked) then [asked] else [])
    {
      var item := PopFront();
      asked := item.value;
      if keep(item.value) {
        var pushed := PushBack(item.value);
        assert pushed == Pushed;
      }
    }

    /** Rotate once through the queue, putting back what is kept; `asked` lists the items `keep` saw. */
    method Retain(keep: T -> bool) returns (ghost asked: seq<T>)
      requires Valid()
      modifies this, buf
      ensures Valid()
      ensures Contents() == Filter(old(Contents()), keep)
      ensures asked == old(Contents())
    {
      ghost var all := Contents();
      asked := [];
      var rounds := len;
      var k := 0;
      while k < rounds
        invariant 0 <= k <= rounds == |all|
        invariant Valid()
        invariant asked == all[..k]
        invariant Contents() == all[k..] + Filter(all[..k], keep)
      {
        RotationStep(all, k, keep);
        ghost var item := RotateOne(keep);
        asked := asked + [item];
        k := k + 1;
      }
      assert all[..k] == all && all[k..] == [];
    }

    static lemma RotationStep(all: seq<T>, k: nat, keep: T -> bool)
      requires k < |all|
      ensures var now := all[k..] + Filter(all[..k], keep);
              && now[0] == all[k] && all[..k] + [all[k]] == all[..k + 1]
              && now[1..] + (if keep(all[k]) then [all[k]] else []) == all[k + 1..] + Filter(all[..k + 1], keep)
    {
      assert all[..k + 1] == all[..k] + [all[k]];
      FilterAppend(all[..k], [all[k]], keep);
      assert Filter([all[k]], keep) == if keep(all[k]) then [all[k]] else [];
    }

    method Clear()
      requires Valid()
      modifies this, buf
      ensures Valid() && Contents() == []
    {
      var more := true;
      while more
        invariant Valid()
        invariant !more ==> Contents() == []
        decreases |Contents()|, more
      {
        var item := PopFront();
        more := item.Some?;
      }
    }
  }

  // ----- every run

  datatype Op<!T> = Push(item: T) | Pop | Keep(keep: T -> bool) | Wipe

  datatype Answer<+T> = PushAnswer(result: PushResult<T>) | PopAnswer(item: Option<T>) | Done

  /** The bounded FIFO the ring stands for. */
  function Fifo<T>(s: seq<T>, capacity: nat, op: Op<T>): (seq<T>, Answer<T>) {
    match op
    case Push(x) => if |s| < capacity then (s + [x], PushAnswer(Pushed)) else (s, PushAnswer(Full(x)))
    case Pop => if s == [] then (s, PopAnswer(None)) else (s[1..], PopAnswer(Some(s[0])))
    case Keep(keep) => (Filter(s, keep), Done)
    case Wipe => ([], Done)
  }

  function FifoRun<T>(s: seq<T>, capacity: nat, ops: seq<Op<T>>): (seq<T>, seq<Answer<T>>) {
    if ops == [] then (s, [])
    else
      var (before, answers) := FifoRun(s, capacity, ops[..|ops| - 1]);
      var (after, answer) := Fifo(before, capacity, ops[|ops| - 1]);
      (after, answers + [answer])
  }

  // MAIN RESULT. Any sequence of operations on the ring, from any state, gives the same answers and
  // leaves the same contents as on the bounded FIFO sequence.
  method Drive<T>(q: FixedQueue<T>, ops: seq<Op<T>>) returns (answers: seq<Answer<T>>)
    requires q.Valid()
    modifies q, q.buf
    ensures q.Valid()
    ensures q.Contents() == FifoRun(old(q.Contents()), q.N, ops).0
    ensures answers == FifoRun(old(q.Contents()), q.N, ops).1
  {
    answers := [];
    for k := 0 to |ops|
      invariant q.Valid()
      invariant q.Contents() == FifoRun(old(q.Contents()), q.N, ops[..k]).0
      invariant answers == FifoRun(old(q.Contents()), q.N, ops[..k]).1
    {
      assert ops[..k + 1][..k] == ops[..k];
      match ops[k] {
        case Push(x) =>
          var r := q.PushBack(x);
          answers := answers + [PushAnswer(r)];
        case Pop =>
          var r := q.PopFront();
          answers := answers + [PopAnswer(r)];
        case Keep(keep) =>
          var _ := q.Retain(keep);
          answers := answers + [Done];
        case Wipe =>
          q.Clear();
          answers := answers + [Done];
      }
    }
    assert ops[..|ops|] == ops;
  }

  // ----- derived equality

  /** `#[derive(PartialEq)]`: the raw cells, the start index and the length. */
  ghost predicate RawEqual<T>(p: FixedQueue<T>, q: FixedQueue<T>)
    reads p, p.buf, q, q.buf
  {
    p.buf[..] == q.buf[..] && p.head == q.head && p.len == q.len
  }

  // MAIN RESULT. The derived equality is finer than equality of contents by exactly the start index.
  lemma RawEqualIff<T>(p: FixedQueue<T>, q: FixedQueue<T>)
    requires p.Valid() && q.Valid() && p.N == q.N
    ensures RawEqual(p, q) <==> p.Contents() == q.Contents() && p.head == q.head
  {
    if p.Contents() == q.Contents() && p.head == q.head {
      var n, h := p.N, p.head;
      forall c | 0 <= c < n
        ensures p.buf[c] == q.buf[c]
      {
        var i := if h <= c then c - h else c + n - h;
        assert c == Cell(h, i, n);
        if i < p.len {
          assert p.Contents()[i] == q.Contents()[i];
        }
      }
    }
  }

  // The start index does differ in practice: push 7 onto one queue; push 5 and 7 onto another and pop.
  method SameContentsUnequal() returns (p: FixedQueue<int>, q: FixedQueue<int>)
    ensures p.Valid() && q.Valid() && p.N == q.N == 2
    ensures p.Contents() == q.Contents() == [7] && !RawEqual(p, q)
  {
    p := new FixedQueue<int>(2);
    var _ := p.PushBack(7);
    q := Moved();
    RawEqualIff(p, q);
  }

  method Moved() returns (q: FixedQueue<int>)
    ensures q.Valid() && fresh(q) && fresh(q.buf) && q.N == 2 && q.Contents() == [7] && q.head == 1
  {
    q := new FixedQueue<int>(2);
    var _ := q.PushBack(5);
    var _ := q.PushBack(7);
    var _ := q.PopFront();
  }
}
