/** The fixed-capacity packed slot table: removal moves the last item into the hole. */
module FixedSlotTables {
  import opened Can
  import opened Seqs

  class FixedSlots<T> {
    const N: nat
    const buf: array<Option<T>>
    var len: nat

    /** Packed: the first `len` cells are filled and all others are empty. */
    ghost predicate Valid()
      reads this, buf
    {
      && buf.Length == N && len <= N
      && (forall i :: 0 <= i < len ==> buf[i].Some?)
      && (forall i :: len <= i < N ==> buf[i].None?)
    }

    ghost function Contents(): (s: seq<T>)
      requires Valid()
      reads this, buf
      ensures |s| == len
    {
      seq(len, i requires 0 <= i < len && Valid() reads this, buf => buf[i].value)
    }

    constructor (capacity: nat)
      ensures Valid() && fresh(buf) && N == capacity && Contents() == []
    {
      N := capacity;
      buf := new Option<T>[capacity](_ => None);
      len := 0;
    }

    method Push(item: T) returns (r: PushResult<T>)
      requires Valid()
      modifies this, buf
      ensures Valid()
      ensures |old(Contents())| == N ==> r == Full(item) && Contents() == old(Contents())
      ensures |old(Contents())| < N ==> r == Pushed && Contents() == old(Contents()) + [item]
    {
      if len == N {
        return Full(item);
      }
      buf[len] := Some(item);
      len := len + 1;
      r := Pushed;
    }

    method SwapRemove(idx: nat) returns (r: Option<T>)
      requires Valid()
      modifies this, buf
      ensures Valid()
      ensures idx >= |old(Contents())| ==> r == None && Contents() == old(Contents())
      ensures idx < |old(Contents())| ==>
                r == Some(old(Contents())[idx]) && Contents() == Seqs.SwapRemove(old(Contents()), idx)
    {
      if idx >= len {
        return None;
      }
      var last := len - 1;
      r := buf[idx];
      buf[idx] := None;
      if idx != last {
        buf[idx] := buf[last];
        buf[last] := None;
      }
      len := len - 1;
    }

    /**
     Drop what `keep` rejects. `asked` lists the items `keep` saw, in order: it is a rearrangement of the
     original contents, so every item is asked about exactly once, and exactly the kept ones remain.
     */
    method Retain(keep: T -> bool) returns (ghost asked: seq<T>)
      requires Valid()
      modifies this, buf
      ensures Valid()
      ensures multiset(asked) == multiset(old(Contents()))
      ensures Contents() == Filter(asked, keep)
    {
      asked := [];
      var idx := 0;
      ghost var all := Contents();
      assert all[0..] == all;
      while idx < len
        invariant 0 <= idx <= len && Valid()
        invariant Sifted(all, asked, Contents(), idx, keep)
        decreases len - idx
      {
        ghost var now := Contents();
        SiftStep(all, asked, now, idx, keep);
        asked := asked + [now[idx]];
        var drop := !keep(buf[idx].value);
        if drop {
          var _ := this.SwapRemove(idx);
        } else {
          idx := idx + 1;
        }
      }
      SiftDone(all, asked, Contents(), keep);
    }

    /** The first `idx` items have been kept, `asked` have been looked at, the rest are still to come. */
    static ghost predicate Sifted(all: seq<T>, asked: seq<T>, now: seq<T>, idx: nat, keep: T -> bool)
      requires idx <= |now|
    {
      now[..idx] == Filter(asked, keep) && multiset(asked) + multiset(now[idx..]) == multiset(all)
    }

    static lemma SiftStep(all: seq<T>, asked: seq<T>, now: seq<T>, idx: nat, keep: T -> bool)
      requires idx < |now| && Sifted(all, asked, now, idx, keep)
      ensures keep(now[idx]) ==> Sifted(all, asked + [now[idx]], now, idx + 1, keep)
      ensures !keep(now[idx]) ==> Sifted(all, asked + [now[idx]], Seqs.SwapRemove(now, idx), idx, keep)
    {
      FilterAppend(asked, [now[idx]], keep);
      assert now[idx..] == [now[idx]] + now[idx + 1..];
      assert now[..idx + 1] == now[..idx] + [now[idx]];
      DropStep(now, idx);
    }

    static lemma SiftDone(all: seq<T>, asked: seq<T>, now: seq<T>, keep: T -> bool)
      requires Sifted(all, asked, now, |now|, keep)
      ensures multiset(asked) == multiset(all) && now == Filter(asked, keep)
    {
      assert now[..|now|] == now && now[|now|..] == [];
    }

    static lemma DropStep(s: seq<T>, idx: nat)
      requires idx < |s|
      ensures var r := Seqs.SwapRemove(s, idx);
              r[..idx] == s[..idx] && multiset(r[idx..]) + multiset{s[idx]} == multiset(s[idx..])
    {
      var r := Seqs.SwapRemove(s, idx);
      var n := |s| - 1;
      if idx == n {
        assert s[idx..] == [s[idx]] && r[idx..] == [];
      } else {
        assert r[idx..] == [s[n]] + s[idx + 1..n];
        assert s[idx..] == [s[idx]] + (s[idx + 1..n] + [s[n]]);
      }
    }

    method Clear()
      requires Valid()
      modifies this, buf
      ensures Valid() && Contents() == []
    {
      while len > 0
        invariant Valid()
      {
        var _ := this.SwapRemove(len - 1);
      }
    }
  }

  // ----- derived equality

  ghost predicate RawEqual<T>(p: FixedSlots<T>, q: FixedSlots<T>)
    reads p, p.buf, q, q.buf
  {
    p.buf[..] == q.buf[..] && p.len == q.len
  }

  // MAIN RESULT. Because every vacated cell is emptied, comparing raw storage is comparing contents.
  lemma RawEqualIff<T>(p: FixedSlots<T>, q: FixedSlots<T>)
    requires p.Valid() && q.Valid() && p.N == q.N
    ensures RawEqual(p, q) <==> p.Contents() == q.Contents()
  {
    if p.Contents() == q.Contents() {
      assert |p.Contents()| == |q.Contents()|;
      forall c | 0 <= c < p.N
        ensures p.buf[c] == q.buf[c]
      {
        if c < p.len {
          assert p.Contents()[c] == q.Contents()[c];
        }
      }
    }
  }
}
