/** The fixed-capacity byte buffer: a bounded byte sequence in front of stale or zero storage. */
module FixedByteBuffers {
  import opened Can

  datatype Outcome = Done | CapacityError(capacity: nat, requested: nat)

  class FixedBytes {
    const N: nat
    const data: array<byte>
    var len: nat

    ghost predicate Valid()
      reads this
    {
      data.Length == N && len <= N
    }

    ghost function Contents(): (s: seq<byte>)
      requires Valid()
      reads this, data
    {
      data[..len]
    }

    /** No byte behind the visible part has been left over by a shrink. */
    ghost predicate TailZero()
      requires Valid()
      reads this, data
    {
      forall i :: len <= i < N ==> data[i] == 0
    }

    constructor (capacity: nat)
      ensures Valid() && fresh(data) && N == capacity && Contents() == [] && TailZero()
    {
      N := capacity;
      data := new byte[capacity](_ => 0);
      len := 0;
    }

    method Push(b: byte) returns (r: Outcome)
      requires Valid()
      modifies this, data
      ensures Valid()
      ensures |old(Contents())| == N ==> r == CapacityError(N, N + 1) && data[..] == old(data[..]) && len == old(len)
      ensures |old(Contents())| < N ==> r == Done && Contents() == old(Contents()) + [b]
      ensures old(TailZero()) ==> TailZero()
    {
      if len == N {
        return CapacityError(N, len + 1);
      }
      data[len] := b;
      len := len + 1;
      r := Done;
    }

    method ExtendFromSlice(bytes: seq<byte>) returns (r: Outcome)
      requires Valid()
      modifies this, data
      ensures Valid()
      ensures |old(Contents())| + |bytes| > N ==>
                r == CapacityError(N, |old(Contents())| + |bytes|) && data[..] == old(data[..]) && len == old(len)
      ensures |old(Contents())| + |bytes| <= N ==> r == Done && Contents() == old(Contents()) + bytes
      ensures old(TailZero()) ==> TailZero()
    {
      var requested := len + |bytes|;
      if requested > N {
        return CapacityError(N, requested);
      }
      for k := 0 to |bytes|
        invariant len == old(len)
        invariant forall i :: 0 <= i < N ==> data[i] == if len <= i < len + k then bytes[i - len] else old(data[i])
      {
        data[len + k] := bytes[k];
      }
      len := requested;
      r := Done;
      assert Contents() == old(Contents()) + bytes;
    }

    /** Growing fills with `value`; shrinking only moves the end, so the cut-off bytes stay in storage. */
    method Resize(newLen: nat, value: byte) returns (r: Outcome)
      requires Valid()
      modifies this, data
      ensures Valid()
      ensures newLen > N ==> r == CapacityError(N, newLen) && data[..] == old(data[..]) && len == old(len)
      ensures |old(Contents())| <= newLen <= N ==>
                r == Done && Contents() == old(Contents()) + seq(newLen - |old(Contents())|, _ => value)
      ensures newLen < |old(Contents())| ==>
                r == Done && Contents() == old(Contents())[..newLen] && data[..] == old(data[..])
      ensures old(TailZero()) && (newLen > N || |old(Contents())| <= newLen) ==> TailZero()
    {
      if newLen > N {
        return CapacityError(N, newLen);
      }
      var i := len;
      while i < newLen
        invariant old(len) <= i && (i <= newLen || i == old(len))
        invariant len == old(len)
        invariant forall k :: 0 <= k < N ==> data[k] == if len <= k < i then value else old(data[k])
      {
        data[i] := value;
        i := i + 1;
      }
      len := newLen;
      r := Done;
      if old(len) <= newLen {
        assert Contents() == old(Contents()) + seq(newLen - |old(Contents())|, _ => value);
      }
    }

    method Clear()
      requires Valid()
      modifies this`len
      ensures Valid() && Contents() == [] && data[..] == old(data[..])
    {
      len := 0;
    }
  }

  method FromSlice(capacity: nat, bytes: seq<byte>) returns (r: Option<FixedBytes>)
    ensures r.Some? <==> |bytes| <= capacity
    ensures r.Some? ==> fresh(r.value) && r.value.Valid() && r.value.N == capacity
                        && r.value.Contents() == bytes && r.value.TailZero()
  {
    var b := new FixedBytes(capacity);
    var e := b.ExtendFromSlice(bytes);
    if e == Done {
      return Some(b);
    }
    r := None;
  }

  // ----- derived equality

  ghost predicate RawEqual(p: FixedBytes, q: FixedBytes)
    reads p, p.data, q, q.data
  {
    p.data[..] == q.data[..] && p.len == q.len
  }

  // MAIN RESULT. Against a buffer freshly built from the same bytes, the derived equality says "equal"
  // exactly when no shrink has left a non-zero byte behind the visible part.
  lemma EqualsRebuiltIff(b: FixedBytes, rebuilt: FixedBytes)
    requires b.Valid() && rebuilt.Valid() && b.N == rebuilt.N && rebuilt.TailZero()
    requires rebuilt.Contents() == b.Contents()
    ensures RawEqual(b, rebuilt) <==> b.TailZero()
  {
    assert b.len == rebuilt.len;
    if b.TailZero() {
      forall i | 0 <= i < b.N
        ensures b.data[i] == rebuilt.data[i]
      {
        if i < b.len {
          assert b.Contents()[i] == rebuilt.Contents()[i];
        }
      }
    }
    if RawEqual(b, rebuilt) {
      assert forall i :: 0 <= i < b.N ==> b.data[..][i] == rebuilt.data[..][i];
    }
  }

  // Never-shrunk buffers compare as their slices do.
  lemma UnshrunkEqualIff(p: FixedBytes, q: FixedBytes)
    requires p.Valid() && q.Valid() && p.N == q.N && p.TailZero() && q.TailZero()
    ensures RawEqual(p, q) <==> p.Contents() == q.Contents()
  {
    if p.Contents() == q.Contents() {
      EqualsRebuiltIff(p, q);
    }
  }

  // Shrinking does break it: fill with one non-zero byte and cut it off again.
  method ShrinkBreaksEquality() returns (p: FixedBytes, q: FixedBytes)
    ensures p.Valid() && q.Valid() && p.N == q.N == 1
    ensures p.Contents() == q.Contents() && !RawEqual(p, q)
  {
    p := new FixedBytes(1);
    var _ := p.Push(9);
    assert p.data[0] == 9 by { assert p.Contents()[0] == 9; }
    var _ := p.Resize(0, 0);
    assert p.data[..][0] == 9;
    q := new FixedBytes(1);
    EqualsRebuiltIff(p, q);
  }
}
