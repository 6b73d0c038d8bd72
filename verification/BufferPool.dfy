/** The fixed buffer pool: zeroed buffers leased out one holder at a time. */
module BufferPools {
  import opened Can

  class FixedBufferPool {
    const SLOTS: nat
    const BUF_LEN: nat
    const buffers: array2<byte>
    const used: array<bool>

    /** Every buffer nobody holds is all zeros. */
    ghost predicate Valid()
      reads this, buffers, used
    {
      && buffers.Length0 == SLOTS && buffers.Length1 == BUF_LEN && used.Length == SLOTS
      && (forall i, k :: 0 <= i < SLOTS && 0 <= k < BUF_LEN && !used[i] ==> buffers[i, k] == 0)
    }

    ghost function Leased(): set<nat>
      requires Valid()
      reads this, buffers, used
    {
      set i: nat | i < SLOTS && used[i]
    }

    constructor (slots: nat, bufLen: nat)
      ensures Valid() && fresh(buffers) && fresh(used) && SLOTS == slots && BUF_LEN == bufLen && Leased() == {}
    {
      SLOTS, BUF_LEN := slots, bufLen;
      buffers := new byte[slots, bufLen]((_, _) => 0);
      used := new bool[slots](_ => false);
    }

    /** The lowest free slot, with a zeroed buffer; nothing exactly when every slot is leased. */
    method Acquire() returns (r: Option<nat>)
      requires Valid()
      modifies used
      ensures Valid()
      ensures r.None? <==> forall i: nat :: i < SLOTS ==> i in old(Leased())
      ensures r.None? ==> Leased() == old(Leased())
      ensures r.Some? ==>
                && r.value < SLOTS && r.value !in old(Leased()) && Leased() == old(Leased()) + {r.value}
                && (forall i :: 0 <= i < r.value ==> i in old(Leased()))
                && (forall k :: 0 <= k < BUF_LEN ==> buffers[r.value, k] == 0)
    {
      var i := 0;
      while i < SLOTS
        invariant 0 <= i <= SLOTS
        invariant used[..] == old(used[..])
        invariant forall j :: 0 <= j < i ==> used[j]
      {
        if !used[i] {
          used[i] := true;
          assert Leased() == old(Leased()) + {i};
          return Some(i);
        }
        i := i + 1;
      }
      r := None;
      assert forall j :: 0 <= j < SLOTS ==> used[..][j] == old(used[..])[j];
    }

    /** The holder of a lease writes into its buffer. */
    method Write(slot: nat, k: nat, b: byte)
      requires Valid() && slot in Leased() && k < BUF_LEN
      modifies buffers
      ensures Valid() && Leased() == old(Leased()) && buffers[slot, k] == b
      ensures forall i, j :: 0 <= i < SLOTS && 0 <= j < BUF_LEN && (i != slot || j != k) ==>
                buffers[i, j] == old(buffers[i, j])
    {
      buffers[slot, k] := b;
    }

    method Release(slot: nat) returns (ok: bool)
      requires Valid()
      modifies used, buffers
      ensures Valid()
      ensures ok <==> slot in old(Leased())
      ensures Leased() == old(Leased()) - {slot}
      ensures forall i, j :: 0 <= i < SLOTS && 0 <= j < BUF_LEN && i != slot ==> buffers[i, j] == old(buffers[i, j])
      ensures !ok ==> forall i, j :: 0 <= i < SLOTS && 0 <= j < BUF_LEN ==> buffers[i, j] == old(buffers[i, j])
    {
      if slot < SLOTS && used[slot] {
        used[slot] := false;
        var k := 0;
        while k < BUF_LEN
          invariant 0 <= k <= BUF_LEN
          invariant forall j :: 0 <= j < k ==> buffers[slot, j] == 0
          invariant forall i, j :: 0 <= i < SLOTS && 0 <= j < BUF_LEN && i != slot ==>
                      buffers[i, j] == old(buffers[i, j])
          modifies buffers
        {
          buffers[slot, k] := 0;
          k := k + 1;
        }
        ok := true;
      } else {
        ok := false;
      }
    }
  }
}
