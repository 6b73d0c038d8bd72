/**
 The claimer and the control function it drives, as the two mutable objects they are.
 Each method is proved to compute the function of the same name in `ClaimMachine`.
 */
module ClaimerClass {
  import opened Can
  import opened ClaimMachine

  class InternalCf {
    const name: nat
    const preferred: byte
    var address: byte
    var state: ClaimState
    var online: bool

    constructor (name: nat, preferred: byte)
      ensures this.name == name && this.preferred == preferred && address == preferred
      ensures state == Unstarted && !online
    {
      this.name, this.preferred := name, preferred;
      address, state, online := preferred, Unstarted, false;
    }
  }

  class AddressClaimer {
    const timeout: nat
    const rtxd: nat
    var attempted: bool
    var guard: nat
    var cannotClaimPending: bool
    var cannotClaimTimer: nat
    var listening: bool
    var listenTimer: nat
    var reclaimPending: bool
    var reclaimTimer: nat
    var reclaimAddress: byte
    const occupied: array<bool>

    ghost predicate Valid() {
      occupied.Length == 254
    }

    ghost function Taken(): set<byte>
      requires Valid()
      reads occupied
    {
      set a: byte | a < 254 && occupied[a]
    }

    ghost function View(cf: InternalCf): Node
      requires Valid()
      reads this, occupied, cf
    {
      Node(cf.name, cf.preferred, cf.address, cf.state, cf.online, timeout, rtxd, attempted, guard,
           cannotClaimPending, cannotClaimTimer, listening, listenTimer,
           reclaimPending, reclaimTimer, reclaimAddress, Taken())
    }

    constructor (baseTimeout: nat, rtxd: nat)
      ensures Valid() && fresh(occupied)
      ensures forall cf: InternalCf ::
                cf.address == cf.preferred && cf.state == Unstarted && !cf.online ==>
                  View(cf) == NewNode(cf.name, cf.preferred, baseTimeout, rtxd)
    {
      var delay := if rtxd > RTXD_MAX_MS then RTXD_MAX_MS else rtxd;
      this.timeout, this.rtxd := baseTimeout + delay, delay;
      attempted, guard := false, 0;
      cannotClaimPending, cannotClaimTimer := false, 0;
      listening, listenTimer := false, 0;
      reclaimPending, reclaimTimer, reclaimAddress := false, 0, NULL_ADDRESS;
      occupied := new bool[254](_ => false);
    }

    method IsOccupied(a: byte) returns (r: bool)
      requires Valid()
      ensures r == (a in Taken())
    {
      r := a <= MAX_ADDRESS && occupied[a];
    }

    /** Walk the self-configurable range, once around, for an address nobody is known to use. */
    method FindNextAddress(cf: InternalCf, current: byte) returns (r: byte)
      requires Valid()
      ensures r == FindNext(View(cf), current)
    {
      var next: byte := SELF_CONFIG_MIN;
      if SELF_CONFIG_MIN <= current < SELF_CONFIG_MAX {
        next := current + 1;
      }
      var tries := 120;
      while tries > 0
        invariant 0 <= tries <= 120
        invariant SELF_CONFIG_MIN <= next <= SELF_CONFIG_MAX
        invariant FindNext(View(cf), current) == FirstFree(View(cf), next, tries)
      {
        var busy := IsOccupied(next);
        if next != cf.preferred && !busy {
          return next;
        }
        next := if next < SELF_CONFIG_MAX then next + 1 else SELF_CONFIG_MIN;
        tries := tries - 1;
      }
      r := NULL_ADDRESS;
    }

    method Start(cf: InternalCf) returns (sent: seq<Msg>)
      requires Valid()
      modifies this, occupied, cf
      ensures Valid()
      ensures Step(View(cf), sent) == ClaimMachine.Start(old(View(cf)))
    {
      attempted := true;
      var i := 0;
      while i < occupied.Length
        invariant 0 <= i <= occupied.Length
        invariant forall k :: 0 <= k < i ==> !occupied[k]
        modifies occupied
      {
        occupied[i] := false;
        i := i + 1;
      }
      guard := 0;
      if cf.preferred > MAX_ADDRESS {
        cf.online, cf.state, cf.address := false, Failed, NULL_ADDRESS;
        reclaimPending, reclaimTimer, reclaimAddress := false, 0, NULL_ADDRESS;
        return [Claim(cf.name, NULL_ADDRESS)];
      }
      cf.state := SendRequest;
      listening, listenTimer := true, 0;
      sent := [Request];
    }

    method FinishListen(cf: InternalCf) returns (sent: seq<Msg>)
      requires Valid()
      modifies this, cf
      ensures Valid()
      ensures Step(View(cf), sent) == ClaimMachine.FinishListen(old(View(cf)))
    {
      var a := cf.preferred;
      var busy := IsOccupied(a);
      if busy && SelfConfigurable(cf.name) {
        a := FindNextAddress(cf, a);
      }
      listening, listenTimer := false, 0;
      if a > MAX_ADDRESS {
        cf.online, cf.state, cf.address := false, Failed, NULL_ADDRESS;
        return [Claim(cf.name, NULL_ADDRESS)];
      }
      cf.address, cf.state := a, WaitForContest;
      guard := 0;
      sent := [Claim(cf.name, a)];
    }

    method Update(cf: InternalCf, elapsed: nat) returns (sent: seq<Msg>)
      requires Valid() && TimersInRange(View(cf))
      modifies this, cf
      ensures Valid()
      ensures Step(View(cf), sent) == ClaimMachine.Update(old(View(cf)), elapsed)
    {
      sent := [];
      if listening {
        listenTimer := SaturatingAdd32(listenTimer, elapsed);
        if listenTimer >= timeout {
          sent := FinishListen(cf);
        }
        return;
      }
      if cannotClaimPending {
        cannotClaimTimer := SaturatingAdd32(cannotClaimTimer, elapsed);
        if cannotClaimTimer >= rtxd {
          cannotClaimPending, cannotClaimTimer := false, 0;
          if cf.state == Failed {
            sent := [Claim(cf.name, NULL_ADDRESS)];
          }
        }
      }
      assert Step(View(cf), sent) == CannotClaimPart(old(View(cf)), elapsed);
      if reclaimPending {
        var more := Reclaim(cf, elapsed);
        sent := sent + more;
        return;
      }
      if cf.state == WaitForContest {
        guard := SaturatingAdd32(guard, elapsed);
        if guard >= timeout {
          cf.state := Claimed;
          if cf.address == NULL_ADDRESS {
            cf.address := cf.preferred;
          }
          cf.online := true;
        }
      }
    }

    method Reclaim(cf: InternalCf, elapsed: nat) returns (sent: seq<Msg>)
      requires Valid() && TimersInRange(View(cf))
      modifies this, cf
      ensures Valid()
      ensures Step(View(cf), sent) == ReclaimPart(old(View(cf)), elapsed)
    {
      sent := [];
      var a := reclaimAddress;
      var busy := IsOccupied(a);
      if a > MAX_ADDRESS || a == cf.preferred || busy {
        a := FindNextAddress(cf, a);
      }
      reclaimTimer := SaturatingAdd32(reclaimTimer, elapsed);
      if reclaimTimer >= rtxd {
        reclaimPending := false;
        if a > MAX_ADDRESS {
          reclaimAddress, reclaimTimer, guard := NULL_ADDRESS, 0, 0;
          cf.address, cf.online, cf.state := NULL_ADDRESS, false, Failed;
          return [Claim(cf.name, NULL_ADDRESS)];
        }
        reclaimAddress, cf.address, guard, cf.state := a, a, 0, WaitForContest;
        sent := [Claim(cf.name, a)];
      }
    }

    method HandleClaim(cf: InternalCf, claimed: byte, other: nat) returns (sent: seq<Msg>)
      requires Valid()
      modifies this, occupied, cf
      ensures Valid()
      ensures Step(View(cf), sent) == ClaimMachine.HandleClaim(old(View(cf)), claimed, other)
    {
      sent := [];
      if claimed > MAX_ADDRESS {
        return;
      }
      if other != cf.name {
        ghost var before := Taken();
        occupied[claimed] := true;
        assert Taken() == before + {claimed};
      }
      if !attempted || cf.state == Failed || listening || claimed != cf.address || other == cf.name {
        return;
      }
      if cf.name < other {
        return [Claim(cf.name, cf.address)];
      }
      sent := YieldAddress(cf, claimed);
    }

    method YieldAddress(cf: InternalCf, claimed: byte) returns (sent: seq<Msg>)
      requires Valid()
      modifies this, cf
      ensures Valid()
      ensures Step(View(cf), sent) == Yield(old(View(cf)), claimed)
    {
      sent := [];
      var next := FindNextAddress(cf, claimed);
      cf.online := false;
      if !SelfConfigurable(cf.name) || next > MAX_ADDRESS {
        cf.state, cf.address := Failed, NULL_ADDRESS;
        return [Claim(cf.name, NULL_ADDRESS)];
      }
      if rtxd > 0 {
        reclaimPending, reclaimTimer, reclaimAddress := true, 0, next;
        if cf.state == Claimed {
          cf.state := WaitForClaim;
        }
      } else {
        cf.address, guard, cf.state := next, 0, WaitForContest;
        sent := [Claim(cf.name, next)];
      }
    }

    method HandleRequestForClaim(cf: InternalCf) returns (sent: seq<Msg>)
      requires Valid()
      modifies this
      ensures Valid()
      ensures Step(View(cf), sent) == HandleRequest(old(View(cf)))
    {
      sent := [];
      if !attempted || reclaimPending {
        return;
      }
      if cf.state == Claimed || cf.state == WaitForContest {
        sent := [Claim(cf.name, cf.address)];
      } else if cf.state == Failed {
        if rtxd == 0 {
          sent := [Claim(cf.name, NULL_ADDRESS)];
        } else {
          cannotClaimPending, cannotClaimTimer := true, 0;
        }
      }
    }
  }
}
