/** The ISO 11783-5 address-claim state machine of one control function, as functions on values. */
module ClaimMachine {
  import opened Can

  const SELF_CONFIG_MIN: byte := 128
  const SELF_CONFIG_MAX: byte := 247
  const RTXD_MAX_MS: nat := 153

  datatype ClaimState = Unstarted | WaitForClaim | SendRequest | WaitForContest | Claimed | Failed

  /** A request for address claimed, or an address claim (from the null address: "cannot claim"). */
  datatype Msg = Request | Claim(name: nat, address: byte)

  /** The control function and its claimer, whose fields are only ever updated together. */
  datatype Node = Node(
    name: nat,
    preferred: byte,
    address: byte,
    state: ClaimState,
    online: bool,
    timeout: nat,
    rtxd: nat,
    attempted: bool,
    guard: nat,
    cannotClaimPending: bool,
    cannotClaimTimer: nat,
    listening: bool,
    listenTimer: nat,
    reclaimPending: bool,
    reclaimTimer: nat,
    reclaimAddress: byte,
    occupied: set<byte>)

  datatype Step = Step(node: Node, sent: seq<Msg>)

  function NewNode(name: nat, preferred: byte, baseTimeout: nat, rtxd: nat): Node {
    var delay := if rtxd > RTXD_MAX_MS then RTXD_MAX_MS else rtxd;
    Node(name, preferred, preferred, Unstarted, false, baseTimeout + delay, delay,
         false, 0, false, 0, false, 0, false, 0, NULL_ADDRESS, {})
  }

  /** The top bit of a 64-bit NAME says whether the function may pick another address. */
  predicate SelfConfigurable(name: nat) {
    name >= 0x8000_0000_0000_0000
  }

  // ----- choosing an address

  predicate IsFree(n: Node, a: byte) {
    a != n.preferred && a !in n.occupied
  }

  function Following(a: byte): byte {
    if SELF_CONFIG_MIN <= a < SELF_CONFIG_MAX then a + 1 else SELF_CONFIG_MIN
  }

  function FirstFree(n: Node, a: byte, tries: nat): byte
    requires SELF_CONFIG_MIN <= a <= SELF_CONFIG_MAX
    decreases tries
  {
    if tries == 0 then NULL_ADDRESS
    else if IsFree(n, a) then a
    else FirstFree(n, Following(a), tries - 1)
  }

  /** `find_next_address`. */
  function FindNext(n: Node, current: byte): byte {
    FirstFree(n, Following(current), 120)
  }

  // ----- reactions

  function Fail(n: Node): Node {
    n.(state := Failed, online := false, address := NULL_ADDRESS)
  }

  function Start(n: Node): Step {
    var n1 := n.(attempted := true, occupied := {}, guard := 0);
    if n.preferred > MAX_ADDRESS then
      Step(Fail(n1).(reclaimPending := false, reclaimTimer := 0, reclaimAddress := NULL_ADDRESS),
           [Claim(n.name, NULL_ADDRESS)])
    else
      Step(n1.(state := SendRequest, listening := true, listenTimer := 0), [Request])
  }

  function FinishListen(n: Node): Step {
    var n1 := n.(listening := false, listenTimer := 0);
    var a := if n.preferred in n.occupied && SelfConfigurable(n.name) then FindNext(n, n.preferred) else n.preferred;
    if a > MAX_ADDRESS then Step(Fail(n1), [Claim(n.name, NULL_ADDRESS)])
    else Step(n1.(address := a, state := WaitForContest, guard := 0), [Claim(n.name, a)])
  }

  /** The address remembered when the node yielded, or another one if that has been taken since. */
  function Reclaimed(n: Node): byte {
    if n.reclaimAddress > MAX_ADDRESS || n.reclaimAddress == n.preferred || n.reclaimAddress in n.occupied
    then FindNext(n, n.reclaimAddress) else n.reclaimAddress
  }

  function ReclaimPart(n: Node, elapsed: nat): Step
    requires n.reclaimTimer <= U32_MAX
  {
    var n1 := n.(reclaimTimer := SaturatingAdd32(n.reclaimTimer, elapsed));
    if n1.reclaimTimer < n.rtxd then Step(n1, [])
    else
      var a := Reclaimed(n);
      if a > MAX_ADDRESS then
        Step(Fail(n1).(reclaimPending := false, reclaimAddress := NULL_ADDRESS, reclaimTimer := 0, guard := 0),
             [Claim(n.name, NULL_ADDRESS)])
      else
        Step(n1.(reclaimPending := false, reclaimAddress := a, address := a, guard := 0, state := WaitForContest),
             [Claim(n.name, a)])
  }

  function GuardPart(n: Node, elapsed: nat): Node
    requires n.guard <= U32_MAX
  {
    if n.state != WaitForContest then n
    else
      var n1 := n.(guard := SaturatingAdd32(n.guard, elapsed));
      if n1.guard < n.timeout then n1
      else n1.(state := Claimed, online := true,
               address := if n.address == NULL_ADDRESS then n.preferred else n.address)
  }

  function CannotClaimPart(n: Node, elapsed: nat): Step
    requires n.cannotClaimTimer <= U32_MAX
  {
    if !n.cannotClaimPending then Step(n, [])
    else
      var t := SaturatingAdd32(n.cannotClaimTimer, elapsed);
      if t < n.rtxd then Step(n.(cannotClaimTimer := t), [])
      else Step(n.(cannotClaimPending := false, cannotClaimTimer := 0),
                if n.state == Failed then [Claim(n.name, NULL_ADDRESS)] else [])
  }

  predicate TimersInRange(n: Node) {
    n.guard <= U32_MAX && n.cannotClaimTimer <= U32_MAX && n.listenTimer <= U32_MAX && n.reclaimTimer <= U32_MAX
  }

  function Update(n: Node, elapsed: nat): Step
    requires TimersInRange(n)
  {
    if n.listening then
      var n1 := n.(listenTimer := SaturatingAdd32(n.listenTimer, elapsed));
      if n1.listenTimer >= n.timeout then FinishListen(n1) else Step(n1, [])
    else
      var s := CannotClaimPart(n, elapsed);
      if n.reclaimPending then
        var r := ReclaimPart(s.node, elapsed);
        Step(r.node, s.sent + r.sent)
      else Step(GuardPart(s.node, elapsed), s.sent)
  }

  function HandleClaim(n: Node, claimed: byte, other: nat): Step {
    if claimed > MAX_ADDRESS then Step(n, [])
    else
      var n1 := if other != n.name then n.(occupied := n.occupied + {claimed}) else n;
      if !n.attempted || n.state == Failed || n.listening || claimed != n.address || other == n.name then Step(n1, [])
      else if n.name < other then Step(n1, [Claim(n.name, n.address)])
      else Yield(n1, claimed)
  }

  /** Arbitration is lost: go off line and either move to another address or give up. */
  function Yield(n: Node, claimed: byte): Step {
    var next := FindNext(n, claimed);
    if !SelfConfigurable(n.name) || next > MAX_ADDRESS then Step(Fail(n), [Claim(n.name, NULL_ADDRESS)])
    else if n.rtxd > 0 then
      Step(n.(online := false, reclaimPending := true, reclaimTimer := 0, reclaimAddress := next,
              state := if n.state == Claimed then WaitForClaim else n.state), [])
    else
      Step(n.(online := false, address := next, guard := 0, state := WaitForContest), [Claim(n.name, next)])
  }

  function HandleRequest(n: Node): Step {
    if !n.attempted || n.reclaimPending then Step(n, [])
    else if n.state in {Claimed, WaitForContest} then Step(n, [Claim(n.name, n.address)])
    else if n.state == Failed then
      if n.rtxd == 0 then Step(n, [Claim(n.name, NULL_ADDRESS)])
      else Step(n.(cannotClaimPending := true, cannotClaimTimer := 0), [])
    else Step(n, [])
  }

  // ----- what the address search finds

  /** Distance from `a` to `b` going up and around the self-configurable range. */
  function Steps(a: byte, b: byte): nat
    requires SELF_CONFIG_MIN <= a <= SELF_CONFIG_MAX && SELF_CONFIG_MIN <= b <= SELF_CONFIG_MAX
  {
    if a <= b then b - a else 120 + b as int - a as int
  }

  lemma {:induction false} FirstFreeIsNearest(n: Node, a: byte, tries: nat)
    requires SELF_CONFIG_MIN <= a <= SELF_CONFIG_MAX && tries <= 120
    ensures var r := FirstFree(n, a, tries);
            && (r != NULL_ADDRESS ==>
                  && SELF_CONFIG_MIN <= r <= SELF_CONFIG_MAX && IsFree(n, r) && Steps(a, r) < tries
                  && forall b: byte :: SELF_CONFIG_MIN <= b <= SELF_CONFIG_MAX && IsFree(n, b) ==>
                      Steps(a, r) <= Steps(a, b))
            && (r == NULL_ADDRESS ==>
                  forall b: byte :: SELF_CONFIG_MIN <= b <= SELF_CONFIG_MAX && IsFree(n, b) ==> Steps(a, b) >= tries)
    decreases tries
  {
    if tries > 0 && !IsFree(n, a) {
      FirstFreeIsNearest(n, Following(a), tries - 1);
      forall b: byte | SELF_CONFIG_MIN <= b <= SELF_CONFIG_MAX && b != a
        ensures Steps(a, b) == Steps(Following(a), b) + 1
      {
      }
    }
  }

  // The search fails exactly when every self-configurable address is taken or is the preferred one,
  // and otherwise yields the first free address after `current`, in the configurable range.
  lemma FindNextIsNearest(n: Node, current: byte)
    ensures var r := FindNext(n, current);
            && (r == NULL_ADDRESS <==> forall b: byte :: SELF_CONFIG_MIN <= b <= SELF_CONFIG_MAX ==> !IsFree(n, b))
            && (r != NULL_ADDRESS ==>
                  && SELF_CONFIG_MIN <= r <= SELF_CONFIG_MAX && IsFree(n, r)
                  && forall b: byte :: SELF_CONFIG_MIN <= b <= SELF_CONFIG_MAX && IsFree(n, b) ==>
                       Steps(Following(current), r) <= Steps(Following(current), b))
  {
    FirstFreeIsNearest(n, Following(current), 120);
    assert forall b: byte :: SELF_CONFIG_MIN <= b <= SELF_CONFIG_MAX ==> Steps(Following(current), b) < 120;
  }
}
