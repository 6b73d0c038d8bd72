/** Monotonic microsecond instants and the millisecond counter that carries its remainder. */
module Clock {
  import opened Can

  const U64_MAX: nat := 0xFFFF_FFFF_FFFF_FFFF

  /** Microseconds since an origin the driver chooses. */
  type Instant = t: nat | t <= U64_MAX

  function SaturatingMul(a: nat, b: nat): Instant {
    if a * b > U64_MAX then U64_MAX else a * b
  }

  function SaturatingAdd(a: Instant, b: Instant): Instant {
    if a + b > U64_MAX then U64_MAX else a + b
  }

  /** Whole milliseconds from `earlier` to `now`: never negative, capped at the largest u32. */
  function MillisSince(now: Instant, earlier: Instant): nat {
    var micros := if now >= earlier then now - earlier else 0;
    var millis := micros / 1000;
    if millis > U32_MAX then U32_MAX else millis
  }

  function AddMillis(t: Instant, millis: nat): Instant {
    SaturatingAdd(t, SaturatingMul(millis, 1000))
  }

  /** `advance_millis`: the new value of `last`, and the milliseconds reported. */
  function Advance(last: Option<Instant>, now: Instant): (Option<Instant>, nat) {
    match last
    case None => (Some(now), 0)
    case Some(previous) =>
      var elapsed := MillisSince(now, previous);
      (if elapsed > 0 then Some(AddMillis(previous, elapsed)) else last, elapsed)
  }

  /** The caller's `last`, updated in place. */
  class Ticker {
    var last: Option<Instant>

    constructor ()
      ensures last == None
    {
      last := None;
    }

    method AdvanceMillis(now: Instant) returns (elapsed: nat)
      modifies this
      ensures (last, elapsed) == Advance(old(last), now)
    {
      if last.None? {
        last := Some(now);
        return 0;
      }
      elapsed := MillisSince(now, last.value);
      if elapsed > 0 {
        last := Some(AddMillis(last.value, elapsed));
      }
    }
  }

  // ----- one call

  // A call moves `last` forward by exactly what it reports, never past `now`, and never saturates.
  lemma AdvanceIsExact(previous: Instant, now: Instant)
    ensures var (last, elapsed) := Advance(Some(previous), now);
            && last == Some(previous + 1000 * elapsed)
            && (now >= previous ==> previous + 1000 * elapsed <= now)
            && (now < previous ==> elapsed == 0)
            && elapsed <= U32_MAX
            && (elapsed < U32_MAX && now >= previous ==> now - (previous + 1000 * elapsed) < 1000)
  {
  }

  // ----- every sequence of readings

  function Run(last: Option<Instant>, readings: seq<Instant>): (Option<Instant>, seq<nat>)
    decreases |readings|
  {
    if readings == [] then (last, [])
    else
      var (last', elapsed) := Advance(last, readings[0]);
      var (final, reports) := Run(last', readings[1..]);
      (final, [elapsed] + reports)
  }

  function Sum(s: seq<nat>): nat {
    if s == [] then 0 else s[0] + Sum(s[1..])
  }

  function Max(m: Instant, readings: seq<Instant>): (r: Instant)
    ensures r >= m
    decreases |readings|
  {
    if readings == [] then m else Max(if readings[0] > m then readings[0] else m, readings[1..])
  }

  /** No reading jumps more than u32::MAX milliseconds past everything seen before it. */
  predicate GapsFit(m: Instant, readings: seq<Instant>)
    decreases |readings|
  {
    readings == [] ||
    (&& readings[0] <= m + 1000 * U32_MAX
     && GapsFit(if readings[0] > m then readings[0] else m, readings[1..]))
  }

  lemma {:induction false} RunConcat(last: Option<Instant>, a: seq<Instant>, b: seq<Instant>)
    ensures var (middle, reports) := Run(last, a);
            Run(last, a + b).0 == Run(middle, b).0 && Run(last, a + b).1 == reports + Run(middle, b).1
    decreases |a|
  {
    if a == [] {
      assert a + b == b;
    } else {
      assert (a + b)[1..] == a[1..] + b;
      var (last', elapsed) := Advance(last, a[0]);
      RunConcat(last', a[1..], b);
      var (middle, reports) := Run(last', a[1..]);
      assert [elapsed] + (reports + Run(middle, b).1) == [elapsed] + reports + Run(middle, b).1;
    }
  }

  // With no assumption on the readings, which may step backwards or leap ahead.
  lemma {:induction false} RunLosesNothing(previous: Instant, m: Instant, readings: seq<Instant>)
    requires previous <= m
    ensures var (last, reports) := Run(Some(previous), readings);
            && last == Some(previous + 1000 * Sum(reports))
            && previous + 1000 * Sum(reports) <= Max(m, readings)
    decreases |readings|
  {
    if readings != [] {
      var now := readings[0];
      AdvanceIsExact(previous, now);
      var (last, _) := Advance(Some(previous), now);
      RunLosesNothing(last.value, if now > m then now else m, readings[1..]);
    }
  }

  lemma {:induction false} RunKeepsUp(previous: Instant, m: Instant, readings: seq<Instant>)
    requires previous <= m < previous + 1000 && GapsFit(m, readings)
    ensures var (last, reports) := Run(Some(previous), readings);
            previous + 1000 * Sum(reports) <= Max(m, readings) < previous + 1000 * Sum(reports) + 1000
    decreases |readings|
  {
    if readings != [] {
      var now := readings[0];
      AdvanceIsExact(previous, now);
      var (last, elapsed) := Advance(Some(previous), now);
      assert now > m ==> (now - previous) / 1000 <= U32_MAX;
      RunKeepsUp(last.value, if now > m then now else m, readings[1..]);
    }
  }

  // The first call only remembers the reading.
  lemma FirstReading(first: Instant, readings: seq<Instant>)
    ensures Run(None, [first] + readings).0 == Run(Some(first), readings).0
    ensures Sum(Run(None, [first] + readings).1) == Sum(Run(Some(first), readings).1)
  {
    assert ([first] + readings)[1..] == readings;
    var reports := Run(Some(first), readings).1;
    assert Run(None, [first] + readings).1 == [0] + reports;
    assert ([0] + reports)[1..] == reports;
  }

  // MAIN RESULT. From the very first call: what is reported in total is the whole span seen, in
  // milliseconds rounded down once, however often, irregularly or out of order the clock was read.
  lemma TotalIsWholeSpan(first: Instant, readings: seq<Instant>)
    requires GapsFit(first, readings)
    ensures Sum(Run(None, [first] + readings).1) == (Max(first, readings) - first) / 1000
  {
    RunKeepsUp(first, first, readings);
    FirstReading(first, readings);
    var total := Sum(Run(Some(first), readings).1);
    DivisionIsUnique(Max(first, readings) - first, total);
  }

  lemma DivisionIsUnique(x: nat, q: nat)
    requires 1000 * q <= x < 1000 * q + 1000
    ensures x / 1000 == q
  {
  }

  // MAIN RESULT. Two ways of reading the same stretch of time report the same total.
  lemma TotalIgnoresSampling(first: Instant, a: seq<Instant>, b: seq<Instant>)
    requires GapsFit(first, a) && GapsFit(first, b) && Max(first, a) == Max(first, b)
    ensures Sum(Run(None, [first] + a).1) == Sum(Run(None, [first] + b).1)
  {
    TotalIsWholeSpan(first, a);
    TotalIsWholeSpan(first, b);
  }

  // MAIN RESULT. Any gap at all: `last` always equals the first reading plus what was reported, and
  // never passes the largest reading, so nothing is lost and nothing is counted twice.
  lemma NothingLostOrDoubled(first: Instant, readings: seq<Instant>)
    ensures var (last, reports) := Run(None, [first] + readings);
            && last == Some(first + 1000 * Sum(reports))
            && first + 1000 * Sum(reports) <= Max(first, readings)
  {
    RunLosesNothing(first, first, readings);
    FirstReading(first, readings);
  }

  /** `k` readings of the same instant. */
  function Repeat(now: Instant, k: nat): (r: seq<Instant>)
    ensures |r| == k && forall i :: 0 <= i < k ==> r[i] == now
  {
    if k == 0 then [] else [now] + Repeat(now, k - 1)
  }

  // MAIN RESULT. After a leap too large for one u32, reading the same instant again and again reports
  // the whole leap in finitely many calls, and then nothing more.
  lemma {:induction false} LeapIsCaughtUp(previous: Instant, now: Instant) returns (k: nat)
    requires previous <= now
    ensures var (last, reports) := Run(Some(previous), Repeat(now, k));
            && Sum(reports) == (now - previous) / 1000
            && Advance(last, now) == (last, 0)
    decreases now - previous
  {
    AdvanceIsExact(previous, now);
    var (last, elapsed) := Advance(Some(previous), now);
    if elapsed == 0 {
      k := 0;
    } else {
      var k' := LeapIsCaughtUp(last.value, now);
      k := k' + 1;
      assert Repeat(now, k)[0] == now && Repeat(now, k)[1..] == Repeat(now, k');
      ShiftDivision(now - previous, elapsed);
    }
  }

  lemma ShiftDivision(x: nat, q: nat)
    requires 1000 * q <= x
    ensures x / 1000 == q + (x - 1000 * q) / 1000
  {
  }
}
