/** Time correlation of a packet and a TLS event, in 64-bit nanosecond durations. */
module Timing {
  import opened Records

  const MIN_INT64: int := -0x8000_0000_0000_0000
  const MAX_INT64: int := 0x7FFF_FFFF_FFFF_FFFF

  type Duration = d: int | MIN_INT64 <= d <= MAX_INT64 witness 0

  const SECOND: Duration := 1_000_000_000
  const CORRELATION_WINDOW: Duration := 30_000_000_000
  const MATCH_MAX_SKEW: Duration := 5_000_000_000
  const MATCH_MIN_DELTA: Duration := -2_000_000_000
  const TIME_BONUS_MAX := 10

  /** Instants are nanoseconds on one clock; `captured` is absent when the record carries no timestamp. */
  datatype Stamp = Stamp(received: int, captured: Option<int>)

  /** The capture time of a record, in nanoseconds: milliseconds when known, whole seconds otherwise. */
  function CaptureTime(m: GenericMap): Option<int> {
    var ms, sec := Field(m, "TimeFlowStartMs"), Field(m, "Time");
    if ms.Float? && ms.number > 0.0 then Some(Truncate(ms.number) * 1_000_000)
    else if sec.Float? && sec.number > 0.0 then Some(Truncate(sec.number) * 1_000_000_000)
    else None
  }

  /** Milliseconds come before seconds, and only positive numbers count; `n` is the number without its fraction. */
  lemma CaptureTimeMeaning(m: GenericMap, x: real, n: nat)
    requires x > 0.0 && n as real <= x < n as real + 1.0
    ensures Field(m, "TimeFlowStartMs") == Float(x) ==> CaptureTime(m) == Some(n * 1_000_000)
    ensures Field(m, "Time") == Float(x) && (forall y :: Field(m, "TimeFlowStartMs") == Float(y) ==> y <= 0.0) ==>
      CaptureTime(m) == Some(n * 1_000_000_000)
    ensures CaptureTime(m).None? <==>
      forall key, y | key in {"TimeFlowStartMs", "Time"} :: Field(m, key) == Float(y) ==> y <= 0.0
  {
    var ms, sec := Field(m, "TimeFlowStartMs"), Field(m, "Time");
    if forall key, y | key in {"TimeFlowStartMs", "Time"} :: Field(m, key) == Float(y) ==> y <= 0.0 {
      assert ms.Float? ==> Field(m, "TimeFlowStartMs") == Float(ms.number);
      assert sec.Float? ==> Field(m, "Time") == Float(sec.number);
    }
  }

  /** Difference of two instants, saturating at the limits of a duration. */
  function Sub(t: int, u: int): Duration {
    if t - u < MIN_INT64 then MIN_INT64 else if t - u > MAX_INT64 then MAX_INT64 else t - u
  }

  /** Two's-complement wrap-around of a sum or difference of two durations. */
  function Wrap(x: int): Duration
    requires 2 * MIN_INT64 <= x <= 2 * MAX_INT64 + 1
  {
    if x > MAX_INT64 then x - 0x1_0000_0000_0000_0000
    else if x < MIN_INT64 then x + 0x1_0000_0000_0000_0000
    else x
  }

  function Negate(d: Duration): Duration {
    var n: int := d;
    Wrap(-n)
  }

  /** Integer division that truncates toward zero. */
  function Quotient(a: int, b: int): int
    requires b > 0
  {
    if a >= 0 then a / b else -((-a) / b)
  }

  function Milliseconds(d: Duration): int {
    Quotient(d, 1_000_000)
  }

  predicate HaveCaptureTimes(wire: Stamp, event: Stamp) {
    wire.captured.Some? && event.captured.Some?
  }

  function ReceiveDelta(wire: Stamp, event: Stamp): Duration {
    var d := Sub(event.received, wire.received);
    if d < 0 then Negate(d) else d
  }

  predicate TimesCorrelated(wire: Stamp, event: Stamp) {
    if HaveCaptureTimes(wire, event) then
      MATCH_MIN_DELTA <= Sub(event.captured.value, wire.captured.value) <= MATCH_MAX_SKEW
    else
      ReceiveDelta(wire, event) <= CORRELATION_WINDOW
  }

  function Proximity(limit: Duration, delta: Duration): int
    requires Milliseconds(limit) > 0
  {
    Quotient(TIME_BONUS_MAX * Milliseconds(Wrap(limit - delta)), Milliseconds(limit))
  }

  function TimeBonus(wire: Stamp, event: Stamp): int {
    if HaveCaptureTimes(wire, event) then
      var delta := Sub(event.captured.value, wire.captured.value);
      var limit := if delta < 0 then Negate(MATCH_MIN_DELTA) else MATCH_MAX_SKEW;
      var distance := if delta < 0 then Negate(delta) else delta;
      if distance <= limit then Proximity(limit, distance) else 0
    else
      var distance := ReceiveDelta(wire, event);
      if distance <= CORRELATION_WINDOW then Proximity(CORRELATION_WINDOW, distance) else 0
  }

  // ---------------------------------------------------------------------------------------------
  // What the bonus means

  /** The signed gap the bonus looks at: capture times when both are known, receive times otherwise. */
  function Gap(wire: Stamp, event: Stamp): Duration {
    if HaveCaptureTimes(wire, event) then Sub(event.captured.value, wire.captured.value)
    else Sub(event.received, wire.received)
  }

  /** The gap is the most negative duration, the one value whose negation is not positive. */
  predicate GapSaturates(wire: Stamp, event: Stamp) {
    Gap(wire, event) == MIN_INT64
  }

  lemma ProximityBounds(limit: Duration, distance: Duration)
    requires limit in {2 * SECOND, MATCH_MAX_SKEW, CORRELATION_WINDOW}
    requires 0 <= distance <= limit
    ensures 0 <= Proximity(limit, distance) <= TIME_BONUS_MAX
    ensures Proximity(limit, distance) == TIME_BONUS_MAX <==> distance == 0
  {
  }

  /** A saturated gap makes the bonus a large negative number. */
  lemma SaturatedBonus(wire: Stamp, event: Stamp)
    requires GapSaturates(wire, event)
    ensures TimeBonus(wire, event) < -1_000_000
  {
    assert Negate(MIN_INT64) == MIN_INT64;
  }

  /** The gap decides the bonus: the limit on its side of the packet, and its distance from it. */
  lemma BonusByGap(wire: Stamp, event: Stamp)
    requires !GapSaturates(wire, event)
    ensures var gap := Gap(wire, event);
      var limit: Duration := if !HaveCaptureTimes(wire, event) then CORRELATION_WINDOW
                             else if gap < 0 then 2 * SECOND else MATCH_MAX_SKEW;
      var distance: Duration := if gap < 0 then -gap else gap;
      Milliseconds(limit) > 0 && TimeBonus(wire, event) == if distance <= limit then Proximity(limit, distance) else 0
  {
  }

  lemma BonusOfGap(wire: Stamp, event: Stamp)
    requires !GapSaturates(wire, event)
    ensures 0 <= TimeBonus(wire, event) <= TIME_BONUS_MAX
    ensures TimeBonus(wire, event) == TIME_BONUS_MAX <==> Gap(wire, event) == 0
  {
    hide Proximity, TimeBonus;
    BonusByGap(wire, event);
    var gap := Gap(wire, event);
    var limit: Duration := if !HaveCaptureTimes(wire, event) then CORRELATION_WINDOW
                           else if gap < 0 then 2 * SECOND else MATCH_MAX_SKEW;
    var distance: Duration := if gap < 0 then -gap else gap;
    if distance <= limit {
      ProximityBounds(limit, distance);
    }
  }

  /** Which times go together, in nanoseconds: an event from 2 s before to 5 s after the packet by capture times, else
      within 30 s either way by receive times; times so far apart that the gap saturates pass the latter test. */
  lemma CorrelatedMeaning(wire: Stamp, event: Stamp)
    ensures HaveCaptureTimes(wire, event) ==>
      (TimesCorrelated(wire, event) <==> -2_000_000_000 <= event.captured.value - wire.captured.value <= 5_000_000_000)
    ensures !HaveCaptureTimes(wire, event) ==>
      (TimesCorrelated(wire, event) <==>
        || -30_000_000_000 <= event.received - wire.received <= 30_000_000_000
        || event.received - wire.received <= -0x8000_0000_0000_0000)
  {
  }

  /** Packet and event are near enough in time, in nanoseconds. */
  predicate InTime(wire: Stamp, event: Stamp) {
    if wire.captured.Some? && event.captured.Some? then
      -2_000_000_000 <= event.captured.value - wire.captured.value <= 5_000_000_000
    else
      -30_000_000_000 <= event.received - wire.received <= 30_000_000_000
  }

  lemma InTimeMeaning(wire: Stamp, event: Stamp)
    ensures InTime(wire, event) <==> TimesCorrelated(wire, event) && !GapSaturates(wire, event)
  {
  }

  lemma PointsBefore(x: int, b: int)
    requires x >= 0
    ensures Quotient(10 * Quotient(x, 1_000_000), 2000) == b <==> 200_000_000 * b <= x < 200_000_000 * (b + 1)
  {
  }

  lemma PointsAfter(x: int, b: int)
    requires x >= 0
    ensures Quotient(10 * Quotient(x, 1_000_000), 5000) == b <==> 500_000_000 * b <= x < 500_000_000 * (b + 1)
  {
  }

  lemma PointsReceived(x: int, b: int)
    requires x >= 0
    ensures Quotient(10 * Quotient(x, 1_000_000), 30_000) == b <==> 3_000_000_000 * b <= x < 3_000_000_000 * (b + 1)
  {
  }

  /** The bonus in steps: one point for every half second an event is closer than 5 s after its packet, for every 0.2 s
      it is closer than 2 s before it, and for every 3 s it is closer than 30 s where only receive times are known. */
  lemma BonusSteps(wire: Stamp, event: Stamp, b: int)
    requires InTime(wire, event)
    ensures HaveCaptureTimes(wire, event) ==>
      var gap := event.captured.value - wire.captured.value;
      TimeBonus(wire, event) == b <==>
        if gap >= 0 then 500_000_000 * b <= 5_000_000_000 - gap < 500_000_000 * (b + 1)
        else 200_000_000 * b <= 2_000_000_000 + gap < 200_000_000 * (b + 1)
    ensures !HaveCaptureTimes(wire, event) ==>
      var gap := event.received - wire.received;
      TimeBonus(wire, event) == b <==>
        3_000_000_000 * b <= 30_000_000_000 - (if gap >= 0 then gap else -gap) < 3_000_000_000 * (b + 1)
  {
    hide Quotient, TimeBonus;
    InTimeMeaning(wire, event);
    BonusByGap(wire, event);
    var gap := Gap(wire, event);
    var limit: Duration := if !HaveCaptureTimes(wire, event) then CORRELATION_WINDOW
                           else if gap < 0 then 2 * SECOND else MATCH_MAX_SKEW;
    var distance: Duration := if gap < 0 then -gap else gap;
    LimitMilliseconds();
    PointsBefore(limit - distance, b);
    PointsAfter(limit - distance, b);
    PointsReceived(limit - distance, b);
  }

  lemma LimitMilliseconds()
    ensures Milliseconds(2 * SECOND) == 2000 && Milliseconds(MATCH_MAX_SKEW) == 5000
    ensures Milliseconds(CORRELATION_WINDOW) == 30_000
  {
  }

  lemma BonusRange(wire: Stamp, event: Stamp)
    ensures 0 <= TimeBonus(wire, event) <= TIME_BONUS_MAX <==> !GapSaturates(wire, event)
  {
    if GapSaturates(wire, event) {
      SaturatedBonus(wire, event);
    } else {
      BonusOfGap(wire, event);
    }
  }

  /** Two records, with times in milliseconds, for which the bonus leaves its range: their capture times are more than
      2^63 ns apart. */
  lemma BonusCanLeaveRange() returns (wire: GenericMap, event: GenericMap)
    ensures var w, e := Stamp(0, CaptureTime(wire)), Stamp(0, CaptureTime(event));
      HaveCaptureTimes(w, e) && !TimesCorrelated(w, e) && TimeBonus(w, e) < 0
  {
    wire, event := map["TimeFlowStartMs" := Float(9223372036856.0)], map["TimeFlowStartMs" := Float(0.5)];
    SaturatedBonus(Stamp(0, CaptureTime(wire)), Stamp(0, CaptureTime(event)));
  }

  /** The bonus is full exactly when the compared times coincide to the nanosecond. */
  lemma FullBonusIsCoincidence(wire: Stamp, event: Stamp)
    ensures TimeBonus(wire, event) == TIME_BONUS_MAX <==> Gap(wire, event) == 0
  {
    if GapSaturates(wire, event) {
      SaturatedBonus(wire, event);
    } else {
      BonusOfGap(wire, event);
    }
  }

  /** Outside the correlation window there is no bonus, except for a saturated gap. */
  lemma NoBonusOutsideWindow(wire: Stamp, event: Stamp)
    requires !TimesCorrelated(wire, event)
    ensures TimeBonus(wire, event) == 0 <==> !GapSaturates(wire, event)
  {
    if GapSaturates(wire, event) {
      SaturatedBonus(wire, event);
    }
  }

  lemma QuotientMonotone(a: int, b: int, n: int)
    requires n in {2000, 5000, 30_000, 1_000_000} && 0 <= a <= b
    ensures 0 <= Quotient(a, n) <= Quotient(b, n)
  {
  }

  lemma MillisecondsOfLimit(limit: Duration)
    requires limit in {2 * SECOND, MATCH_MAX_SKEW, CORRELATION_WINDOW}
    ensures Milliseconds(limit) in {2000, 5000, 30_000}
  {
  }

  lemma ProximityDecreases(limit: Duration, near: Duration, far: Duration)
    requires limit in {2 * SECOND, MATCH_MAX_SKEW, CORRELATION_WINDOW}
    requires Milliseconds(limit) > 0
    requires 0 <= near <= far <= limit
    ensures Proximity(limit, near) >= Proximity(limit, far)
  {
    hide Quotient;
    MillisecondsOfLimit(limit);
    QuotientMonotone(limit - far, limit - near, 1_000_000);
    QuotientMonotone(TIME_BONUS_MAX * Milliseconds(limit - far), TIME_BONUS_MAX * Milliseconds(limit - near),
                     Milliseconds(limit));
  }

  /** On either side of the packet, an event that is closer never gets a smaller bonus. */
  lemma BonusDecreasesWithDistance(wire: Stamp, near: Stamp, far: Stamp)
    requires HaveCaptureTimes(wire, near) <==> HaveCaptureTimes(wire, far)
    requires !GapSaturates(wire, far)
    requires 0 <= Gap(wire, near) <= Gap(wire, far) || Gap(wire, far) <= Gap(wire, near) <= 0
    ensures TimeBonus(wire, near) >= TimeBonus(wire, far)
  {
    hide Proximity, TimeBonus, Quotient;
    BonusRange(wire, near);
    BonusByGap(wire, near);
    BonusByGap(wire, far);
    var limit: Duration := if !HaveCaptureTimes(wire, far) then CORRELATION_WINDOW
                           else if Gap(wire, far) < 0 then 2 * SECOND else MATCH_MAX_SKEW;
    var nearDistance: Duration := if Gap(wire, near) < 0 then -Gap(wire, near) else Gap(wire, near);
    var farDistance: Duration := if Gap(wire, far) < 0 then -Gap(wire, far) else Gap(wire, far);
    if farDistance <= limit {
      if Gap(wire, near) == 0 {
        FullBonusIsCoincidence(wire, near);
        ProximityBounds(limit, farDistance);
      } else {
        ProximityDecreases(limit, nearDistance, farDistance);
      }
    }
  }
}
