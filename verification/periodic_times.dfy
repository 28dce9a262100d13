/** When a periodic triggers next (ev.c:1719-1734, 1754-1757, 2181). */
module PeriodicTimes {
  const TIME_EPSILON: real := 0.0001220703125

  function Ceil(x: real): int {
    -((-x).Floor)
  }

  lemma CeilIsLeast(x: real, k: int)
    ensures Ceil(x) as real - 1.0 < x <= Ceil(x) as real
    ensures x <= k as real <==> Ceil(x) <= k
  {}

  function Times(q: real, interval: real): real {
    q * interval
  }

  function Ratio(x: real, interval: real): real
    requires interval != 0.0
  {
    x / interval
  }

  function GridPoint(offset: real, interval: real, k: int): real {
    offset + Times(k as real, interval)
  }

  /** at is offset plus a whole number of intervals. */
  ghost predicate OnGrid(offset: real, interval: real, at: real) {
    exists k: int :: at == GridPoint(offset, interval, k)
  }

  /** at is the first time congruent to the offset that is not before from. */
  ghost predicate IsFirst(offset: real, interval: real, from: real, at: real) {
    OnGrid(offset, interval, at) && at >= from &&
    forall k: int :: GridPoint(offset, interval, k) >= from ==> at <= GridPoint(offset, interval, k)
  }

  /** Grid points are whole numbers of intervals apart, and one of them is the offset. */
  lemma GridPoints(offset: real, interval: real, k: int)
    ensures GridPoint(offset, interval, 0) == offset
    ensures GridPoint(offset, interval, k + 1) == GridPoint(offset, interval, k) + interval
  {}

  function RoundUp(offset: real, interval: real, now: real): real
    requires interval != 0.0
  {
    GridPoint(offset, interval, Ceil(Ratio(now - offset, interval)))
  }

  /** What periodics_reify makes of it. */
  function NextTrigger(offset: real, interval: real, now: real): real
    requires interval != 0.0
  {
    var at := RoundUp(offset, interval, now);
    if at - now < TIME_EPSILON then
      if at + interval < now then now else at + interval
    else at
  }

  lemma Quotient(x: real, interval: real)
    requires interval > 0.0
    ensures Times(Ratio(x, interval), interval) == x
  {}

  lemma PlusOne(q: real, interval: real)
    ensures Times(q + 1.0, interval) == Times(q, interval) + interval
  {}

  lemma Monotone(a: real, b: real, interval: real)
    requires interval > 0.0
    ensures a < b <==> Times(a, interval) < Times(b, interval)
  {}

  /** Rounding up yields the first grid point that is not before now. */
  lemma RoundUpIsNext(offset: real, interval: real, now: real)
    requires interval > 0.0
    ensures OnGrid(offset, interval, RoundUp(offset, interval, now))
    ensures now <= RoundUp(offset, interval, now) < now + interval
    ensures forall k: int :: GridPoint(offset, interval, k) >= now ==>
              RoundUp(offset, interval, now) <= GridPoint(offset, interval, k)
  {
    hide Times, Ratio, Ceil;
    var q := Ratio(now - offset, interval);
    var c := Ceil(q);
    CeilIsLeast(q, c);
    Quotient(now - offset, interval);
    PlusOne(q, interval);
    Monotone(c as real, q, interval);
    Monotone(c as real, q + 1.0, interval);
    forall k: int | GridPoint(offset, interval, k) >= now
      ensures RoundUp(offset, interval, now) <= GridPoint(offset, interval, k)
    {
      CeilIsLeast(q, k);
      Monotone(k as real, q, interval);
      Monotone(k as real, c as real, interval);
    }
  }

  lemma GridOrder(offset: real, interval: real, j: int, k: int)
    requires interval > 0.0
    ensures j <= k <==> GridPoint(offset, interval, j) <= GridPoint(offset, interval, k)
  {}

  /** The next trigger is congruent to the offset, not before now, and less than an interval and TIME_EPSILON away. */
  lemma TriggerIsAhead(offset: real, interval: real, now: real)
    requires interval > 0.0
    ensures OnGrid(offset, interval, NextTrigger(offset, interval, now))
    ensures now <= NextTrigger(offset, interval, now) < now + interval + TIME_EPSILON
    ensures interval >= TIME_EPSILON ==> NextTrigger(offset, interval, now) >= now + TIME_EPSILON
  {
    hide Times, Ratio;
    RoundUpIsNext(offset, interval, now);
    GridPoints(offset, interval, Ceil(Ratio(now - offset, interval)));
  }

  /** A periodic that expires at its offset is due again just an interval later. */
  lemma TriggerAtOffset(offset: real, interval: real)
    requires 0.0 < interval < TIME_EPSILON
    ensures NextTrigger(offset, interval, offset) == offset + interval
  {
    assert Ratio(offset - offset, interval) == 0.0 && Times(0.0, interval) == 0.0;
  }

  /** Every trigger is at least TIME_EPSILON ahead, just when the interval is at least TIME_EPSILON. */
  lemma AlwaysAhead(offset: real, interval: real)
    requires interval > 0.0
    ensures (forall now :: NextTrigger(offset, interval, now) >= now + TIME_EPSILON) <==> interval >= TIME_EPSILON
  {
    if interval >= TIME_EPSILON {
      forall now ensures NextTrigger(offset, interval, now) >= now + TIME_EPSILON {
        TriggerIsAhead(offset, interval, now);
      }
    } else {
      TriggerAtOffset(offset, interval);
    }
  }

  /** Unless the interval is very short, it is the first grid point at least TIME_EPSILON ahead. */
  lemma TriggerIsFirst(offset: real, interval: real, now: real, k: int)
    requires interval >= TIME_EPSILON && GridPoint(offset, interval, k) >= now + TIME_EPSILON
    ensures NextTrigger(offset, interval, now) <= GridPoint(offset, interval, k)
  {
    hide Times, Ratio, Ceil, GridPoint;
    RoundUpIsNext(offset, interval, now);
    var c := Ceil(Ratio(now - offset, interval));
    GridPoints(offset, interval, c);
    GridOrder(offset, interval, k, c);
    GridOrder(offset, interval, c + 1, k);
  }

  /** Rounding up, as a property. */
  lemma RoundUpIsFirst(offset: real, interval: real, now: real)
    requires interval > 0.0
    ensures IsFirst(offset, interval, now, RoundUp(offset, interval, now))
  {
    hide GridPoint, RoundUp, OnGrid;
    RoundUpIsNext(offset, interval, now);
  }

  /** And the next trigger: the first time at least TIME_EPSILON ahead or, when the interval is shorter than that, the
      time an interval behind the first that is not past. */
  lemma NextTriggerIs(offset: real, interval: real, now: real)
    requires interval > 0.0
    ensures var at := NextTrigger(offset, interval, now);
            if interval >= TIME_EPSILON then IsFirst(offset, interval, now + TIME_EPSILON, at)
            else IsFirst(offset, interval, now, at - interval)
  {
    hide GridPoint, OnGrid, RoundUp;
    TriggerIsAhead(offset, interval, now);
    RoundUpIsFirst(offset, interval, now);
    RoundUpIsNext(offset, interval, now);
    if interval >= TIME_EPSILON {
      forall k: int | GridPoint(offset, interval, k) >= now + TIME_EPSILON
        ensures NextTrigger(offset, interval, now) <= GridPoint(offset, interval, k)
      {
        TriggerIsFirst(offset, interval, now, k);
      }
    }
  }
}
