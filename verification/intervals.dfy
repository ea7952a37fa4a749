/** Days since a person's last assignment (`get_interval_days`). */
module Intervals {
  import opened Wrappers

  /** A waiting time. `Unbounded` replaces the floating-point infinity the
      scheduler returns for a person who was never assigned. */
  datatype Interval = Unbounded | Days(n: int)

  /** The order the scheduler compares intervals with: every day count lies
      below `Unbounded`, and `Unbounded` equals itself. */
  predicate AtMost(a: Interval, b: Interval)
  {
    match (a, b)
    case (_, Unbounded) => true
    case (Unbounded, Days(_)) => false
    case (Days(x), Days(y)) => x <= y
  }

  /** `i < bound` with `i` possibly infinite: an unbounded interval is never
      below a finite bound. */
  predicate Below(i: Interval, bound: int)
  {
    i.Days? && i.n < bound
  }

  /** The interval between `last` (absent for a person never assigned) and
      `current`, both as day numbers. */
  function IntervalDays(last: Option<int>, current: int): (r: Interval)
    ensures r == Unbounded <==> last == None
    ensures r.Days? ==> last == Some(current - r.n)
  {
    match last
    case None => Unbounded
    case Some(d) => Days(current - d)
  }

  /** `AtMost` is a total order on intervals, with `Unbounded` on top. */
  lemma AtMostTotalOrder(a: Interval, b: Interval, c: Interval)
    ensures AtMost(a, a)
    ensures AtMost(a, b) || AtMost(b, a)
    ensures AtMost(a, b) && AtMost(b, a) ==> a == b
    ensures AtMost(a, b) && AtMost(b, c) ==> AtMost(a, c)
    ensures AtMost(a, Unbounded)
  {
  }
}
