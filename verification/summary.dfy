/** The statistics the web page shows under a generated schedule: the
    person with the longest single interval and the person with the
    shortest one, over the per-person interval lists in insertion order. */
module Summary {
  import opened Wrappers
  import opened Intervals
  import opened Schedule
  import opened ScheduleProperties

  /** A reported extreme: whose it is (None while nobody qualified) and
      the interval in days (Unbounded stands for the source's infinity). */
  datatype Extreme = Extreme(name: Option<string>, interval: Interval)

  /** One entry of the interval dictionary: a person and their gaps. */
  type Item = (string, seq<int>)

  /** The largest element of a non-empty list. */
  function MaxOf(xs: seq<int>): (m: int)
    requires xs != []
    ensures exists k :: 0 <= k < |xs| && xs[k] == m
    ensures forall k :: 0 <= k < |xs| ==> xs[k] <= m
  {
    if |xs| == 1 then xs[0]
    else
      var rest := MaxOf(xs[1..]);
      if xs[0] > rest then xs[0] else rest
  }

  /** The smallest element of a non-empty list. */
  function MinOf(xs: seq<int>): (m: int)
    requires xs != []
    ensures exists k :: 0 <= k < |xs| && xs[k] == m
    ensures forall k :: 0 <= k < |xs| ==> m <= xs[k]
  {
    if |xs| == 1 then xs[0]
    else
      var rest := MinOf(xs[1..]);
      if xs[0] < rest then xs[0] else rest
  }

  /** The entries of the interval dictionary in insertion order. */
  function Items(out: Output): (items: seq<Item>)
    ensures |items| == |out.order|
    ensures forall k :: 0 <= k < |items| ==> items[k].0 == out.order[k]
    ensures forall k :: 0 <= k < |items| && out.order[k] in out.intervals ==> items[k].1 == out.intervals[out.order[k]]
  {
    seq(|out.order|, k requires 0 <= k < |out.order| =>
      (out.order[k], if out.order[k] in out.intervals then out.intervals[out.order[k]] else []))
  }

  /** The longest interval after the entries `items`: the first person
      whose largest gap exceeds every earlier one and 0, or nobody. */
  function Longest(items: seq<Item>): (e: Extreme)
    ensures e.interval.Days?
    ensures e.name == None <==> forall k :: 0 <= k < |items| && items[k].1 != [] ==> MaxOf(items[k].1) <= 0
    ensures e.name == None ==> e.interval == Days(0)
    ensures forall k :: 0 <= k < |items| && items[k].1 != [] ==> MaxOf(items[k].1) <= e.interval.n
    ensures e.name.Some? ==>
              exists k :: 0 <= k < |items| && items[k].1 != [] && items[k].0 == e.name.value
                          && MaxOf(items[k].1) == e.interval.n
                          && (forall j :: 0 <= j < k && items[j].1 != [] ==> MaxOf(items[j].1) < e.interval.n)
  {
    if items == [] then Extreme(None, Days(0))
    else
      var acc := Longest(items[..|items| - 1]);
      var last := items[|items| - 1];
      assert forall k :: 0 <= k < |items| - 1 ==> items[..|items| - 1][k] == items[k];
      if last.1 != [] && MaxOf(last.1) > acc.interval.n then Extreme(Some(last.0), Days(MaxOf(last.1)))
      else acc
  }

  /** The shortest interval after the entries `items`: the first person
      whose smallest gap is below every earlier one, or nobody. */
  function Shortest(items: seq<Item>): (e: Extreme)
    ensures e.name == None <==> forall k :: 0 <= k < |items| ==> items[k].1 == []
    ensures e.name == None ==> e.interval == Unbounded
    ensures e.name.Some? ==> e.interval.Days?
    ensures forall k :: 0 <= k < |items| && items[k].1 != [] ==> e.interval.Days? && e.interval.n <= MinOf(items[k].1)
    ensures e.name.Some? ==>
              exists k :: 0 <= k < |items| && items[k].1 != [] && items[k].0 == e.name.value
                          && MinOf(items[k].1) == e.interval.n
                          && (forall j :: 0 <= j < k && items[j].1 != [] ==> MinOf(items[j].1) > e.interval.n)
  {
    if items == [] then Extreme(None, Unbounded)
    else
      var acc := Shortest(items[..|items| - 1]);
      var last := items[|items| - 1];
      assert forall k :: 0 <= k < |items| - 1 ==> items[..|items| - 1][k] == items[k];
      if last.1 != [] && (acc.interval == Unbounded || MinOf(last.1) < acc.interval.n)
      then Extreme(Some(last.0), Days(MinOf(last.1)))
      else acc
  }

  /** The summary loop of the results page. */
  method Summarize(items: seq<Item>) returns (longest: Extreme, shortest: Extreme)
    ensures longest == Longest(items)
    ensures shortest == Shortest(items)
  {
    longest := Extreme(None, Days(0));
    shortest := Extreme(None, Unbounded);
    for i := 0 to |items|
      invariant longest == Longest(items[..i])
      invariant shortest == Shortest(items[..i])
    {
      assert items[..i + 1][..i] == items[..i];
      var (person, personIntervals) := items[i];
      if personIntervals != [] {
        var maxInterval := MaxOf(personIntervals);
        var minInterval := MinOf(personIntervals);
        if maxInterval > longest.interval.n {
          longest := Extreme(Some(person), Days(maxInterval));
        }
        if shortest.interval == Unbounded || minInterval < shortest.interval.n {
          shortest := Extreme(Some(person), Days(minInterval));
        }
      }
    }
    assert items[..|items|] == items;
  }

  /** An entry of interval lists that agree with a schedule: non-empty
      exactly for a person assigned twice, with gaps of MinInterval days
      at least. */
  lemma ItemEntry(out: Output, k: int)
    requires GapsRecorded(out.schedule, out.intervals, out.order)
    requires 0 <= k < |out.order|
    ensures Items(out)[k].0 == out.order[k]
    ensures Items(out)[k].1 != [] <==> |Dates(out.schedule, out.order[k])| >= 2
    ensures Items(out)[k].1 != [] ==> MaxOf(Items(out)[k].1) >= MinInterval && MinOf(Items(out)[k].1) >= MinInterval
  {
    var p := out.order[k];
    if p in out.intervals {
      var xs := out.intervals[p];
      assert |xs| == |Dates(out.schedule, p)| - 1;
      if xs != [] {
        var i :| 0 <= i < |xs| && xs[i] == MaxOf(xs);
        var j :| 0 <= j < |xs| && xs[j] == MinOf(xs);
        assert xs[i] >= MinInterval && xs[j] >= MinInterval;
      }
    }
  }

  /** For interval lists that agree with a schedule, both extremes are
      spacing-respecting gaps, and each is reported exactly when somebody
      was assigned twice. */
  lemma LedgerSummary(out: Output)
    requires GapsRecorded(out.schedule, out.intervals, out.order)
    ensures Longest(Items(out)).name.Some? ==> Longest(Items(out)).interval.n >= MinInterval
    ensures Shortest(Items(out)).name.Some? ==> Shortest(Items(out)).interval.n >= MinInterval
    ensures Shortest(Items(out)).name.Some? <==> exists p :: |Dates(out.schedule, p)| >= 2
    ensures Longest(Items(out)).name.Some? <==> exists p :: |Dates(out.schedule, p)| >= 2
  {
    ExtremesAtLeastMin(out);
    ExtremesReported(out);
  }

  /** Each reported extreme is at least MinInterval days. */
  lemma ExtremesAtLeastMin(out: Output)
    requires GapsRecorded(out.schedule, out.intervals, out.order)
    ensures Longest(Items(out)).name.Some? ==> Longest(Items(out)).interval.n >= MinInterval
    ensures Shortest(Items(out)).name.Some? ==> Shortest(Items(out)).interval.n >= MinInterval
  {
    EntriesAtLeastMin(out);
  }

  /** Each extreme is reported exactly when somebody was assigned twice. */
  lemma ExtremesReported(out: Output)
    requires GapsRecorded(out.schedule, out.intervals, out.order)
    ensures Shortest(Items(out)).name.Some? <==> exists p :: |Dates(out.schedule, p)| >= 2
    ensures Longest(Items(out)).name.Some? <==> exists p :: |Dates(out.schedule, p)| >= 2
  {
    SomeEntryIffTwice(out);
    EntriesAtLeastMin(out);
    LongestReported(Items(out));
  }

  /** Every non-empty entry's largest and smallest gaps are at least
      MinInterval days. */
  lemma EntriesAtLeastMin(out: Output)
    requires GapsRecorded(out.schedule, out.intervals, out.order)
    ensures forall k :: 0 <= k < |Items(out)| && Items(out)[k].1 != [] ==>
              MaxOf(Items(out)[k].1) >= MinInterval && MinOf(Items(out)[k].1) >= MinInterval
  {
    forall k | 0 <= k < |Items(out)| && Items(out)[k].1 != []
      ensures MaxOf(Items(out)[k].1) >= MinInterval && MinOf(Items(out)[k].1) >= MinInterval
    {
      ItemEntry(out, k);
    }
  }

  /** When every non-empty entry has a positive largest gap, the longest
      interval names somebody exactly when some entry is non-empty. */
  lemma LongestReported(items: seq<Item>)
    requires forall k :: 0 <= k < |items| && items[k].1 != [] ==> MaxOf(items[k].1) >= MinInterval
    ensures Longest(items).name.Some? <==> exists k :: 0 <= k < |items| && items[k].1 != []
  {
    if k :| 0 <= k < |items| && items[k].1 != [] {
      assert MaxOf(items[k].1) > 0;
    }
  }

  /** Some entry is non-empty exactly when somebody was assigned twice. */
  lemma SomeEntryIffTwice(out: Output)
    requires GapsRecorded(out.schedule, out.intervals, out.order)
    ensures (exists k :: 0 <= k < |Items(out)| && Items(out)[k].1 != []) <==>
            exists p :: |Dates(out.schedule, p)| >= 2
  {
    var items := Items(out);
    if k :| 0 <= k < |items| && items[k].1 != [] {
      ItemEntry(out, k);
    }
    if p :| |Dates(out.schedule, p)| >= 2 {
      assert p in out.order;
      var k :| 0 <= k < |out.order| && out.order[k] == p;
      ItemEntry(out, k);
    }
  }

  /** A key that does not occur among the first `k` keys had its second
      assignment no earlier than the `k`-th key's person. */
  lemma KeyNotBefore(out: Output, k: int, q: string)
    requires KeysInOrder(out.schedule, out.order)
    requires 0 <= k < |out.order| && q in out.order
    requires forall j :: 0 <= j < k ==> out.order[j] != q
    ensures |Dates(out.schedule, out.order[k])| >= 2 && |Dates(out.schedule, q)| >= 2
    ensures Dates(out.schedule, out.order[k])[1] <= Dates(out.schedule, q)[1]
  {
    var j :| 0 <= j < |out.order| && out.order[j] == q;
    if j != k {
      assert k < j;
    }
  }

  /** On a tie for the longest interval, the summary reports the person
      whose key was created first: of all people whose largest gap equals
      the reported one, no one had their second assignment earlier. */
  lemma LongestTieBreak(out: Output)
    requires LedgerHolds(out.schedule, out.intervals, out.order)
    ensures var e := Longest(Items(out));
            e.name.Some? ==>
              && |Dates(out.schedule, e.name.value)| >= 2
              && forall q :: q in out.intervals && out.intervals[q] != [] && MaxOf(out.intervals[q]) == e.interval.n ==>
                   |Dates(out.schedule, q)| >= 2 && Dates(out.schedule, e.name.value)[1] <= Dates(out.schedule, q)[1]
  {
    var items := Items(out);
    var e := Longest(items);
    if e.name.Some? {
      var k :| 0 <= k < |items| && items[k].1 != [] && items[k].0 == e.name.value
               && MaxOf(items[k].1) == e.interval.n
               && (forall j :: 0 <= j < k && items[j].1 != [] ==> MaxOf(items[j].1) < e.interval.n);
      ItemEntry(out, k);
      forall q | q in out.intervals && out.intervals[q] != [] && MaxOf(out.intervals[q]) == e.interval.n
        ensures |Dates(out.schedule, q)| >= 2 && Dates(out.schedule, e.name.value)[1] <= Dates(out.schedule, q)[1]
      {
        assert q in out.order;
        forall j | 0 <= j < k
          ensures out.order[j] != q
        {
          assert items[j].0 == out.order[j];
        }
        KeyNotBefore(out, k, q);
      }
    }
  }

  /** On a tie for the shortest interval, likewise the person whose key
      was created first is reported. */
  lemma ShortestTieBreak(out: Output)
    requires LedgerHolds(out.schedule, out.intervals, out.order)
    ensures var e := Shortest(Items(out));
            e.name.Some? ==>
              && |Dates(out.schedule, e.name.value)| >= 2
              && forall q :: q in out.intervals && out.intervals[q] != [] && MinOf(out.intervals[q]) == e.interval.n ==>
                   |Dates(out.schedule, q)| >= 2 && Dates(out.schedule, e.name.value)[1] <= Dates(out.schedule, q)[1]
  {
    var items := Items(out);
    var e := Shortest(items);
    if e.name.Some? {
      var k :| 0 <= k < |items| && items[k].1 != [] && items[k].0 == e.name.value
               && MinOf(items[k].1) == e.interval.n
               && (forall j :: 0 <= j < k && items[j].1 != [] ==> MinOf(items[j].1) > e.interval.n);
      ItemEntry(out, k);
      forall q | q in out.intervals && out.intervals[q] != [] && MinOf(out.intervals[q]) == e.interval.n
        ensures |Dates(out.schedule, q)| >= 2 && Dates(out.schedule, e.name.value)[1] <= Dates(out.schedule, q)[1]
      {
        assert q in out.order;
        forall j | 0 <= j < k
          ensures out.order[j] != q
        {
          assert items[j].0 == out.order[j];
        }
        KeyNotBefore(out, k, q);
      }
    }
  }

  /** The statistics of a successful run of the generator, for a roster
      with unique names: every reported extreme is at least MinInterval
      days, and both are reported exactly when somebody served twice. */
  lemma {:induction false} GeneratedSummary(personnel: seq<Person>, shuffled: seq<string>, startDate: int,
                                            weeks: int, draws: nat -> nat)
    requires multiset(shuffled) == multiset(Names(personnel))
    requires Distinct(Names(personnel))
    ensures Generate(personnel, shuffled, startDate, weeks, draws).Ok? ==>
              var out := Generate(personnel, shuffled, startDate, weeks, draws).value;
              var items := Items(out);
              && (Longest(items).name.Some? ==> Longest(items).interval.n >= MinInterval)
              && (Shortest(items).name.Some? ==> Shortest(items).interval.n >= MinInterval)
              && (Longest(items).name.Some? <==> exists p :: |Dates(out.schedule, p)| >= 2)
              && (Shortest(items).name.Some? <==> exists p :: |Dates(out.schedule, p)| >= 2)
  {
    GenerateGuarantees(personnel, shuffled, startDate, weeks, draws);
    var result := Generate(personnel, shuffled, startDate, weeks, draws);
    if result.Ok? {
      LedgerSummary(result.value);
    }
  }
}
