/** The pure helpers of the rotation engine: the queue-overlap check
    (`check_duplicate_members`) and the fairness selector (`select_person`). */
module Selection {
  import opened Wrappers
  import opened Intervals

  /** The names present in both queues. */
  function CheckDuplicateMembers(first: seq<string>, second: seq<string>): (dups: set<string>)
    ensures forall x :: x in dups <==> x in first && x in second
  {
    (set x | x in first) * (set x | x in second)
  }

  /** The last assignment date recorded for `p`; the source's defaultdict
      yields None for a person never assigned. */
  function LastAssigned(last: map<string, int>, p: string): Option<int>
  {
    if p in last then Some(last[p]) else None
  }

  /** Days since `p` was last assigned, as of `current`. */
  function IntervalOf(last: map<string, int>, p: string, current: int): (r: Interval)
    ensures r == Unbounded <==> p !in last
    ensures p in last ==> r == Days(current - last[p])
  {
    IntervalDays(LastAssigned(last, p), current)
  }

  /** The longest interval among the eligible people. */
  function MaxInterval(eligible: seq<string>, last: map<string, int>, current: int): (m: Interval)
    requires eligible != []
    ensures exists k :: 0 <= k < |eligible| && IntervalOf(last, eligible[k], current) == m
    ensures forall p :: p in eligible ==> AtMost(IntervalOf(last, p, current), m)
    decreases |eligible|
  {
    var here := IntervalOf(last, eligible[0], current);
    if |eligible| == 1 then here
    else
      var rest := MaxInterval(eligible[1..], last, current);
      if AtMost(here, rest) then rest else here
  }

  /** The eligible people whose interval equals `m`, in list order. */
  function Candidates(eligible: seq<string>, last: map<string, int>, current: int, m: Interval): (c: seq<string>)
    ensures forall p :: p in c <==> p in eligible && IntervalOf(last, p, current) == m
    ensures (exists k :: 0 <= k < |eligible| && IntervalOf(last, eligible[k], current) == m) ==> c != []
  {
    if eligible == [] then []
    else
      (if IntervalOf(last, eligible[0], current) == m then [eligible[0]] else [])
      + Candidates(eligible[1..], last, current, m)
  }

  /** The candidates keep list order: those of a concatenation are the
      candidates of each part, concatenated. */
  lemma {:induction false} CandidatesAppend(a: seq<string>, b: seq<string>, last: map<string, int>, current: int,
                                            m: Interval)
    ensures Candidates(a + b, last, current, m) == Candidates(a, last, current, m) + Candidates(b, last, current, m)
    decreases |a|
  {
    if a == [] {
      assert a + b == b;
    } else {
      assert (a + b)[0] == a[0];
      assert (a + b)[1..] == a[1..] + b;
      CandidatesAppend(a[1..], b, last, current, m);
    }
  }

  /** The candidates among one person: that person exactly when their
      interval equals `m`. */
  lemma CandidatesSingle(p: string, last: map<string, int>, current: int, m: Interval)
    ensures Candidates([p], last, current, m) == if IntervalOf(last, p, current) == m then [p] else []
  {
    assert [p][1..] == [];
  }

  /** `select_person`: None for an empty list; otherwise one of the people
      with the longest interval. `draw` stands for the value `random.choice`
      draws; the pick is the candidate at `draw` modulo their number. */
  function SelectPerson(eligible: seq<string>, last: map<string, int>, current: int, draw: nat): (r: Option<string>)
    ensures r == None <==> eligible == []
    ensures r.Some? ==> r.value in eligible
    ensures r.Some? ==> forall p :: p in eligible ==>
              AtMost(IntervalOf(last, p, current), IntervalOf(last, r.value, current))
  {
    if eligible == [] then None
    else
      var m := MaxInterval(eligible, last, current);
      var c := Candidates(eligible, last, current, m);
      Some(c[draw % |c|])
  }

  /** The random tie-break can produce every eligible person of maximal
      interval: no tied person is excluded by the selector. */
  lemma {:induction false} EveryTieReachable(eligible: seq<string>, last: map<string, int>, current: int, p: string)
    requires p in eligible
    requires forall q :: q in eligible ==> AtMost(IntervalOf(last, q, current), IntervalOf(last, p, current))
    ensures exists draw: nat :: SelectPerson(eligible, last, current, draw) == Some(p)
  {
    var m := MaxInterval(eligible, last, current);
    var k :| 0 <= k < |eligible| && IntervalOf(last, eligible[k], current) == m;
    var ip := IntervalOf(last, p, current);
    assert AtMost(ip, m);
    assert AtMost(IntervalOf(last, eligible[k], current), ip);
    AtMostTotalOrder(ip, m, m);
    assert ip == m;
    var c := Candidates(eligible, last, current, m);
    assert p in c;
    var i :| 0 <= i < |c| && c[i] == p;
    SmallModulus(i, |c|);
    assert SelectPerson(eligible, last, current, i) == Some(p);
  }

  lemma SmallModulus(i: nat, n: nat)
    requires i < n
    ensures i % n == i
  {
  }
}
