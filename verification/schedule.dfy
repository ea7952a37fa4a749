/** The weekly duty-rotation engine (`generate_schedule`) as functions: the
    state one week works on, the step from one week to the next and the run
    over the whole horizon. The imperative procedure in module Generator is
    proved equal to `Generate`; module ScheduleProperties proves what the
    schedule guarantees. */
module Schedule {
  import opened Wrappers
  import opened Intervals
  import opened Selection

  /** Smallest number of days between two assignments of one person. */
  const MinInterval: int := 30
  /** Weeks from the schedule start before a newcomer may serve. */
  const NewcomerWaitWeeks: int := 26
  /** Days between two consecutive scheduled weeks. */
  const DaysPerWeek: int := 7
  /** Day numbers count as Python's `date.toordinal` does (0001-01-01 is
      day 1); this is 9999-12-31, the last date Python's `date` can hold. */
  const LastDay: int := 3652059

  /** A roster entry: a name and whether the person is new. */
  datatype Person = Person(name: string, isNew: bool)

  /** One produced week: its date (a day number) and the two people on duty. */
  datatype ScheduleWeek = ScheduleWeek(date: int, firstPriority: string, secondPriority: string)

  /** The three ways generation fails: a name in both queues, a queue with
      nobody eligible this week, or a next week past the last representable
      date (the `OverflowError` of the date increment). */
  datatype Error = DuplicateMembers | InsufficientPersonnel | DateOverflow

  /** Everything `generate_schedule` keeps between weeks. `order` lists the
      keys of `intervals` in the order they were created, which is the order
      the summary iterates them in. */
  datatype State = State(
    first: seq<string>,
    second: seq<string>,
    newcomers: set<string>,
    served: set<string>,
    last: map<string, int>,
    intervals: map<string, seq<int>>,
    order: seq<string>,
    date: int,
    week: nat)

  /** What a successful run returns: the schedule and the interval lists. */
  datatype Output = Output(schedule: seq<ScheduleWeek>, intervals: map<string, seq<int>>, order: seq<string>)

  // ---------------------------------------------------------------- roster

  /** The roster's names, in roster order. */
  function Names(personnel: seq<Person>): (names: seq<string>)
    ensures |names| == |personnel|
    ensures forall i :: 0 <= i < |personnel| ==> names[i] == personnel[i].name
  {
    if personnel == [] then []
    else Names(personnel[..|personnel| - 1]) + [personnel[|personnel| - 1].name]
  }

  /** The names of the people flagged as new. */
  function NewcomerNames(personnel: seq<Person>): (n: set<string>)
    ensures forall x :: x in n <==>
              exists i :: 0 <= i < |personnel| && personnel[i].isNew && personnel[i].name == x
  {
    if personnel == [] then {}
    else
      var rest := NewcomerNames(personnel[..|personnel| - 1]);
      var p := personnel[|personnel| - 1];
      if p.isNew then rest + {p.name} else rest
  }

  /** The names of `q` that are not newcomers, in order: the comprehension
      that fills the first queue. */
  function WithoutNewcomers(q: seq<string>, newcomers: set<string>): (r: seq<string>)
    ensures forall x :: x in r <==> x in q && x !in newcomers
    ensures multiset(r) <= multiset(q)
  {
    if q == [] then []
    else
      var rest := WithoutNewcomers(q[..|q| - 1], newcomers);
      assert q == q[..|q| - 1] + [q[|q| - 1]];
      if q[|q| - 1] in newcomers then rest else rest + [q[|q| - 1]]
  }

  /** The filter keeps the order of its input: filtering a concatenation
      filters each part and concatenates the results. */
  lemma {:induction false} WithoutNewcomersAppend(a: seq<string>, b: seq<string>, newcomers: set<string>)
    ensures WithoutNewcomers(a + b, newcomers) == WithoutNewcomers(a, newcomers) + WithoutNewcomers(b, newcomers)
    decreases |b|
  {
    if b == [] {
      assert a + b == a;
    } else {
      var front := b[..|b| - 1];
      assert (a + b)[..|a + b| - 1] == a + front;
      assert (a + b)[|a + b| - 1] == b[|b| - 1];
      WithoutNewcomersAppend(a, front, newcomers);
    }
  }

  /** The filter on one name: a newcomer is dropped, anyone else kept. */
  lemma WithoutNewcomersSingle(x: string, newcomers: set<string>)
    ensures WithoutNewcomers([x], newcomers) == if x in newcomers then [] else [x]
  {
    assert [x][..0] == [];
  }

  /** The state before the first week. `shuffled` is the roster's names after
      `random.shuffle`; the first queue takes the non-newcomers among its
      first half, the second queue its whole second half. */
  function InitialState(personnel: seq<Person>, shuffled: seq<string>, startDate: int): State
  {
    var newcomers := NewcomerNames(personnel);
    var mid := |shuffled| / 2;
    State(WithoutNewcomers(shuffled[..mid], newcomers), shuffled[mid..], newcomers, {},
          map[], map[], [], startDate, 0)
  }

  // ---------------------------------------------------------------- queues

  /** Position of the first occurrence of `x` in `q`. */
  function IndexOf(q: seq<string>, x: string): (k: nat)
    requires x in q
    ensures k < |q| && q[k] == x && x !in q[..k]
  {
    if q[0] == x then 0
    else
      var k := 1 + IndexOf(q[1..], x);
      assert q[..k] == [q[0]] + q[1..][..k - 1];
      k
  }

  /** `deque.remove`: `q` without the first occurrence of `x`; everything
      else keeps its order. */
  function Remove(q: seq<string>, x: string): (r: seq<string>)
    requires x in q
    ensures exists k :: 0 <= k < |q| && q[k] == x && x !in q[..k] && r == q[..k] + q[k + 1..]
    ensures |r| == |q| - 1
    ensures multiset(r) == multiset(q) - multiset{x}
  {
    var k := IndexOf(q, x);
    assert q == q[..k] + [q[k]] + q[k + 1..];
    q[..k] + q[k + 1..]
  }

  // ----------------------------------------------------------- eligibility

  /** The first-priority rules, tried in the source's order: a newcomer who
      has not served second priority, a newcomer inside the waiting weeks,
      and anyone assigned fewer than MinInterval days ago is ineligible. */
  predicate FitsFirst(p: string, newcomers: set<string>, served: set<string>, week: int,
                      last: map<string, int>, date: int)
  {
    if p in newcomers && p !in served then false
    else if p in newcomers && week < NewcomerWaitWeeks then false
    else !Below(IntervalOf(last, p, date), MinInterval)
  }

  /** The second-priority rules: the waiting weeks and the spacing rule. */
  predicate FitsSecond(p: string, newcomers: set<string>, week: int, last: map<string, int>, date: int)
  {
    if p in newcomers && week < NewcomerWaitWeeks then false
    else !Below(IntervalOf(last, p, date), MinInterval)
  }

  /** `eligible_first`: the members of the first queue that fit, in queue order. */
  function EligibleFirst(q: seq<string>, newcomers: set<string>, served: set<string>, week: int,
                         last: map<string, int>, date: int): (e: seq<string>)
    ensures forall p :: p in e <==> p in q && FitsFirst(p, newcomers, served, week, last, date)
  {
    if q == [] then []
    else
      var p := q[|q| - 1];
      assert q == q[..|q| - 1] + [p];
      EligibleFirst(q[..|q| - 1], newcomers, served, week, last, date)
      + (if FitsFirst(p, newcomers, served, week, last, date) then [p] else [])
  }

  /** `eligible_second`: the members of the second queue that fit, in queue order. */
  function EligibleSecond(q: seq<string>, newcomers: set<string>, week: int,
                          last: map<string, int>, date: int): (e: seq<string>)
    ensures forall p :: p in e <==> p in q && FitsSecond(p, newcomers, week, last, date)
  {
    if q == [] then []
    else
      var p := q[|q| - 1];
      assert q == q[..|q| - 1] + [p];
      EligibleSecond(q[..|q| - 1], newcomers, week, last, date)
      + (if FitsSecond(p, newcomers, week, last, date) then [p] else [])
  }

  // ------------------------------------------------------------ one week

  /** One pass of the interval-recording loop for `p` on `s.date`: a gap is
      appended to `p`'s list when `p` was assigned before, then the date is
      recorded. */
  function Record(s: State, p: string): (r: State)
    ensures r.last == s.last[p := s.date]
    ensures r == s.(last := r.last, intervals := r.intervals, order := r.order)
  {
    if p in s.last then
      var history := if p in s.intervals then s.intervals[p] else [];
      s.(intervals := s.intervals[p := history + [s.date - s.last[p]]],
         order := if p in s.intervals then s.order else s.order + [p],
         last := s.last[p := s.date])
    else
      s.(last := s.last[p := s.date])
  }

  /** The recording loop over `people`, in order. */
  function RecordAll(s: State, people: seq<string>): (r: State)
    ensures r == s.(last := r.last, intervals := r.intervals, order := r.order)
  {
    if people == [] then s
    else Record(RecordAll(s, people[..|people| - 1]), people[|people| - 1])
  }

  /** The bookkeeping after `a` (first priority) and `b` (second priority)
      were picked: the served-second latch, the interval records, the queue
      rotation, and the next week and date. */
  function Advance(s: State, a: string, b: string): State
    requires a in s.first && b in s.second
  {
    var served := if b in s.newcomers then s.served + {b} else s.served;
    var booked := RecordAll(s.(served := served), [a, b]);
    var first := Remove(s.first, a);
    var second := Remove(s.second, b) + [a];
    var queues := if b in s.newcomers && b !in served then (first, second + [b])
                  else (first + [b], second);
    booked.(first := queues.0, second := queues.1, date := s.date + DaysPerWeek, week := s.week + 1)
  }

  /** One iteration of the weekly loop with the two draws of the tie-break.
      The date increment at its end fails when the next week would fall
      after LastDay; the exception discards the week just produced. */
  function WeekStep(s: State, firstDraw: nat, secondDraw: nat): Result<(ScheduleWeek, State), Error>
  {
    if CheckDuplicateMembers(s.first, s.second) != {} then Err(DuplicateMembers)
    else
      var eligibleFirst := EligibleFirst(s.first, s.newcomers, s.served, s.week, s.last, s.date);
      var eligibleSecond := EligibleSecond(s.second, s.newcomers, s.week, s.last, s.date);
      if eligibleFirst == [] || eligibleSecond == [] then Err(InsufficientPersonnel)
      else
        var a := SelectPerson(eligibleFirst, s.last, s.date, firstDraw).value;
        var b := SelectPerson(eligibleSecond, s.last, s.date, secondDraw).value;
        if s.date + DaysPerWeek > LastDay then Err(DateOverflow)
        else Ok((ScheduleWeek(s.date, a, b), Advance(s, a, b)))
  }

  /** The weekly loop from state `s` with `schedule` produced so far, until
      `weeks` entries exist. Week `i` uses draws `2 * i` (first priority) and
      `2 * i + 1` (second priority). */
  function Run(s: State, schedule: seq<ScheduleWeek>, weeks: int, draws: nat -> nat): Result<Output, Error>
    decreases weeks - |schedule|
  {
    if |schedule| >= weeks then Ok(Output(schedule, s.intervals, s.order))
    else
      match WeekStep(s, draws(2 * |schedule|), draws(2 * |schedule| + 1))
      case Err(e) => Err(e)
      case Ok((w, next)) => Run(next, schedule + [w], weeks, draws)
  }

  /** `generate_schedule` as a function of its inputs and of the random choices. */
  function Generate(personnel: seq<Person>, shuffled: seq<string>, startDate: int, weeks: int,
                    draws: nat -> nat): Result<Output, Error>
  {
    Run(InitialState(personnel, shuffled, startDate), [], weeks, draws)
  }
}
