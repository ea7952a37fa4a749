/** What the rotation engine guarantees: how the queues start, what one week
    does to them, and what every schedule `Generate` returns satisfies. */
module ScheduleProperties {
  import opened Wrappers
  import opened Intervals
  import opened Selection
  import opened Schedule

  /** Every name occurs at most once. The source never checks this of the
      roster; the guarantees below assume it. */
  ghost predicate Distinct(names: seq<string>)
  {
    forall x :: multiset(names)[x] <= 1
  }

  /** `p` holds one of the two roles of week `w`. */
  predicate Assigned(w: ScheduleWeek, p: string)
  {
    w.firstPriority == p || w.secondPriority == p
  }

  /** The dates on which `p` was assigned, in schedule order. */
  function Dates(schedule: seq<ScheduleWeek>, p: string): seq<int>
  {
    if schedule == [] then []
    else
      var w := schedule[|schedule| - 1];
      Dates(schedule[..|schedule| - 1], p) + (if Assigned(w, p) then [w.date] else [])
  }

  /** The differences between consecutive dates. */
  function Gaps(dates: seq<int>): seq<int>
  {
    if dates == [] then []
    else seq(|dates| - 1, k requires 0 <= k < |dates| - 1 => dates[k + 1] - dates[k])
  }

  /** The people who held second priority in some week of `schedule`. */
  function SecondRoles(schedule: seq<ScheduleWeek>): set<string>
  {
    if schedule == [] then {}
    else SecondRoles(schedule[..|schedule| - 1]) + {schedule[|schedule| - 1].secondPriority}
  }

  /** The roles of a schedule: dates a week apart from `startDate`, two
      different people each week, newcomers only from week NewcomerWaitWeeks
      on and in first priority only after a second-priority turn, and
      MinInterval days at least between two assignments of one person. */
  ghost predicate RolesHold(startDate: int, newcomers: set<string>, schedule: seq<ScheduleWeek>)
  {
    && (forall i :: 0 <= i < |schedule| ==> schedule[i].date == startDate + DaysPerWeek * i)
    && (forall i :: 0 <= i < |schedule| ==> schedule[i].firstPriority != schedule[i].secondPriority)
    && (forall i :: 0 <= i < |schedule| && schedule[i].firstPriority in newcomers ==> i >= NewcomerWaitWeeks)
    && (forall i :: 0 <= i < |schedule| && schedule[i].secondPriority in newcomers ==> i >= NewcomerWaitWeeks)
    && (forall i :: 0 <= i < |schedule| && schedule[i].firstPriority in newcomers ==>
          schedule[i].firstPriority in SecondRoles(schedule[..i]))
    && (forall i, j, p :: 0 <= i < j < |schedule| && Assigned(schedule[i], p) && Assigned(schedule[j], p) ==>
          schedule[j].date - schedule[i].date >= MinInterval)
  }

  /** The interval lists produced with a schedule: a list for exactly the
      people assigned at least twice, holding the gaps between their
      assignment dates (each at least MinInterval), keyed in `order`. */
  ghost predicate GapsRecorded(schedule: seq<ScheduleWeek>, intervals: map<string, seq<int>>, order: seq<string>)
  {
    && (forall p :: p in intervals <==> |Dates(schedule, p)| >= 2)
    && (forall p :: p in intervals ==> intervals[p] == Gaps(Dates(schedule, p)))
    && (forall p, k :: p in intervals && 0 <= k < |intervals[p]| ==> intervals[p][k] >= MinInterval)
    && (forall p :: p in intervals <==> p in order)
  }

  /** The recorded gaps, with their keys listed in creation order. */
  ghost predicate LedgerHolds(schedule: seq<ScheduleWeek>, intervals: map<string, seq<int>>, order: seq<string>)
  {
    GapsRecorded(schedule, intervals, order) && KeysInOrder(schedule, order)
  }

  /** The keys of the interval lists in creation order: each person once, in
      the order of their second assignment, and of two people whose second
      assignment is the same week, first priority before second priority. */
  ghost predicate KeysInOrder(schedule: seq<ScheduleWeek>, order: seq<string>)
  {
    && (forall i :: 0 <= i < |order| ==> |Dates(schedule, order[i])| >= 2)
    && (forall i, j :: 0 <= i < j < |order| ==>
          && order[i] != order[j]
          && (|| Dates(schedule, order[i])[1] < Dates(schedule, order[j])[1]
              || (&& Dates(schedule, order[i])[1] == Dates(schedule, order[j])[1]
                  && exists k :: 0 <= k < |schedule| &&
                       schedule[k] == ScheduleWeek(Dates(schedule, order[i])[1], order[i], order[j]))))
  }

  /** What holds of a schedule and of the interval lists produced with it. */
  ghost predicate ScheduleInvariant(startDate: int, newcomers: set<string>, schedule: seq<ScheduleWeek>,
                                    intervals: map<string, seq<int>>, order: seq<string>)
  {
    RolesHold(startDate, newcomers, schedule) && LedgerHolds(schedule, intervals, order)
  }

  /** What holds of the state between weeks, given the multiset `pool` of
      names in the two queues (each name at most once). */
  ghost predicate StateInvariant(startDate: int, pool: multiset<string>, s: State, schedule: seq<ScheduleWeek>)
  {
    && (forall x :: pool[x] <= 1)
    && multiset(s.first) + multiset(s.second) == pool
    && s.week == |schedule| && s.date == startDate + DaysPerWeek * |schedule|
    && (forall x :: x in s.served ==> x in SecondRoles(schedule))
    && LedgerInvariant(s, schedule)
    && RolesHold(startDate, s.newcomers, schedule)
  }

  /** Every person's bookkeeping agrees with the schedule, and everyone
      assigned so far has a last date no earlier than each assignment. */
  ghost predicate EntriesAgree(s: State, schedule: seq<ScheduleWeek>)
  {
    && (forall p :: EntryMatches(s, schedule, p))
    && (forall i, p :: 0 <= i < |schedule| && Assigned(schedule[i], p) ==> p in s.last && schedule[i].date <= s.last[p])
  }

  /** The bookkeeping agrees with the schedule, keys in creation order. */
  ghost predicate LedgerInvariant(s: State, schedule: seq<ScheduleWeek>)
  {
    EntriesAgree(s, schedule) && KeysInOrder(schedule, s.order)
  }

  // ------------------------------------------------------------ helpers

  lemma DatesAppend(schedule: seq<ScheduleWeek>, w: ScheduleWeek, p: string)
    ensures Dates(schedule + [w], p) == Dates(schedule, p) + (if Assigned(w, p) then [w.date] else [])
  {
    assert (schedule + [w])[..|schedule|] == schedule;
  }

  lemma GapsAppend(dates: seq<int>, d: int)
    requires dates != []
    ensures Gaps(dates + [d]) == Gaps(dates) + [d - dates[|dates| - 1]]
  {
    var g := Gaps(dates + [d]);
    assert |g| == |dates|;
    forall k | 0 <= k < |dates|
      ensures g[k] == (Gaps(dates) + [d - dates[|dates| - 1]])[k]
    {
    }
  }

  lemma SecondRolesAppend(schedule: seq<ScheduleWeek>, w: ScheduleWeek)
    ensures SecondRoles(schedule + [w]) == SecondRoles(schedule) + {w.secondPriority}
  {
    assert (schedule + [w])[..|schedule|] == schedule;
  }

  lemma RecordPair(s: State, a: string, b: string)
    ensures RecordAll(s, [a, b]) == Record(Record(s, a), b)
  {
    assert [a, b][..1] == [a];
    assert [a][..0] == [];
    assert RecordAll(s, []) == s;
    assert RecordAll(s, [a]) == Record(s, a);
  }

  /** With each pooled name at most once, a name in the first queue is not
      in the second. */
  lemma NotInBoth(pool: multiset<string>, first: seq<string>, second: seq<string>, x: string)
    requires forall y :: pool[y] <= 1
    requires multiset(first) + multiset(second) == pool
    requires x in first
    ensures x !in second
  {
    assert multiset(first)[x] >= 1;
    assert pool[x] == multiset(first)[x] + multiset(second)[x];
    assert multiset(second)[x] == 0;
  }

  lemma QueuesDisjoint(pool: multiset<string>, first: seq<string>, second: seq<string>)
    requires forall x :: pool[x] <= 1
    requires multiset(first) + multiset(second) == pool
    ensures forall x :: x in first ==> x !in second
    ensures CheckDuplicateMembers(first, second) == {}
  {
    forall x | x in first
      ensures x !in second
    {
      NotInBoth(pool, first, second, x);
    }
  }

  // ---------------------------------------------------------- start state

  /** Queue initialisation: the second queue is the second half of the
      shuffled roster, the first queue holds exactly the non-newcomers of the
      first half, and no name is in the queues more often than in the roster. */
  lemma InitialQueues(personnel: seq<Person>, shuffled: seq<string>, startDate: int)
    requires multiset(shuffled) == multiset(Names(personnel))
    ensures var s := InitialState(personnel, shuffled, startDate);
            && s.second == shuffled[|shuffled| / 2..]
            && (forall x :: x in s.first <==> x in shuffled[..|shuffled| / 2] && x !in s.newcomers)
            && s.newcomers == NewcomerNames(personnel)
            && s.served == {} && s.last == map[] && s.intervals == map[] && s.order == []
            && s.date == startDate && s.week == 0
  {
  }

  /** The initial queues hold no name more often than the roster does. */
  lemma InitialQueuesWithinRoster(personnel: seq<Person>, shuffled: seq<string>, startDate: int)
    requires multiset(shuffled) == multiset(Names(personnel))
    ensures var s := InitialState(personnel, shuffled, startDate);
            multiset(s.first) + multiset(s.second) <= multiset(Names(personnel))
  {
    var mid := |shuffled| / 2;
    var front, back := shuffled[..mid], shuffled[mid..];
    assert shuffled == front + back;
    assert multiset(shuffled) == multiset(front) + multiset(back);
    assert multiset(WithoutNewcomers(front, NewcomerNames(personnel))) <= multiset(front);
  }

  /** The first queue is the first half of the shuffle through the
      order-keeping newcomer filter. */
  lemma InitialFirstQueue(personnel: seq<Person>, shuffled: seq<string>, startDate: int)
    ensures InitialState(personnel, shuffled, startDate).first
         == WithoutNewcomers(shuffled[..|shuffled| / 2], NewcomerNames(personnel))
  {
  }

  /** With unique names the initial queues share no name, and no name is in
      them twice. */
  lemma InitialQueuesDisjoint(personnel: seq<Person>, shuffled: seq<string>, startDate: int)
    requires multiset(shuffled) == multiset(Names(personnel))
    requires Distinct(Names(personnel))
    ensures var s := InitialState(personnel, shuffled, startDate);
            && (forall x :: (multiset(s.first) + multiset(s.second))[x] <= 1)
            && (forall x :: x in s.first ==> x !in s.second)
  {
    var s := InitialState(personnel, shuffled, startDate);
    InitialQueuesWithinRoster(personnel, shuffled, startDate);
    var pool := multiset(s.first) + multiset(s.second);
    forall x
      ensures pool[x] <= 1
    {
      assert pool[x] <= multiset(Names(personnel))[x];
    }
    QueuesDisjoint(pool, s.first, s.second);
  }

  /** A newcomer whom the shuffle puts in the first half ends up in neither
      queue: the queues need not cover the roster. */
  lemma FirstHalfNewcomerIsDropped(personnel: seq<Person>, shuffled: seq<string>, startDate: int, x: string)
    requires multiset(shuffled) == multiset(Names(personnel))
    requires Distinct(Names(personnel))
    requires x in shuffled[..|shuffled| / 2] && x in NewcomerNames(personnel)
    ensures x in Names(personnel)
    ensures x !in InitialState(personnel, shuffled, startDate).first
    ensures x !in InitialState(personnel, shuffled, startDate).second
  {
    var mid := |shuffled| / 2;
    assert shuffled == shuffled[..mid] + shuffled[mid..];
    assert multiset(shuffled)[x] == multiset(shuffled[..mid])[x] + multiset(shuffled[mid..])[x];
    assert multiset(shuffled[..mid])[x] >= 1;
    assert multiset(Names(personnel))[x] <= 1;
    assert multiset(shuffled[mid..])[x] == 0;
    assert x in multiset(Names(personnel));
  }

  /** With a newcomer and one other person, shuffled newcomer first, the
      newcomer disappears and the first week already fails. */
  lemma TwoPersonRosterFails(draws: nat -> nat)
    ensures var personnel := [Person("N", true), Person("A", false)];
            var s := InitialState(personnel, ["N", "A"], 0);
            && s.first == [] && s.second == ["A"]
            && Generate(personnel, ["N", "A"], 0, 1, draws) == Err(InsufficientPersonnel)
  {
    var personnel := [Person("N", true), Person("A", false)];
    assert NewcomerNames(personnel) == {"N"} by {
      assert personnel[..1] == [Person("N", true)];
      assert personnel[..1][..0] == [];
    }
    assert ["N", "A"][..1] == ["N"];
    assert ["N"][..0] == [];
    assert ["N", "A"][1..] == ["A"];
    var s := InitialState(personnel, ["N", "A"], 0);
    assert s.first == [];
    assert EligibleFirst(s.first, s.newcomers, s.served, s.week, s.last, s.date) == [];
  }

  /** Two regulars shuffled as A, B: A alone in the first queue, B alone
      in the second. */
  lemma TwoRegularsStart(startDate: int)
    ensures InitialState([Person("A", false), Person("B", false)], ["A", "B"], startDate)
         == State(["A"], ["B"], {}, {}, map[], map[], [], startDate, 0)
  {
    var personnel := [Person("A", false), Person("B", false)];
    assert NewcomerNames(personnel) == {} by {
      assert personnel[..1] == [Person("A", false)];
      assert personnel[..1][..0] == [];
    }
    assert ["A", "B"][..1] == ["A"];
    assert ["A"][..0] == [];
    assert ["A", "B"][1..] == ["B"];
  }

  /** Two regulars starting the day before the last representable date:
      the first week is found, but the date increment after it fails, so
      no schedule comes back. */
  lemma LastWeekOverflows(draws: nat -> nat)
    ensures Generate([Person("A", false), Person("B", false)], ["A", "B"], LastDay - 1, 1, draws)
         == Err(DateOverflow)
  {
    TwoRegularsStart(LastDay - 1);
    var s := State(["A"], ["B"], {}, {}, map[], map[], [], LastDay - 1, 0);
    assert CheckDuplicateMembers(s.first, s.second) == {};
    assert "A" in EligibleFirst(s.first, s.newcomers, s.served, s.week, s.last, s.date);
    assert "B" in EligibleSecond(s.second, s.newcomers, s.week, s.last, s.date);
    assert WeekStep(s, draws(0), draws(1)) == Err(DateOverflow);
  }

  // ------------------------------------------------------------ one week

  /** One week: it fails on a name in both queues, else on an empty eligible
      list, else on a next week past LastDay, else it picks from each queue
      an eligible person whose interval no other eligible member of that
      queue exceeds, and moves to `Advance` of the two picks. */
  lemma WeekStepOutcome(s: State, firstDraw: nat, secondDraw: nat)
    ensures WeekStep(s, firstDraw, secondDraw) == Err(DuplicateMembers) <==>
              exists x :: x in s.first && x in s.second
    ensures WeekStep(s, firstDraw, secondDraw) == Err(InsufficientPersonnel) <==>
              && (forall x :: x in s.first ==> x !in s.second)
              && (|| EligibleFirst(s.first, s.newcomers, s.served, s.week, s.last, s.date) == []
                  || EligibleSecond(s.second, s.newcomers, s.week, s.last, s.date) == [])
    ensures WeekStep(s, firstDraw, secondDraw) == Err(DateOverflow) <==>
              && (forall x :: x in s.first ==> x !in s.second)
              && EligibleFirst(s.first, s.newcomers, s.served, s.week, s.last, s.date) != []
              && EligibleSecond(s.second, s.newcomers, s.week, s.last, s.date) != []
              && s.date + DaysPerWeek > LastDay
    ensures WeekStep(s, firstDraw, secondDraw).Ok? ==>
              var w := WeekStep(s, firstDraw, secondDraw).value.0;
              var a, b := w.firstPriority, w.secondPriority;
              && w.date == s.date && s.date + DaysPerWeek <= LastDay
              && a in s.first && FitsFirst(a, s.newcomers, s.served, s.week, s.last, s.date)
              && b in s.second && FitsSecond(b, s.newcomers, s.week, s.last, s.date)
              && (forall p :: p in s.first && FitsFirst(p, s.newcomers, s.served, s.week, s.last, s.date) ==>
                    AtMost(IntervalOf(s.last, p, s.date), IntervalOf(s.last, a, s.date)))
              && (forall p :: p in s.second && FitsSecond(p, s.newcomers, s.week, s.last, s.date) ==>
                    AtMost(IntervalOf(s.last, p, s.date), IntervalOf(s.last, b, s.date)))
              && WeekStep(s, firstDraw, secondDraw).value.1 == Advance(s, a, b)
  {
    var dups := CheckDuplicateMembers(s.first, s.second);
    if dups != {} {
      var x :| x in dups;
      assert x in s.first && x in s.second;
    }
  }

  /** Queue rotation: the first-priority pick leaves the first queue for the
      tail of the second, the second-priority pick leaves the second queue
      for the tail of the first (the source's branch that would send a
      newcomer back to the second queue never runs), and both queue lengths
      and the pooled names stay the same. */
  lemma AdvanceRotates(s: State, a: string, b: string)
    requires a in s.first && b in s.second
    ensures var next := Advance(s, a, b);
            && next.first == Remove(s.first, a) + [b]
            && next.second == Remove(s.second, b) + [a]
            && |next.first| == |s.first| && |next.second| == |s.second|
            && multiset(next.first) + multiset(next.second) == multiset(s.first) + multiset(s.second)
            && next.served == (if b in s.newcomers then s.served + {b} else s.served)
            && next.newcomers == s.newcomers
            && next.date == s.date + DaysPerWeek && next.week == s.week + 1
  {
    var next := Advance(s, a, b);
    var booked := RecordAll(s.(served := next.served), [a, b]);
    RecordPair(s.(served := next.served), a, b);
    assert booked.newcomers == s.newcomers;
  }

  /** The bookkeeping of person `p` agrees with the schedule: the last date
      is the date of their latest week, the interval list holds the gaps
      between their weeks (present once there are two weeks), each gap is at
      least MinInterval, and the list's key is in `order`. */
  ghost predicate EntryMatches(s: State, schedule: seq<ScheduleWeek>, p: string)
  {
    var ds := Dates(schedule, p);
    && (p in s.last <==> ds != [])
    && (p in s.last ==> s.last[p] == ds[|ds| - 1])
    && (p in s.intervals <==> |ds| >= 2)
    && (p in s.intervals ==> s.intervals[p] == Gaps(ds))
    && (p in s.intervals ==> forall k :: 0 <= k < |s.intervals[p]| ==> s.intervals[p][k] >= MinInterval)
    && (p in s.intervals <==> p in s.order)
  }

  /** `s` and `t` hold the same bookkeeping for `p`. */
  ghost predicate SameEntry(s: State, t: State, p: string)
  {
    && (p in s.last <==> p in t.last)
    && (p in s.last ==> s.last[p] == t.last[p])
    && (p in s.intervals <==> p in t.intervals)
    && (p in s.intervals ==> s.intervals[p] == t.intervals[p])
    && (p in s.order <==> p in t.order)
  }

  lemma RecordOther(s: State, p: string, q: string)
    requires p != q
    ensures SameEntry(Record(s, p), s, q)
  {
  }

  lemma UntouchedEntry(s: State, t: State, schedule: seq<ScheduleWeek>, w: ScheduleWeek, p: string)
    requires EntryMatches(s, schedule, p) && SameEntry(t, s, p) && !Assigned(w, p)
    ensures EntryMatches(t, schedule + [w], p)
  {
    DatesAppend(schedule, w, p);
  }

  /** Recording an assignment of `p` that meets the spacing rule extends
      `p`'s bookkeeping by the new week. */
  lemma RecordEntry(s: State, t: State, schedule: seq<ScheduleWeek>, w: ScheduleWeek, p: string)
    requires EntryMatches(t, schedule, p) && SameEntry(s, t, p)
    requires Assigned(w, p) && w.date == s.date
    requires !Below(IntervalOf(s.last, p, s.date), MinInterval)
    ensures EntryMatches(Record(s, p), schedule + [w], p)
  {
    DatesAppend(schedule, w, p);
    if p in s.last {
      RecordRepeat(s, Dates(schedule, p), p);
    } else {
      assert Dates(schedule, p) == [];
    }
  }

  /** Recording a person assigned before, whose assignment dates so far are
      `ds`, appends the gap since the last of them. */
  lemma RecordRepeat(s: State, ds: seq<int>, p: string)
    requires p in s.last && ds != [] && s.last[p] == ds[|ds| - 1]
    requires p in s.intervals <==> |ds| >= 2
    requires p in s.intervals ==> s.intervals[p] == Gaps(ds)
    requires p in s.intervals ==> forall k :: 0 <= k < |s.intervals[p]| ==> s.intervals[p][k] >= MinInterval
    requires p in s.intervals <==> p in s.order
    requires s.date - s.last[p] >= MinInterval
    ensures var r := Record(s, p);
            && p in r.last && r.last[p] == s.date
            && p in r.intervals && r.intervals[p] == Gaps(ds + [s.date])
            && (forall k :: 0 <= k < |r.intervals[p]| ==> r.intervals[p][k] >= MinInterval)
            && p in r.order
  {
    var r := Record(s, p);
    GapsAppend(ds, s.date);
    var history := if p in s.intervals then s.intervals[p] else [];
    assert history == Gaps(ds);
    assert r.intervals[p] == history + [s.date - s.last[p]];
  }

  /** Recording two different picks who meet the spacing rule keeps the
      entry of any one person `p` in step with the extended schedule. */
  lemma RecordPairEntry(s: State, schedule: seq<ScheduleWeek>, a: string, b: string, p: string)
    requires EntryMatches(s, schedule, p)
    requires a != b
    requires !Below(IntervalOf(s.last, a, s.date), MinInterval)
    requires !Below(IntervalOf(s.last, b, s.date), MinInterval)
    ensures EntryMatches(Record(Record(s, a), b), schedule + [ScheduleWeek(s.date, a, b)], p)
  {
    var w := ScheduleWeek(s.date, a, b);
    var schedule' := schedule + [w];
    var r1 := Record(s, a);
    var r := Record(r1, b);
    if p == a {
      RecordEntry(s, s, schedule, w, a);
      RecordOther(r1, b, a);
      assert EntryMatches(r1, schedule', a);
    } else if p == b {
      RecordOther(s, a, b);
      RecordEntry(r1, s, schedule, w, b);
    } else {
      RecordOther(s, a, p);
      RecordOther(r1, b, p);
      UntouchedEntry(s, r, schedule, w, p);
    }
  }

  /** The interval bookkeeping of one week, for two different picks that
      both meet the spacing rule, keeps every person's entry in step with
      the schedule. */
  lemma RecordKeepsLedger(startDate: int, s: State, schedule: seq<ScheduleWeek>, a: string, b: string)
    requires s.date == startDate + DaysPerWeek * |schedule|
    requires forall i :: 0 <= i < |schedule| ==> schedule[i].date == startDate + DaysPerWeek * i
    requires forall p :: EntryMatches(s, schedule, p)
    requires forall i, p :: 0 <= i < |schedule| && Assigned(schedule[i], p) ==> p in s.last && schedule[i].date <= s.last[p]
    requires a != b
    requires !Below(IntervalOf(s.last, a, s.date), MinInterval)
    requires !Below(IntervalOf(s.last, b, s.date), MinInterval)
    ensures EntriesAgree(RecordAll(s, [a, b]), schedule + [ScheduleWeek(s.date, a, b)])
  {
    AllEntriesStep(s, schedule, a, b);
    RecordLastDates(startDate, s, schedule, a, b);
  }

  /** After recording the picks, every assignment so far lies on or before
      the person's last date. */
  lemma RecordLastDates(startDate: int, s: State, schedule: seq<ScheduleWeek>, a: string, b: string)
    requires s.date == startDate + DaysPerWeek * |schedule|
    requires forall i :: 0 <= i < |schedule| ==> schedule[i].date == startDate + DaysPerWeek * i
    requires forall i, p :: 0 <= i < |schedule| && Assigned(schedule[i], p) ==> p in s.last && schedule[i].date <= s.last[p]
    ensures forall i, p :: 0 <= i < |schedule + [ScheduleWeek(s.date, a, b)]|
                           && Assigned((schedule + [ScheduleWeek(s.date, a, b)])[i], p) ==>
              p in RecordAll(s, [a, b]).last
              && (schedule + [ScheduleWeek(s.date, a, b)])[i].date <= RecordAll(s, [a, b]).last[p]
  {
    RecordPair(s, a, b);
    assert RecordAll(s, [a, b]).last == s.last[a := s.date][b := s.date];
    LastDatesStep(startDate, s.last, schedule, s.date, a, b);
  }

  /** `RecordPairEntry` for every person at once. */
  lemma AllEntriesStep(s: State, schedule: seq<ScheduleWeek>, a: string, b: string)
    requires forall p :: EntryMatches(s, schedule, p)
    requires a != b
    requires !Below(IntervalOf(s.last, a, s.date), MinInterval)
    requires !Below(IntervalOf(s.last, b, s.date), MinInterval)
    ensures forall p :: EntryMatches(RecordAll(s, [a, b]), schedule + [ScheduleWeek(s.date, a, b)], p)
  {
    RecordPair(s, a, b);
    forall p
      ensures EntryMatches(Record(Record(s, a), b), schedule + [ScheduleWeek(s.date, a, b)], p)
    {
      RecordPairEntry(s, schedule, a, b, p);
    }
  }

  /** After a week on `date` (not before any earlier week) records its two
      picks' last dates, every assignment so far lies on or before the
      person's last date. */
  lemma LastDatesStep(startDate: int, last: map<string, int>, schedule: seq<ScheduleWeek>, date: int, a: string, b: string)
    requires date == startDate + DaysPerWeek * |schedule|
    requires forall i :: 0 <= i < |schedule| ==> schedule[i].date == startDate + DaysPerWeek * i
    requires forall i, p :: 0 <= i < |schedule| && Assigned(schedule[i], p) ==> p in last && schedule[i].date <= last[p]
    ensures forall i, p :: 0 <= i < |schedule + [ScheduleWeek(date, a, b)]|
                           && Assigned((schedule + [ScheduleWeek(date, a, b)])[i], p) ==>
              p in last[a := date][b := date]
              && (schedule + [ScheduleWeek(date, a, b)])[i].date <= last[a := date][b := date][p]
  {
    var schedule' := schedule + [ScheduleWeek(date, a, b)];
    forall i, p | 0 <= i < |schedule'| && Assigned(schedule'[i], p)
      ensures p in last[a := date][b := date] && schedule'[i].date <= last[a := date][b := date][p]
    {
      if i < |schedule| {
        assert schedule'[i] == schedule[i];
      }
    }
  }

  /** Every assignment date in `schedule` lies before `bound` when every
      week does. */
  lemma {:induction false} DatesBelow(schedule: seq<ScheduleWeek>, p: string, bound: int)
    requires forall i :: 0 <= i < |schedule| ==> schedule[i].date < bound
    ensures forall k :: 0 <= k < |Dates(schedule, p)| ==> Dates(schedule, p)[k] < bound
  {
    if schedule != [] {
      DatesBelow(schedule[..|schedule| - 1], p, bound);
    }
  }

  /** The keys recording two different picks adds: each pick assigned
      exactly once before, first priority first. */
  lemma RecordOrder(s: State, a: string, b: string)
    requires a != b
    ensures RecordAll(s, [a, b]).order
         == s.order + (if a in s.last && a !in s.intervals then [a] else [])
                    + (if b in s.last && b !in s.intervals then [b] else [])
  {
    RecordPair(s, a, b);
    var r1 := Record(s, a);
    RecordKey(s, a);
    RecordKey(r1, b);
    assert b in r1.last <==> b in s.last;
    assert b in r1.intervals <==> b in s.intervals;
  }

  /** Recording `p` appends `p` to the keys exactly when this is their
      second assignment. */
  lemma RecordKey(s: State, p: string)
    ensures Record(s, p).order == s.order + (if p in s.last && p !in s.intervals then [p] else [])
  {
  }

  /** Extending the schedule keeps the keys in order: the second
      assignment of a key's person is already in the schedule. */
  lemma KeysGrow(schedule: seq<ScheduleWeek>, w: ScheduleWeek, order: seq<string>)
    requires KeysInOrder(schedule, order)
    ensures KeysInOrder(schedule + [w], order)
  {
    var schedule' := schedule + [w];
    forall i | 0 <= i < |order|
      ensures |Dates(schedule', order[i])| >= 2
      ensures Dates(schedule', order[i])[1] == Dates(schedule, order[i])[1]
    {
      DatesAppend(schedule, w, order[i]);
    }
    forall i, j | 0 <= i < j < |order| && Dates(schedule, order[i])[1] == Dates(schedule, order[j])[1]
      ensures exists k :: 0 <= k < |schedule'| &&
                schedule'[k] == ScheduleWeek(Dates(schedule', order[i])[1], order[i], order[j])
    {
      var k :| 0 <= k < |schedule| && schedule[k] == ScheduleWeek(Dates(schedule, order[i])[1], order[i], order[j]);
      assert schedule'[k] == schedule[k];
    }
  }

  /** Appending the keys of people whose second assignment is the last
      week, after keys whose second assignment is earlier, keeps the keys
      in order. */
  lemma KeysExtend(schedule: seq<ScheduleWeek>, order: seq<string>, added: seq<string>)
    requires schedule != []
    requires KeysInOrder(schedule, order)
    requires forall i :: 0 <= i < |order| ==> Dates(schedule, order[i])[1] < schedule[|schedule| - 1].date
    requires forall x :: x in added ==> |Dates(schedule, x)| >= 2 && Dates(schedule, x)[1] == schedule[|schedule| - 1].date
    requires |added| <= 2
    requires |added| == 2 ==> schedule[|schedule| - 1] == ScheduleWeek(schedule[|schedule| - 1].date, added[0], added[1])
    requires |added| == 2 ==> added[0] != added[1]
    ensures KeysInOrder(schedule, order + added)
  {
    var all := order + added;
    var n := |schedule| - 1;
    forall i | 0 <= i < |all|
      ensures |Dates(schedule, all[i])| >= 2
      ensures i < |order| ==> all[i] == order[i] && Dates(schedule, all[i])[1] < schedule[n].date
      ensures i >= |order| ==> all[i] == added[i - |order|] && Dates(schedule, all[i])[1] == schedule[n].date
    {
      if i >= |order| {
        assert all[i] in added;
      }
    }
    forall i, j | 0 <= i < j < |all|
      ensures all[i] != all[j]
      ensures || Dates(schedule, all[i])[1] < Dates(schedule, all[j])[1]
              || (&& Dates(schedule, all[i])[1] == Dates(schedule, all[j])[1]
                  && exists k :: 0 <= k < |schedule| &&
                       schedule[k] == ScheduleWeek(Dates(schedule, all[i])[1], all[i], all[j]))
    {
      if i >= |order| {
        assert i == |order| && j == |order| + 1;
        assert schedule[n] == ScheduleWeek(Dates(schedule, all[i])[1], all[i], all[j]);
      }
    }
  }

  /** Recording two different picks keeps the interval keys in creation
      order: a pick assigned once before gets its key now, after every
      earlier key, the first-priority pick before the second. */
  lemma OrderStep(s: State, schedule: seq<ScheduleWeek>, a: string, b: string)
    requires forall i :: 0 <= i < |schedule| ==> schedule[i].date < s.date
    requires EntryMatches(s, schedule, a) && EntryMatches(s, schedule, b)
    requires KeysInOrder(schedule, s.order)
    requires a != b
    ensures KeysInOrder(schedule + [ScheduleWeek(s.date, a, b)], RecordAll(s, [a, b]).order)
  {
    var w := ScheduleWeek(s.date, a, b);
    var newA := a in s.last && a !in s.intervals;
    var newB := b in s.last && b !in s.intervals;
    RecordOrder(s, a, b);
    if newA {
      AddedKey(s, schedule, w, a);
    }
    if newB {
      AddedKey(s, schedule, w, b);
    }
    KeysGrow(schedule, w, s.order);
    OldKeysEarlier(schedule, w, s.order);
    KeysExtendWeek(schedule, w, s.order, newA, newB);
  }

  /** `KeysExtend` for the keys the week `w` creates, named by whether each
      of its two picks gets a key. */
  lemma KeysExtendWeek(schedule: seq<ScheduleWeek>, w: ScheduleWeek, order: seq<string>, newA: bool, newB: bool)
    requires KeysInOrder(schedule + [w], order)
    requires forall i :: 0 <= i < |order| ==> Dates(schedule + [w], order[i])[1] < w.date
    requires newA ==> |Dates(schedule + [w], w.firstPriority)| >= 2 && Dates(schedule + [w], w.firstPriority)[1] == w.date
    requires newB ==> |Dates(schedule + [w], w.secondPriority)| >= 2 && Dates(schedule + [w], w.secondPriority)[1] == w.date
    requires w.firstPriority != w.secondPriority
    ensures KeysInOrder(schedule + [w], order + (if newA then [w.firstPriority] else [])
                                               + (if newB then [w.secondPriority] else []))
  {
    var schedule' := schedule + [w];
    var added := (if newA then [w.firstPriority] else []) + (if newB then [w.secondPriority] else []);
    assert schedule'[|schedule'| - 1] == w;
    assert forall x :: x in added ==> (x == w.firstPriority && newA) || (x == w.secondPriority && newB);
    KeysExtend(schedule', order, added);
    assert order + added == order + (if newA then [w.firstPriority] else []) + (if newB then [w.secondPriority] else []);
  }

  /** Keys created before the appended week have their second
      assignment before it. */
  lemma OldKeysEarlier(schedule: seq<ScheduleWeek>, w: ScheduleWeek, order: seq<string>)
    requires forall i :: 0 <= i < |schedule| ==> schedule[i].date < w.date
    requires forall i :: 0 <= i < |order| ==> |Dates(schedule, order[i])| >= 2
    ensures forall i :: 0 <= i < |order| ==>
              |Dates(schedule + [w], order[i])| >= 2 && Dates(schedule + [w], order[i])[1] < w.date
  {
    forall i | 0 <= i < |order|
      ensures |Dates(schedule + [w], order[i])| >= 2 && Dates(schedule + [w], order[i])[1] < w.date
    {
      DatesAppend(schedule, w, order[i]);
      DatesBelow(schedule, order[i], w.date);
    }
  }

  /** A person assigned exactly once before gets their second assignment
      in the week appended. */
  lemma AddedKey(s: State, schedule: seq<ScheduleWeek>, w: ScheduleWeek, x: string)
    requires EntryMatches(s, schedule, x)
    requires Assigned(w, x)
    requires x in s.last && x !in s.intervals
    ensures |Dates(schedule + [w], x)| >= 2 && Dates(schedule + [w], x)[1] == w.date
  {
    DatesAppend(schedule, w, x);
  }

  /** The bookkeeping of one week keeps the ledger in step. */
  lemma AdvanceLedger(startDate: int, s: State, schedule: seq<ScheduleWeek>, a: string, b: string)
    requires s.date == startDate + DaysPerWeek * |schedule|
    requires forall i :: 0 <= i < |schedule| ==> schedule[i].date == startDate + DaysPerWeek * i
    requires LedgerInvariant(s, schedule)
    requires a in s.first && b in s.second && a != b
    requires !Below(IntervalOf(s.last, a, s.date), MinInterval)
    requires !Below(IntervalOf(s.last, b, s.date), MinInterval)
    ensures LedgerInvariant(Advance(s, a, b), schedule + [ScheduleWeek(s.date, a, b)])
  {
    var next := Advance(s, a, b);
    var latched := s.(served := next.served);
    forall p
      ensures EntryMatches(latched, schedule, p)
    {
      assert EntryMatches(s, schedule, p);
    }
    assert latched.date == s.date && latched.last == s.last && latched.order == s.order;
    RecordKeepsLedger(startDate, latched, schedule, a, b);
    assert forall i :: 0 <= i < |schedule| ==> schedule[i].date < latched.date;
    assert EntryMatches(latched, schedule, a) && EntryMatches(latched, schedule, b);
    OrderStep(latched, schedule, a, b);
    var booked := RecordAll(latched, [a, b]);
    var schedule' := schedule + [ScheduleWeek(s.date, a, b)];
    assert next.last == booked.last && next.intervals == booked.intervals && next.order == booked.order;
    forall p
      ensures EntryMatches(next, schedule', p)
    {
      assert EntryMatches(booked, schedule', p);
    }
    assert forall i, p :: 0 <= i < |schedule'| && Assigned(schedule'[i], p) ==>
             p in booked.last && schedule'[i].date <= booked.last[p];
  }

  /** Per-person agreement gives the interval clauses of the outcome. */
  lemma LedgerOutcome(s: State, schedule: seq<ScheduleWeek>)
    requires forall p :: EntryMatches(s, schedule, p)
    requires KeysInOrder(schedule, s.order)
    ensures LedgerHolds(schedule, s.intervals, s.order)
  {
    forall p
      ensures p in s.intervals <==> |Dates(schedule, p)| >= 2
      ensures p in s.intervals ==> s.intervals[p] == Gaps(Dates(schedule, p))
      ensures p in s.intervals <==> p in s.order
      ensures forall k :: p in s.intervals && 0 <= k < |s.intervals[p]| ==> s.intervals[p][k] >= MinInterval
    {
      assert EntryMatches(s, schedule, p);
    }
  }

  /** One week keeps the state invariant. */
  lemma AdvanceKeepsInvariant(startDate: int, pool: multiset<string>, s: State, schedule: seq<ScheduleWeek>,
                              a: string, b: string)
    requires StateInvariant(startDate, pool, s, schedule)
    requires a in s.first && b in s.second
    requires FitsFirst(a, s.newcomers, s.served, s.week, s.last, s.date)
    requires FitsSecond(b, s.newcomers, s.week, s.last, s.date)
    ensures StateInvariant(startDate, pool, Advance(s, a, b), schedule + [ScheduleWeek(s.date, a, b)])
  {
    var w := ScheduleWeek(s.date, a, b);
    NotInBoth(pool, s.first, s.second, a);
    AdvanceRotates(s, a, b);
    AdvanceLedger(startDate, s, schedule, a, b);
    SecondRolesAppend(schedule, w);
    ScheduleRolesStep(startDate, s, schedule, a, b);
  }

  /** The role clauses of `ScheduleInvariant` for the schedule extended by
      one week whose picks meet the eligibility rules. */
  lemma ScheduleRolesStep(startDate: int, s: State, schedule: seq<ScheduleWeek>, a: string, b: string)
    requires s.week == |schedule| && s.date == startDate + DaysPerWeek * |schedule|
    requires forall x :: x in s.served ==> x in SecondRoles(schedule)
    requires forall i, p :: 0 <= i < |schedule| && Assigned(schedule[i], p) ==> p in s.last && schedule[i].date <= s.last[p]
    requires RolesHold(startDate, s.newcomers, schedule)
    requires a != b
    requires FitsFirst(a, s.newcomers, s.served, s.week, s.last, s.date)
    requires FitsSecond(b, s.newcomers, s.week, s.last, s.date)
    ensures RolesHold(startDate, s.newcomers, schedule + [ScheduleWeek(s.date, a, b)])
  {
    var w := ScheduleWeek(s.date, a, b);
    var schedule' := schedule + [w];
    forall i | 0 <= i < |schedule'|
      ensures schedule'[i].date == startDate + DaysPerWeek * i
      ensures schedule'[i].firstPriority != schedule'[i].secondPriority
      ensures schedule'[i].firstPriority in s.newcomers ==> i >= NewcomerWaitWeeks
      ensures schedule'[i].secondPriority in s.newcomers ==> i >= NewcomerWaitWeeks
      ensures schedule'[i].firstPriority in s.newcomers ==> schedule'[i].firstPriority in SecondRoles(schedule'[..i])
    {
      if i < |schedule| {
        assert schedule'[i] == schedule[i];
        assert schedule'[..i] == schedule[..i];
      } else {
        assert schedule'[..i] == schedule;
      }
    }
    forall i, j, p | 0 <= i < j < |schedule'| && Assigned(schedule'[i], p) && Assigned(schedule'[j], p)
      ensures schedule'[j].date - schedule'[i].date >= MinInterval
    {
      assert schedule'[i] == schedule[i];
      if j < |schedule| {
        assert schedule'[j] == schedule[j];
      } else {
        assert p in s.last && schedule[i].date <= s.last[p];
        assert IntervalOf(s.last, p, s.date) == Days(s.date - s.last[p]);
      }
    }
  }

  // ------------------------------------------------------------ the run

  /** From a state meeting the invariant the run never fails on a name in
      both queues, and a successful run ends with `weeks` entries (or as many
      as it started with) meeting `ScheduleInvariant`. */
  lemma {:induction false} RunKeepsInvariant(startDate: int, pool: multiset<string>, s: State,
                                             schedule: seq<ScheduleWeek>, weeks: int, draws: nat -> nat)
    requires StateInvariant(startDate, pool, s, schedule)
    ensures Run(s, schedule, weeks, draws) != Err(DuplicateMembers)
    ensures Run(s, schedule, weeks, draws).Ok? ==>
              var out := Run(s, schedule, weeks, draws).value;
              && |out.schedule| == (if weeks > |schedule| then weeks else |schedule|)
              && ScheduleInvariant(startDate, s.newcomers, out.schedule, out.intervals, out.order)
    decreases weeks - |schedule|
  {
    if |schedule| >= weeks {
      LedgerOutcome(s, schedule);
    } else {
      var firstDraw, secondDraw := draws(2 * |schedule|), draws(2 * |schedule| + 1);
      WeekKeepsInvariant(startDate, pool, s, schedule, firstDraw, secondDraw);
      match WeekStep(s, firstDraw, secondDraw)
      case Err(e) =>
      case Ok((w, next)) =>
        RunKeepsInvariant(startDate, pool, next, schedule + [w], weeks, draws);
    }
  }

  /** From a state meeting the invariant a week never fails on a name in
      both queues, and a successful week leads to a state meeting it for the
      schedule extended by that week. */
  lemma WeekKeepsInvariant(startDate: int, pool: multiset<string>, s: State, schedule: seq<ScheduleWeek>,
                           firstDraw: nat, secondDraw: nat)
    requires StateInvariant(startDate, pool, s, schedule)
    ensures WeekStep(s, firstDraw, secondDraw) != Err(DuplicateMembers)
    ensures WeekStep(s, firstDraw, secondDraw).Ok? ==>
              var step := WeekStep(s, firstDraw, secondDraw).value;
              StateInvariant(startDate, pool, step.1, schedule + [step.0])
  {
    QueuesDisjoint(pool, s.first, s.second);
    WeekStepOutcome(s, firstDraw, secondDraw);
    match WeekStep(s, firstDraw, secondDraw)
    case Err(e) =>
    case Ok((w, next)) =>
      AdvanceKeepsInvariant(startDate, pool, s, schedule, w.firstPriority, w.secondPriority);
  }

  /** A person in neither queue stays out of both, so a run from such a
      state never schedules them. */
  lemma {:induction false} OutsideQueuesNeverScheduled(s: State, schedule: seq<ScheduleWeek>, weeks: int,
                                                       draws: nat -> nat, x: string)
    requires x !in s.first && x !in s.second
    requires forall i :: 0 <= i < |schedule| ==> !Assigned(schedule[i], x)
    ensures Run(s, schedule, weeks, draws).Ok? ==>
              forall i :: 0 <= i < |Run(s, schedule, weeks, draws).value.schedule| ==>
                !Assigned(Run(s, schedule, weeks, draws).value.schedule[i], x)
    decreases weeks - |schedule|
  {
    if |schedule| < weeks {
      var firstDraw, secondDraw := draws(2 * |schedule|), draws(2 * |schedule| + 1);
      WeekKeepsOut(s, firstDraw, secondDraw, x);
      match WeekStep(s, firstDraw, secondDraw)
      case Err(e) =>
      case Ok((w, next)) =>
        var schedule' := schedule + [w];
        assert forall i :: 0 <= i < |schedule'| ==> !Assigned(schedule'[i], x) by {
          forall i | 0 <= i < |schedule'|
            ensures !Assigned(schedule'[i], x)
          {
            if i < |schedule| {
              assert schedule'[i] == schedule[i];
            }
          }
        }
        OutsideQueuesNeverScheduled(next, schedule', weeks, draws, x);
    }
  }

  /** A week from a state with `x` in neither queue does not pick `x` and
      leaves `x` in neither queue. */
  lemma WeekKeepsOut(s: State, firstDraw: nat, secondDraw: nat, x: string)
    requires x !in s.first && x !in s.second
    ensures WeekStep(s, firstDraw, secondDraw).Ok? ==>
              var step := WeekStep(s, firstDraw, secondDraw).value;
              !Assigned(step.0, x) && x !in step.1.first && x !in step.1.second
  {
    if WeekStep(s, firstDraw, secondDraw).Ok? {
      var eligibleFirst := EligibleFirst(s.first, s.newcomers, s.served, s.week, s.last, s.date);
      var eligibleSecond := EligibleSecond(s.second, s.newcomers, s.week, s.last, s.date);
      var a := SelectPerson(eligibleFirst, s.last, s.date, firstDraw).value;
      var b := SelectPerson(eligibleSecond, s.last, s.date, secondDraw).value;
      assert a in s.first && b in s.second;
      AdvanceKeepsOut(s, a, b, x);
    }
  }

  /** The rotation moves only the two picks, so a person in neither queue
      stays in neither. */
  lemma AdvanceKeepsOut(s: State, a: string, b: string, x: string)
    requires a in s.first && b in s.second
    requires x !in s.first && x !in s.second
    ensures x != a && x != b
    ensures x !in Advance(s, a, b).first && x !in Advance(s, a, b).second
  {
    AdvanceRotates(s, a, b);
    assert x !in Remove(s.first, a) by {
      assert multiset(Remove(s.first, a))[x] <= multiset(s.first)[x];
    }
    assert x !in Remove(s.second, b) by {
      assert multiset(Remove(s.second, b))[x] <= multiset(s.second)[x];
    }
  }

  /** A newcomer shuffled into the first half is in no week of a
      successful run. */
  lemma DroppedNewcomerNeverScheduled(personnel: seq<Person>, shuffled: seq<string>, startDate: int,
                                      weeks: int, draws: nat -> nat, x: string)
    requires multiset(shuffled) == multiset(Names(personnel))
    requires Distinct(Names(personnel))
    requires x in shuffled[..|shuffled| / 2] && x in NewcomerNames(personnel)
    ensures Generate(personnel, shuffled, startDate, weeks, draws).Ok? ==>
              forall i :: 0 <= i < |Generate(personnel, shuffled, startDate, weeks, draws).value.schedule| ==>
                !Assigned(Generate(personnel, shuffled, startDate, weeks, draws).value.schedule[i], x)
  {
    FirstHalfNewcomerIsDropped(personnel, shuffled, startDate, x);
    OutsideQueuesNeverScheduled(InitialState(personnel, shuffled, startDate), [], weeks, draws, x);
  }

  /** A successful run stays inside the calendar: the date after its last
      week is at most LastDay. So a run whose horizon reaches past LastDay
      fails. */
  lemma {:induction false} RunWithinCalendar(s: State, schedule: seq<ScheduleWeek>, weeks: int, draws: nat -> nat)
    ensures Run(s, schedule, weeks, draws).Ok? && |schedule| < weeks ==>
              s.date + DaysPerWeek * (weeks - |schedule|) <= LastDay
    decreases weeks - |schedule|
  {
    if |schedule| < weeks {
      var firstDraw, secondDraw := draws(2 * |schedule|), draws(2 * |schedule| + 1);
      match WeekStep(s, firstDraw, secondDraw)
      case Err(e) =>
      case Ok((w, next)) =>
        assert s.date + DaysPerWeek <= LastDay;
        assert next.date == s.date + DaysPerWeek;
        RunWithinCalendar(next, schedule + [w], weeks, draws);
    }
  }

  /** `Generate` succeeds only when the day after its last week, start +
      7 * weeks, is a representable date. */
  lemma GenerateWithinCalendar(personnel: seq<Person>, shuffled: seq<string>, startDate: int,
                               weeks: int, draws: nat -> nat)
    ensures Generate(personnel, shuffled, startDate, weeks, draws).Ok? && weeks > 0 ==>
              startDate + DaysPerWeek * weeks <= LastDay
  {
    RunWithinCalendar(InitialState(personnel, shuffled, startDate), [], weeks, draws);
  }

  /** The state before the first week meets the invariant. */
  lemma InitialInvariant(personnel: seq<Person>, shuffled: seq<string>, startDate: int)
    requires multiset(shuffled) == multiset(Names(personnel))
    requires Distinct(Names(personnel))
    ensures var s := InitialState(personnel, shuffled, startDate);
            StateInvariant(startDate, multiset(s.first) + multiset(s.second), s, [])
  {
    InitialQueues(personnel, shuffled, startDate);
    InitialQueuesDisjoint(personnel, shuffled, startDate);
  }

  /** Everything a successful `Generate` guarantees, for a roster with
      unique names: it never fails on a name in both queues, and a
      successful run has `max(weeks, 0)` entries meeting `ScheduleInvariant`
      for the roster's newcomers. */
  lemma {:induction false} GenerateGuarantees(personnel: seq<Person>, shuffled: seq<string>, startDate: int,
                                              weeks: int, draws: nat -> nat)
    requires multiset(shuffled) == multiset(Names(personnel))
    requires Distinct(Names(personnel))
    ensures Generate(personnel, shuffled, startDate, weeks, draws) != Err(DuplicateMembers)
    ensures Generate(personnel, shuffled, startDate, weeks, draws).Ok? ==>
              var out := Generate(personnel, shuffled, startDate, weeks, draws).value;
              && |out.schedule| == (if weeks > 0 then weeks else 0)
              && ScheduleInvariant(startDate, NewcomerNames(personnel), out.schedule, out.intervals, out.order)
  {
    var s := InitialState(personnel, shuffled, startDate);
    InitialInvariant(personnel, shuffled, startDate);
    RunKeepsInvariant(startDate, multiset(s.first) + multiset(s.second), s, [], weeks, draws);
  }
}
