/** `generate_schedule` as the step-by-step procedure the source runs: two
    queues, the newcomer and served sets and the date and interval
    dictionaries held in local variables and updated in place each week.
    The two eligibility loops and the interval-recording loop of one week
    are separate methods here; the source has them inline. */
module Generator {
  import opened Wrappers
  import opened Intervals
  import opened Selection
  import opened Schedule

  /** The loop that builds `eligible_first` from the first queue. */
  method FilterFirstQueue(first: seq<string>, newcomers: set<string>, served: set<string>, currentWeek: int,
                          last: map<string, int>, currentDate: int) returns (eligible: seq<string>)
    ensures eligible == EligibleFirst(first, newcomers, served, currentWeek, last, currentDate)
  {
    eligible := [];
    for i := 0 to |first|
      invariant eligible == EligibleFirst(first[..i], newcomers, served, currentWeek, last, currentDate)
    {
      assert first[..i + 1][..i] == first[..i];
      var p := first[i];
      var interval := IntervalOf(last, p, currentDate);
      if p in newcomers && p !in served {
        // not yet served second priority
      } else if p in newcomers && currentWeek < NewcomerWaitWeeks {
        // newcomer still inside the waiting weeks
      } else if Below(interval, MinInterval) {
        // assigned too recently
      } else {
        eligible := eligible + [p];
      }
    }
    assert first[..|first|] == first;
  }

  /** The loop that builds `eligible_second` from the second queue. */
  method FilterSecondQueue(second: seq<string>, newcomers: set<string>, currentWeek: int,
                           last: map<string, int>, currentDate: int) returns (eligible: seq<string>)
    ensures eligible == EligibleSecond(second, newcomers, currentWeek, last, currentDate)
  {
    eligible := [];
    for i := 0 to |second|
      invariant eligible == EligibleSecond(second[..i], newcomers, currentWeek, last, currentDate)
    {
      assert second[..i + 1][..i] == second[..i];
      var p := second[i];
      var interval := IntervalOf(last, p, currentDate);
      if p in newcomers && currentWeek < NewcomerWaitWeeks {
        // newcomer still inside the waiting weeks
      } else if Below(interval, MinInterval) {
        // assigned too recently
      } else {
        eligible := eligible + [p];
      }
    }
    assert second[..|second|] == second;
  }

  /** The loop that records, for each picked person in turn, the gap since
      their previous assignment and then today's date. */
  method RecordPicks(s: State, picks: seq<string>)
    returns (last: map<string, int>, intervals: map<string, seq<int>>, order: seq<string>)
    ensures s.(last := last, intervals := intervals, order := order) == RecordAll(s, picks)
  {
    last, intervals, order := s.last, s.intervals, s.order;
    for k := 0 to |picks|
      invariant s.(last := last, intervals := intervals, order := order) == RecordAll(s, picks[..k])
    {
      assert picks[..k + 1][..k] == picks[..k];
      var person := picks[k];
      if person in last {
        var interval := s.date - last[person];
        if person !in intervals {
          order := order + [person];
          intervals := intervals[person := []];
        }
        intervals := intervals[person := intervals[person] + [interval]];
      }
      last := last[person := s.date];
    }
    assert picks[..|picks|] == picks;
  }

  /** Produces the schedule and the interval lists for `weeks` weeks from
      `startDate`. `shuffled` is the outcome of `random.shuffle` on the
      roster's names and `draws(i)` the outcome of the `i`-th
      `random.choice`. The result is the one `Generate` defines. */
  method GenerateSchedule(personnel: seq<Person>, shuffled: seq<string>, startDate: int, weeks: int,
                          draws: nat -> nat) returns (result: Result<Output, Error>)
    requires multiset(shuffled) == multiset(Names(personnel))
    ensures result == Generate(personnel, shuffled, startDate, weeks, draws)
  {
    var schedule: seq<ScheduleWeek> := [];
    var newcomers: set<string> := {};
    var last: map<string, int> := map[];
    var served: set<string> := {};
    var intervals: map<string, seq<int>> := map[];
    var order: seq<string> := [];
    var currentDate := startDate;
    var currentWeek: nat := 0;

    for i := 0 to |personnel|
      invariant newcomers == NewcomerNames(personnel[..i])
    {
      assert personnel[..i + 1][..i] == personnel[..i];
      if personnel[i].isNew {
        newcomers := newcomers + {personnel[i].name};
      }
    }
    assert personnel[..|personnel|] == personnel;

    var midPoint := |shuffled| / 2;
    var first := WithoutNewcomers(shuffled[..midPoint], newcomers);
    var second := shuffled[midPoint..];

    while |schedule| < weeks
      invariant currentWeek == |schedule|
      invariant Generate(personnel, shuffled, startDate, weeks, draws)
             == Run(State(first, second, newcomers, served, last, intervals, order, currentDate, currentWeek),
                    schedule, weeks, draws)
      decreases weeks - |schedule|
    {
      ghost var before := State(first, second, newcomers, served, last, intervals, order, currentDate, currentWeek);
      ghost var done := schedule;
      var duplicates := CheckDuplicateMembers(first, second);
      if duplicates != {} {
        return Err(DuplicateMembers);
      }

      var eligibleFirst := FilterFirstQueue(first, newcomers, served, currentWeek, last, currentDate);
      var eligibleSecond := FilterSecondQueue(second, newcomers, currentWeek, last, currentDate);
      if eligibleFirst == [] || eligibleSecond == [] {
        return Err(InsufficientPersonnel);
      }

      var firstPriority := SelectPerson(eligibleFirst, last, currentDate, draws(2 * currentWeek)).value;
      var secondPriority := SelectPerson(eligibleSecond, last, currentDate, draws(2 * currentWeek + 1)).value;

      if secondPriority in newcomers {
        served := served + {secondPriority};
      }

      var week := ScheduleWeek(currentDate, firstPriority, secondPriority);
      schedule := schedule + [week];

      var today := State(first, second, newcomers, served, last, intervals, order, currentDate, currentWeek);
      last, intervals, order := RecordPicks(today, [firstPriority, secondPriority]);

      first := Remove(first, firstPriority);
      second := Remove(second, secondPriority);
      second := second + [firstPriority];
      if secondPriority in newcomers && secondPriority !in served {
        second := second + [secondPriority];
      } else {
        first := first + [secondPriority];
      }

      currentWeek := currentWeek + 1;
      if currentDate + DaysPerWeek > LastDay {
        assert WeekStep(before, draws(2 * |done|), draws(2 * |done| + 1)) == Err(DateOverflow);
        return Err(DateOverflow);
      }
      currentDate := currentDate + DaysPerWeek;
      ghost var next := Advance(before, firstPriority, secondPriority);
      assert WeekStep(before, draws(2 * |done|), draws(2 * |done| + 1)) == Ok((week, next));
      RunUnfolds(before, done, weeks, draws, week, next);
      RecordedWeekIsAdvance(before, firstPriority, secondPriority,
                            State(first, second, newcomers, served, last, intervals, order, currentDate, currentWeek));
    }
    return Ok(Output(schedule, intervals, order));
  }

  /** The locals after one pass of the loop body hold the state `Advance`
      describes. */
  lemma RecordedWeekIsAdvance(before: State, a: string, b: string, after: State)
    requires a in before.first && b in before.second
    requires after.newcomers == before.newcomers
    requires after.served == if b in before.newcomers then before.served + {b} else before.served
    requires before.(served := after.served, last := after.last, intervals := after.intervals, order := after.order)
          == RecordAll(before.(served := after.served), [a, b])
    requires after.first == Remove(before.first, a) + [b]
    requires after.second == Remove(before.second, b) + [a]
    requires after.date == before.date + DaysPerWeek && after.week == before.week + 1
    ensures after == Advance(before, a, b)
  {
  }

  /** One more week of `Run` once its step is known. */
  lemma RunUnfolds(s: State, schedule: seq<ScheduleWeek>, weeks: int, draws: nat -> nat, w: ScheduleWeek, next: State)
    requires |schedule| < weeks
    requires WeekStep(s, draws(2 * |schedule|), draws(2 * |schedule| + 1)) == Ok((w, next))
    ensures Run(s, schedule, weeks, draws) == Run(next, schedule + [w], weeks, draws)
  {
  }
}
