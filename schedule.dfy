/**
 * The decisions one pass of `monitor_server`'s loop makes after polling the log:
 * the daily and weekly leaderboards, the periodic save, and the back-off after
 * repeated errors. The wall clock is an input.
 */
module Schedule {
  import opened Util

  /** `datetime.now()` reduced to what the guards read; `weekday` is 0 for Monday. */
  datatype Clock = Clock(date: int, hour: int, minute: int, weekday: int)

  /** The loop's local variables. */
  datatype Sched = Sched(consecutiveErrors: nat, checkCount: nat, lastDaily: Option<int>, lastWeekly: Option<int>)

  function Initial(): Sched
  {
    Sched(0, 0, None, None)
  }

  const MaxErrors: nat := 5
  const SaveEvery: nat := 20
  const DailyBoards: seq<string> := ["death", "survival", "hours"]
  const WeeklyBoards: seq<string> := ["skill_Aiming", "skill_Fitness", "skill_Strength", "skill_Cooking", "skill_Mechanics"]

  /** Noon or midnight, on the hour, not yet today, and someone to rank. */
  predicate DailyDue(s: Sched, c: Clock, hasPlayers: bool)
  {
    c.minute == 0 && s.lastDaily != Some(c.date) && (c.hour == 12 || c.hour == 0) && hasPlayers
  }

  /** Sunday 00:00, not yet today, and someone to rank. */
  predicate WeeklyDue(s: Sched, c: Clock, hasPlayers: bool)
  {
    c.weekday == 6 && c.hour == 0 && c.minute == 0 && s.lastWeekly != Some(c.date) && hasPlayers
  }

  /** What a pass decides: the next loop state, the boards to send in order, whether
      to save, and how long to sleep. */
  datatype Plan = Plan(next: Sched, boards: seq<string>, save: bool, sleep: nat)

  /** A pass whose connection and poll succeeded. */
  function AfterPoll(s: Sched, c: Clock, hasPlayers: bool, unsaved: bool, interval: nat): Plan
  {
    var daily := DailyDue(s, c, hasPlayers);
    var weekly := WeeklyDue(s, c, hasPlayers);
    var count := s.checkCount + 1;
    Plan(Sched(0, count, if daily then Some(c.date) else s.lastDaily, if weekly then Some(c.date) else s.lastWeekly),
         (if daily then DailyBoards else []) + (if weekly then WeeklyBoards else []),
         count % SaveEvery == 0 && unsaved,
         interval)
  }

  /** A pass that raised: count the error; at the fifth in a row sleep three
      intervals and start counting again. */
  function AfterError(s: Sched, interval: nat): Plan
  {
    var errors := s.consecutiveErrors + 1;
    if errors >= MaxErrors then Plan(s.(consecutiveErrors := 0), [], false, 3 * interval)
    else Plan(s.(consecutiveErrors := errors), [], false, interval)
  }

  /** How a pass ended, as far as the schedule can tell. */
  datatype Outcome = Polled(clock: Clock, hasPlayers: bool, unsaved: bool) | Errored

  function Step(s: Sched, o: Outcome, interval: nat): Plan
  {
    match o
    case Polled(c, hasPlayers, unsaved) => AfterPoll(s, c, hasPlayers, unsaved, interval)
    case Errored => AfterError(s, interval)
  }

  function Run(s: Sched, outcomes: seq<Outcome>, interval: nat): Sched
    decreases |outcomes|
  {
    if outcomes == [] then s else Run(Step(s, outcomes[0], interval).next, outcomes[1..], interval)
  }

  /** Running one more pass is taking one more step. */
  lemma {:induction false} RunSnoc(s: Sched, outcomes: seq<Outcome>, o: Outcome, interval: nat)
    ensures Run(s, outcomes + [o], interval) == Step(Run(s, outcomes, interval), o, interval).next
    decreases |outcomes|
  {
    if outcomes == [] {
      assert [] + [o] == [o] && [o][1..] == [];
    } else {
      assert (outcomes + [o])[0] == outcomes[0] && (outcomes + [o])[1..] == outcomes[1..] + [o];
      RunSnoc(Step(s, outcomes[0], interval).next, outcomes[1..], o, interval);
    }
  }

  // ---------------------------------------------------------------- the error counter

  /** The counter never reaches five: a success clears it, and the fifth error in a
      row clears it after the long sleep. */
  lemma ErrorsStayBelowMax(s: Sched, o: Outcome, interval: nat)
    requires s.consecutiveErrors < MaxErrors
    ensures Step(s, o, interval).next.consecutiveErrors < MaxErrors
    ensures o.Polled? ==> Step(s, o, interval).next.consecutiveErrors == 0
    ensures o.Errored? ==> Step(s, o, interval).sleep == (if s.consecutiveErrors == MaxErrors - 1 then 3 * interval else interval)
    ensures o.Errored? ==> (Step(s, o, interval).next.consecutiveErrors == 0 <==> s.consecutiveErrors == MaxErrors - 1)
    ensures o.Errored? && s.consecutiveErrors < MaxErrors - 1 ==> Step(s, o, interval).next.consecutiveErrors == s.consecutiveErrors + 1
  {
  }

  /** Five errors in a row from a clean counter end in the long sleep and a clean counter. */
  lemma FiveErrorsBackOff(interval: nat)
    ensures var s := Run(Initial(), [Errored, Errored, Errored, Errored], interval);
      s.consecutiveErrors == 4 && Step(s, Errored, interval) == Plan(s.(consecutiveErrors := 0), [], false, 3 * interval)
  {
  }

  // ---------------------------------------------------------------- the daily and weekly boards

  /** A pass sends the daily boards exactly when they are due, and the weekly ones
      after them exactly when those are due. */
  lemma BoardsWhenDue(s: Sched, c: Clock, hasPlayers: bool, unsaved: bool, interval: nat)
    ensures var p := AfterPoll(s, c, hasPlayers, unsaved, interval);
      && (p.boards == DailyBoards + WeeklyBoards <==> DailyDue(s, c, hasPlayers) && WeeklyDue(s, c, hasPlayers))
      && (p.boards == [] <==> !DailyDue(s, c, hasPlayers) && !WeeklyDue(s, c, hasPlayers))
      && (DailyDue(s, c, hasPlayers) <==> |p.boards| >= 3 && p.boards[..3] == DailyBoards)
      && (WeeklyDue(s, c, hasPlayers) <==> |p.boards| >= 5 && p.boards[|p.boards| - 5..] == WeeklyBoards)
      && (p.next.lastDaily == Some(c.date) <==> DailyDue(s, c, hasPlayers) || s.lastDaily == Some(c.date))
  {
    var p := AfterPoll(s, c, hasPlayers, unsaved, interval);
    assert DailyBoards[0] == "death" && WeeklyBoards[0] == "skill_Aiming";
    assert DailyBoards != WeeklyBoards[..3] by { assert DailyBoards[0] != WeeklyBoards[..3][0]; }
    assert DailyBoards[..3] == DailyBoards;
    assert WeeklyBoards[..5] == WeeklyBoards;
    assert DailyBoards[1..] != WeeklyBoards[..2] by { assert DailyBoards[1..][0] != WeeklyBoards[..2][0]; }
    if DailyDue(s, c, hasPlayers) && WeeklyDue(s, c, hasPlayers) {
      assert p.boards[..3] == DailyBoards;
      assert p.boards[|p.boards| - 5..] == WeeklyBoards;
    } else if DailyDue(s, c, hasPlayers) {
      assert p.boards == DailyBoards;
    } else if WeeklyDue(s, c, hasPlayers) {
      assert p.boards == WeeklyBoards;
      assert p.boards[..3] != DailyBoards;
    }
  }

  /** The dates on which a run of passes sends the daily boards. */
  function DailyDates(s: Sched, outcomes: seq<Outcome>, interval: nat): seq<int>
    decreases |outcomes|
  {
    if outcomes == [] then []
    else
      var o := outcomes[0];
      var rest := DailyDates(Step(s, o, interval).next, outcomes[1..], interval);
      if o.Polled? && DailyDue(s, o.clock, o.hasPlayers) then [o.clock.date] + rest else rest
  }

  /** The dates on which a run of passes sends the weekly boards. */
  function WeeklyDates(s: Sched, outcomes: seq<Outcome>, interval: nat): seq<int>
    decreases |outcomes|
  {
    if outcomes == [] then []
    else
      var o := outcomes[0];
      var rest := WeeklyDates(Step(s, o, interval).next, outcomes[1..], interval);
      if o.Polled? && WeeklyDue(s, o.clock, o.hasPlayers) then [o.clock.date] + rest else rest
  }

  /** The clock never goes back to an earlier date from one pass to the next. */
  ghost predicate DatesForward(outcomes: seq<Outcome>)
  {
    forall i, j :: 0 <= i < j < |outcomes| && outcomes[i].Polled? && outcomes[j].Polled? ==>
      outcomes[i].clock.date <= outcomes[j].clock.date
  }

  /** Every pass comes on or after the date a board was last sent. */
  ghost predicate NotBefore(last: Option<int>, outcomes: seq<Outcome>)
  {
    last.Some? ==> forall i :: 0 <= i < |outcomes| && outcomes[i].Polled? ==> last.value <= outcomes[i].clock.date
  }

  ghost predicate StrictlyIncreasing(dates: seq<int>)
  {
    forall i, j :: 0 <= i < j < |dates| ==> dates[i] < dates[j]
  }

  lemma DatesForwardTail(outcomes: seq<Outcome>)
    requires outcomes != [] && DatesForward(outcomes)
    ensures DatesForward(outcomes[1..])
    ensures outcomes[0].Polled? ==> NotBefore(Some(outcomes[0].clock.date), outcomes[1..])
  {
    forall i, j | 0 <= i < j < |outcomes[1..]| && outcomes[1..][i].Polled? && outcomes[1..][j].Polled?
      ensures outcomes[1..][i].clock.date <= outcomes[1..][j].clock.date
    {
      assert outcomes[1..][i] == outcomes[i + 1] && outcomes[1..][j] == outcomes[j + 1];
    }
    if outcomes[0].Polled? {
      forall i | 0 <= i < |outcomes[1..]| && outcomes[1..][i].Polled?
        ensures outcomes[0].clock.date <= outcomes[1..][i].clock.date
      {
        assert outcomes[1..][i] == outcomes[i + 1];
      }
    }
  }

  /** With a clock that does not run backwards, the daily boards go out at most once
      per date: the dates they are sent on strictly increase, all after the date
      recorded at the start. */
  lemma {:induction false} DailyAtMostOncePerDate(s: Sched, outcomes: seq<Outcome>, interval: nat)
    requires DatesForward(outcomes) && NotBefore(s.lastDaily, outcomes)
    ensures var dates := DailyDates(s, outcomes, interval);
      && StrictlyIncreasing(dates)
      && (s.lastDaily.Some? ==> forall k :: 0 <= k < |dates| ==> s.lastDaily.value < dates[k])
    decreases |outcomes|
  {
    if outcomes != [] {
      var o := outcomes[0];
      var next := Step(s, o, interval).next;
      DatesForwardTail(outcomes);
      assert NotBefore(s.lastDaily, outcomes[1..]) by {
        if s.lastDaily.Some? {
          forall i | 0 <= i < |outcomes[1..]| && outcomes[1..][i].Polled?
            ensures s.lastDaily.value <= outcomes[1..][i].clock.date
          {
            assert outcomes[1..][i] == outcomes[i + 1];
          }
        }
      }
      if o.Polled? && DailyDue(s, o.clock, o.hasPlayers) {
        assert next.lastDaily == Some(o.clock.date);
        assert s.lastDaily.Some? ==> s.lastDaily.value <= o.clock.date by {
          assert outcomes[0] == o;
        }
      } else {
        assert next.lastDaily == s.lastDaily;
      }
      DailyAtMostOncePerDate(next, outcomes[1..], interval);
    }
  }

  /** The same for the weekly boards. */
  lemma {:induction false} WeeklyAtMostOncePerDate(s: Sched, outcomes: seq<Outcome>, interval: nat)
    requires DatesForward(outcomes) && NotBefore(s.lastWeekly, outcomes)
    ensures var dates := WeeklyDates(s, outcomes, interval);
      && StrictlyIncreasing(dates)
      && (s.lastWeekly.Some? ==> forall k :: 0 <= k < |dates| ==> s.lastWeekly.value < dates[k])
    decreases |outcomes|
  {
    if outcomes != [] {
      var o := outcomes[0];
      var next := Step(s, o, interval).next;
      DatesForwardTail(outcomes);
      assert NotBefore(s.lastWeekly, outcomes[1..]) by {
        if s.lastWeekly.Some? {
          forall i | 0 <= i < |outcomes[1..]| && outcomes[1..][i].Polled?
            ensures s.lastWeekly.value <= outcomes[1..][i].clock.date
          {
            assert outcomes[1..][i] == outcomes[i + 1];
          }
        }
      }
      if o.Polled? && WeeklyDue(s, o.clock, o.hasPlayers) {
        assert next.lastWeekly == Some(o.clock.date);
        assert s.lastWeekly.Some? ==> s.lastWeekly.value <= o.clock.date by {
          assert outcomes[0] == o;
        }
      } else {
        assert next.lastWeekly == s.lastWeekly;
      }
      WeeklyAtMostOncePerDate(next, outcomes[1..], interval);
    }
  }

  // ---------------------------------------------------------------- the periodic save

  function Saves(s: Sched, outcomes: seq<Outcome>, interval: nat): nat
    decreases |outcomes|
  {
    if outcomes == [] then 0
    else (if Step(s, outcomes[0], interval).save then 1 else 0) + Saves(Step(s, outcomes[0], interval).next, outcomes[1..], interval)
  }

  function Polls(outcomes: seq<Outcome>): nat
  {
    if outcomes == [] then 0 else (if outcomes[0].Polled? then 1 else 0) + Polls(outcomes[1..])
  }

  /** Only successful passes count; a pass saves exactly when it is a successful one
      whose count is a multiple of 20 and there are unsaved changes, so a run saves no
      more often than the multiples of 20 it counts through. */
  lemma {:induction false} SavesEveryTwentieth(s: Sched, outcomes: seq<Outcome>, interval: nat)
    ensures forall c, h, u :: Step(s, Polled(c, h, u), interval).save <==> (s.checkCount + 1) % SaveEvery == 0 && u
    ensures !Step(s, Errored, interval).save
    ensures Run(s, outcomes, interval).checkCount == s.checkCount + Polls(outcomes)
    ensures Saves(s, outcomes, interval) <= Run(s, outcomes, interval).checkCount / SaveEvery - s.checkCount / SaveEvery
    decreases |outcomes|
  {
    if outcomes != [] {
      var p := Step(s, outcomes[0], interval);
      SavesEveryTwentieth(p.next, outcomes[1..], interval);
      if outcomes[0].Polled? {
        assert p.next.checkCount == s.checkCount + 1;
        assert p.save ==> (s.checkCount + 1) / SaveEvery == s.checkCount / SaveEvery + 1;
        assert (s.checkCount + 1) / SaveEvery >= s.checkCount / SaveEvery;
      }
    }
  }
}
