// The progress engine of js/app.js: the overall and per-workout
// percentages, the day streak, and marking a workout complete.

module Progress {
  import opened Storage
  import opened Keys
  import Percent
  import Streak

  /** calculateStreak looks at most this many days back, today included. */
  const WindowDays: nat := 30

  /** Number of true entries: what `filter(...).length` counts. */
  function CountTrue(flags: seq<bool>): (n: nat)
    ensures n <= |flags|
    ensures n == 0 <==> forall i :: 0 <= i < |flags| ==> !flags[i]
    ensures n == |flags| <==> forall i :: 0 <= i < |flags| ==> flags[i]
    ensures n == multiset(flags)[true]
  {
    if flags == [] then 0
    else
      assert flags == [flags[0]] + flags[1..];
      (if flags[0] then 1 else 0) + CountTrue(flags[1..])
  }

  /** Which of the given keys load truthy, in order. */
  function Flags(items: map<string, Stored>, keys: seq<string>): (f: seq<bool>)
    ensures |f| == |keys|
    ensures forall i :: 0 <= i < |keys| ==> f[i] == IsSet(items, keys[i])
  {
    seq(|keys|, i requires 0 <= i < |keys| => IsSet(items, keys[i]))
  }

  /** keys.filter(key => loadProgress(key)).length. Every key is loaded, in
      order; the first malformed one raises. */
  function CountSet(items: map<string, Stored>, keys: seq<string>): (r: Result<nat>)
    ensures r.Err? <==> exists i :: 0 <= i < |keys| && Unreadable(items, keys[i])
    ensures r.Ok? ==> r.value == CountTrue(Flags(items, keys))
  {
    if keys == [] then Ok(0)
    else
      var head := Load(items, keys[0]);
      if head.Err? then Err(head.error)
      else
        var rest := CountSet(items, keys[1..]);
        if rest.Err? then rest
        else
          assert Flags(items, keys) == [IsSet(items, keys[0])] + Flags(items, keys[1..]);
          Ok((if Truthy(head.value) then 1 else 0) + rest.value)
  }

  /** What the dashboard shows: workouts completed, out of how many, and
      the rounded percentage. */
  datatype Overall = Overall(completed: nat, total: nat, percent: nat)

  /** The counting and percentage part of updateProgress. */
  function OverallProgress(items: map<string, Stored>): (r: Result<Overall>)
    ensures r.Err? <==> exists i :: 0 <= i < |AllWorkouts| && Unreadable(items, AllWorkouts[i])
    ensures r.Ok? ==> r.value.total == 5 && r.value.completed <= 5
    ensures r.Ok? ==> r.value.completed == CountTrue(Flags(items, AllWorkouts))
    ensures r.Ok? ==> r.value.percent == 20 * r.value.completed && r.value.percent <= 100
  {
    var counted := CountSet(items, AllWorkouts);
    if counted.Err? then Err(counted.error)
    else
      var total := |AllWorkouts|;
      Percent.PercentOfFive(counted.value);
      Ok(Overall(counted.value, total, Percent.Percent(counted.value, total)))
  }

  /** The percentage part of updateWorkoutProgress: `checked` holds the
      state of each exercise checkbox of one workout type, as the page
      reports it. */
  function WorkoutProgress(checked: seq<bool>): (percent: nat)
    ensures percent <= 100
    ensures checked == [] ==> percent == 0
    ensures |checked| > 0 && CountTrue(checked) == |checked| ==> percent == 100
    ensures CountTrue(checked) == 0 ==> percent == 0
  {
    var completed, total := CountTrue(checked), |checked|;
    Percent.PercentBounded(completed, total);
    Percent.Percent(completed, total)
  }

  /** Checking one more box never lowers a workout's percentage. */
  lemma {:induction false} CheckingNeverLowers(checked: seq<bool>, i: nat)
    requires i < |checked|
    ensures WorkoutProgress(checked) <= WorkoutProgress(checked[i := true])
  {
    CountTrueUpdate(checked, i);
    Percent.PercentMonotonic(CountTrue(checked), CountTrue(checked[i := true]), |checked|);
  }

  lemma {:induction false} CountTrueUpdate(flags: seq<bool>, i: nat)
    requires i < |flags|
    ensures CountTrue(flags) <= CountTrue(flags[i := true])
    ensures CountTrue(flags[i := true]) == CountTrue(flags) + (if flags[i] then 0 else 1)
  {
    var g := flags[i := true];
    if i > 0 {
      assert g[1..] == flags[1..][i - 1 := true];
      CountTrueUpdate(flags[1..], i - 1);
    } else {
      assert g[1..] == flags[1..];
    }
  }

  // ---------------------------------------------------------------------
  // The day streak

  /** Day k of the window (k days before today) is flagged. A day whose
      flag cannot be read counts as unflagged here; whether it is read at
      all is said by Examined. */
  function Window(items: map<string, Stored>, today: int): (w: seq<bool>)
    ensures |w| == WindowDays
  {
    seq(WindowDays, k => DayFlag(items, today - k))
  }

  lemma WindowAt(items: map<string, Stored>, today: int, k: nat)
    requires k < WindowDays
    ensures Window(items, today)[k] == DayFlag(items, today - k)
  {
  }

  /** The daily flag of a day loads truthy. */
  predicate DayFlag(items: map<string, Stored>, day: int) {
    IsSet(items, DayKey(day))
  }

  /** calculateStreak reads day k: the scan has not stopped before it. */
  predicate Examined(items: map<string, Stored>, today: int, k: nat)
    requires k <= WindowDays
  {
    !Streak.Ended(Window(items, today)[..k])
  }

  predicate UnreadableDay(items: map<string, Stored>, today: int, k: nat) {
    Unreadable(items, DayKey(today - k))
  }

  /** calculateStreak, with today's day number passed in. The loop walks
      back from today for at most 30 days, passing over unflagged days until
      the first flagged one, and stops at the first unflagged day after
      that. It raises exactly when one of the days it reads is malformed;
      otherwise it returns the streak of the window. */
  method CalculateStreak(store: LocalStore, today: int) returns (r: Result<nat>)
    ensures r.Err? <==> exists k :: (0 <= k < WindowDays &&
      UnreadableDay(store.items, today, k) && Examined(store.items, today, k))
    ensures r.Ok? ==> r.value == Streak.Streak(Window(store.items, today))
    ensures r.Ok? ==> r.value <= WindowDays
  {
    ghost var w := Window(store.items, today);
    ghost var stopped := false;
    var streak: nat := 0;
    var currentDate := today;
    for i := 0 to WindowDays
      invariant currentDate == today - i
      invariant Streak.Scanned(w, i, streak)
      invariant forall k :: 0 <= k < i ==> !UnreadableDay(store.items, today, k)
      invariant !stopped
    {
      var loaded := Load(store.items, DayKey(currentDate));
      if loaded.Err? {
        assert UnreadableDay(store.items, today, i);
        Streak.ScanNotEnded(w, i, streak);
        return Err(loaded.error);
      }
      assert !UnreadableDay(store.items, today, i);
      WindowAt(store.items, today, i);
      if Truthy(loaded.value) {
        Streak.ScanStep(w, i, streak);
        streak := streak + 1;
      } else if streak > 0 {
        Streak.ScanGap(w, i, streak);
        stopped := true;
        break;
      } else {
        Streak.ScanStep(w, i, streak);
      }
      currentDate := currentDate - 1;
    }
    if !stopped {
      Streak.ScanDone(w, streak);
    }
    r := Ok(streak);
  }

  // ---------------------------------------------------------------------
  // Marking a workout complete

  /** The store after markWorkoutComplete(workoutType) on day `today`:
      the workout's completion key and today's daily key hold true. */
  function AfterMark(items: map<string, Stored>, workoutType: string, today: int): (r: map<string, Stored>)
    ensures IsSet(r, CompleteKey(workoutType)) && IsSet(r, DayKey(today))
    ensures forall k :: k != CompleteKey(workoutType) && k != DayKey(today) ==> Load(r, k) == Load(items, k)
    ensures r.Keys == items.Keys + {CompleteKey(workoutType), DayKey(today)}
    ensures forall k :: k in items && k != CompleteKey(workoutType) && k != DayKey(today) ==> r[k] == items[k]
  {
    DayKeyIsNoCompleteKey(today, workoutType);
    Saved(Saved(items, CompleteKey(workoutType), true), DayKey(today), true)
  }

  /** What the dashboard is refreshed with: the overall progress and the
      streak. */
  datatype Dashboard = Dashboard(overall: Overall, streak: nat)

  /** The refresh raises: one of the five completion keys is malformed
      (the count raises before the streak is computed), or the count
      succeeds and a day the streak scan reads is malformed. */
  predicate RefreshFails(items: map<string, Stored>, today: int) {
    (exists i :: 0 <= i < |AllWorkouts| && Unreadable(items, AllWorkouts[i])) ||
    (exists k :: 0 <= k < WindowDays &&
      UnreadableDay(items, today, k) && Examined(items, today, k))
  }

  /** updateProgress: count the completed workouts, then compute the
      streak. A raise in the count ends the refresh before the streak is
      computed. Writing the values into the page is not modelled. */
  method UpdateProgress(store: LocalStore, today: int) returns (r: Result<Dashboard>)
    ensures r.Err? <==> RefreshFails(store.items, today)
    ensures r.Ok? ==> (OverallProgress(store.items).Ok? &&
      r.value.overall == OverallProgress(store.items).value)
    ensures r.Ok? ==> r.value.streak == Streak.Streak(Window(store.items, today))
    ensures r.Ok? ==> r.value.streak <= WindowDays
  {
    var overall := OverallProgress(store.items);
    if overall.Err? {
      return Err(overall.error);
    }
    var streak := CalculateStreak(store, today);
    if streak.Err? {
      return Err(streak.error);
    }
    r := Ok(Dashboard(overall.value, streak.value));
  }

  /** markWorkoutComplete(workoutType): two writes, then the display
      refresh. Both writes happen before the refresh can raise. When the
      refresh succeeds, the streak is at least 1, and a tracked workout
      type counts as completed. */
  method MarkWorkoutComplete(store: LocalStore, workoutType: string, today: int)
    returns (r: Result<Dashboard>)
    modifies store
    ensures store.items == AfterMark(old(store.items), workoutType, today)
    ensures r.Err? <==> RefreshFails(store.items, today)
    ensures r.Ok? ==> (OverallProgress(store.items).Ok? &&
      r.value.overall == OverallProgress(store.items).value)
    ensures r.Ok? ==> r.value.streak == Streak.Streak(Window(store.items, today))
    ensures r.Ok? ==> r.value.streak >= 1
    ensures r.Ok? && CompleteKey(workoutType) in AllWorkouts ==> r.value.overall.completed >= 1
  {
    var workoutKey := CompleteKey(workoutType);
    var dateKey := DayKey(today);
    store.Save(workoutKey, true);
    store.Save(dateKey, true);
    r := UpdateProgress(store, today);
    MarkStartsStreak(old(store.items), workoutType, today);
    MarkCountsWorkout(old(store.items), workoutType, today);
  }

  /** After marking, today is flagged, so the streak is at least 1. */
  lemma MarkStartsStreak(items: map<string, Stored>, workoutType: string, today: int)
    ensures Window(AfterMark(items, workoutType, today), today)[0]
    ensures Streak.Streak(Window(AfterMark(items, workoutType, today), today)) >= 1
  {
    var w := Window(AfterMark(items, workoutType, today), today);
    WindowAt(AfterMark(items, workoutType, today), today, 0);
    assert w[0];
    Streak.StreakFromFirstHit(w, 0);
  }

  /** Marking changes today's flag in the window and no other day's. */
  lemma AfterMarkWindow(items: map<string, Stored>, workoutType: string, today: int, k: nat)
    requires k < WindowDays
    ensures Window(AfterMark(items, workoutType, today), today)[k] ==
      (k == 0 || Window(items, today)[k])
  {
    WindowAt(AfterMark(items, workoutType, today), today, k);
    WindowAt(items, today, k);
    if k > 0 {
      DayKeyInjective(today - k, today);
      DayKeyIsNoCompleteKey(today - k, workoutType);
    }
  }

  /** After marking one of the five tracked workout types, the overall
      count is at least 1 (when the store can be read at all). */
  lemma MarkCountsWorkout(items: map<string, Stored>, workoutType: string, today: int)
    ensures var r := OverallProgress(AfterMark(items, workoutType, today));
      r.Ok? && CompleteKey(workoutType) in AllWorkouts ==> r.value.completed >= 1
  {
    var m := AfterMark(items, workoutType, today);
    if CompleteKey(workoutType) in AllWorkouts {
      var i :| 0 <= i < |AllWorkouts| && AllWorkouts[i] == CompleteKey(workoutType);
      assert Flags(m, AllWorkouts)[i];
    }
  }

  // ---------------------------------------------------------------------
  // Streak scenarios

  /** A store holding true under the daily key of each of the given days,
      and nothing else. */
  function MarkedDays(days: set<int>): map<string, Stored> {
    map d | d in days :: DayKey(d) := Text(Bool(true))
  }

  /** In such a store a day is flagged exactly when it is one of the days. */
  lemma MarkedDayFlag(days: set<int>, day: int)
    ensures DayFlag(MarkedDays(days), day) <==> day in days
    ensures !Unreadable(MarkedDays(days), DayKey(day))
  {
    var m := MarkedDays(days);
    if DayKey(day) in m && day !in days {
      var e :| e in days && DayKey(e) == DayKey(day);
      DayKeyInjective(e, day);
    }
  }

  lemma MarkedWindow(days: set<int>, today: int, k: nat)
    requires k < WindowDays
    ensures Window(MarkedDays(days), today)[k] <==> today - k in days
  {
    WindowAt(MarkedDays(days), today, k);
    MarkedDayFlag(days, today - k);
  }

  /** Today, yesterday and the day before marked: streak 3. */
  lemma StreakOfThreeDays(today: int)
    ensures Streak.Streak(Window(MarkedDays({today, today - 1, today - 2}), today)) == 3
  {
    var days := {today, today - 1, today - 2};
    forall k | 0 <= k < WindowDays
      ensures Window(MarkedDays(days), today)[k] <==> k < 3
    {
      MarkedWindow(days, today, k);
    }
    Streak.StreakOfShape(Window(MarkedDays(days), today), 0, 3);
  }

  /** Yesterday and the day before marked, today not: streak 2, since an
      unmarked today is passed over. */
  lemma StreakSkipsUnmarkedToday(today: int)
    ensures Streak.Streak(Window(MarkedDays({today - 1, today - 2}), today)) == 2
  {
    var days := {today - 1, today - 2};
    forall k | 0 <= k < WindowDays
      ensures Window(MarkedDays(days), today)[k] <==> 1 <= k < 3
    {
      MarkedWindow(days, today, k);
    }
    Streak.StreakOfShape(Window(MarkedDays(days), today), 1, 2);
  }

  /** Today and the day before yesterday marked, yesterday not: streak 1,
      since the gap after a marked day ends the scan. */
  lemma StreakStopsAtGap(today: int)
    ensures Streak.Streak(Window(MarkedDays({today, today - 2}), today)) == 1
  {
    var days := {today, today - 2};
    forall k | 0 <= k < WindowDays
      ensures Window(MarkedDays(days), today)[k] <==> k == 0 || k == 2
    {
      MarkedWindow(days, today, k);
    }
    Streak.StreakOfShape(Window(MarkedDays(days), today), 0, 1);
  }

  /** No day of the last 30 marked: streak 0, and calculateStreak reads
      every one of them. */
  lemma StreakOfEmptyWindow(items: map<string, Stored>, today: int)
    requires forall k :: 0 <= k < WindowDays ==> !Window(items, today)[k]
    ensures Streak.Streak(Window(items, today)) == 0
    ensures forall k :: 0 <= k <= WindowDays ==> Examined(items, today, k)
  {
    Streak.StreakZeroIff(Window(items, today));
  }

  /** Marking today can shorten the streak: with only the two days before
      yesterday marked, the streak is 2 (today and yesterday are passed
      over); once today is marked, yesterday's gap ends the scan after 1. */
  lemma MarkingTodayCanShortenStreak(today: int)
    ensures var before := MarkedDays({today - 2, today - 3});
      Streak.Streak(Window(before, today)) == 2 &&
      Streak.Streak(Window(AfterMark(before, "cardio-abs", today), today)) == 1
  {
    var days := {today - 2, today - 3};
    var before := MarkedDays(days);
    var after := AfterMark(before, "cardio-abs", today);
    forall k | 0 <= k < WindowDays
      ensures Window(before, today)[k] <==> k == 2 || k == 3
      ensures Window(after, today)[k] <==> k == 0 || k == 2 || k == 3
    {
      MarkedWindow(days, today, k);
      AfterMarkWindow(before, "cardio-abs", today, k);
    }
    Streak.StreakOfShape(Window(before, today), 2, 2);
    Streak.StreakOfShape(Window(after, today), 0, 1);
  }
}
