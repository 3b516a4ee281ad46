// The weekly schedule and the dashboard's "today's workout" card.

module Schedule {
  import Keys

  datatype Option<T> = None | Some(value: T)

  datatype Workout = Workout(title: string, desc: string, icon: string, page: string)

  /** workoutSchedule, keyed by the weekday number of Date.getDay()
      (0 is Sunday). The weekend entries have no page ("#"). */
  const WorkoutSchedule: map<int, Workout> := map[
    1 := Workout("Lower Body Power", "45-50 min \U{2022} Strength Training",
                 "\U{1F3CB}\U{FE0F}", "lower-body.html"),
    2 := Workout("Upper Body Strength", "45-50 min \U{2022} Chest, Back & Arms",
                 "\U{1F4AA}", "upper-body.html"),
    3 := Workout("Cardio + Abs", "30-35 min \U{2022} HIIT & Core",
                 "\U{1F525}", "cardio-abs.html"),
    4 := Workout("Legs & Glutes", "45-50 min \U{2022} Lower Body Focus",
                 "\U{1F351}", "legs-glutes.html"),
    5 := Workout("Full Body Blast", "50-55 min \U{2022} Total Body",
                 "\U{26A1}", "full-body.html"),
    6 := Workout("Active Recovery", "20-30 min \U{2022} Light Walk",
                 "\U{1F6B6}\U{200D}\U{2640}\U{FE0F}", "#"),
    0 := Workout("Rest Day", "Complete rest & recovery",
                 "\U{1F634}", "#")
  ]

  const Monday: int := 1

  /** The schedule has an entry for each weekday 0..6 and no other; only
      the weekend entries lack a page, and the five training days open
      five different pages. */
  lemma ScheduleCoversWeek()
    ensures WorkoutSchedule.Keys == {0, 1, 2, 3, 4, 5, 6}
    ensures forall d :: d in WorkoutSchedule ==> (WorkoutSchedule[d].page == "#" <==> d == 0 || d == 6)
    ensures forall d, e :: 1 <= d < e <= 5 ==> WorkoutSchedule[d].page != WorkoutSchedule[e].page
  {
  }

  /** getTodayWorkout, with the weekday passed in:
      workoutSchedule[day] || workoutSchedule[1]. */
  function TodayWorkout(day: int): (w: Workout)
    ensures 0 <= day <= 6 ==> w == WorkoutSchedule[day]
    ensures !(0 <= day <= 6) ==> w == WorkoutSchedule[Monday]
  {
    if day in WorkoutSchedule then WorkoutSchedule[day] else WorkoutSchedule[Monday]
  }

  /** startWorkout: the page to navigate to, if any. */
  function StartWorkout(day: int): (target: Option<string>)
    ensures target.None? <==> TodayWorkout(day).page == "#"
    ensures target.Some? ==> target.value == TodayWorkout(day).page
  {
    var w := TodayWorkout(day);
    if w.page != "#" then Some(w.page) else None
  }

  /** Saturday and Sunday are the only days with nowhere to go; any other
      weekday, and any number outside 0..6 (which falls back to Monday),
      leads to a workout page. */
  lemma StartWorkoutOnTrainingDays(day: int)
    ensures StartWorkout(day).None? <==> day == 0 || day == 6
    ensures StartWorkout(day).Some? ==> StartWorkout(day).value != "#"
  {
    var w := TodayWorkout(day);
    if 0 <= day <= 6 {
      assert w == WorkoutSchedule[day];
    }
  }

  /** Each training day's page is named after one of the five workout types
      whose completion updateProgress counts, Monday's after the first. */
  lemma TrainingDaysAreTracked(day: int)
    requires 1 <= day <= 5
    ensures TodayWorkout(day).page == Keys.WorkoutTypes[day - 1] + ".html"
    ensures Keys.CompleteKey(Keys.WorkoutTypes[day - 1]) == Keys.AllWorkouts[day - 1]
  {
    assert TodayWorkout(day) == WorkoutSchedule[day];
    Keys.AllWorkoutsAreCompleteKeys(day - 1);
  }
}
