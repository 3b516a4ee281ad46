// The two key namespaces the tracker writes into the store:
// "<type>-complete" for a whole workout type, "workout-<date>" for a day.

module Keys {

  /** The five workout-type keys updateProgress counts, in source order. */
  const AllWorkouts: seq<string> := [
    "lower-body-complete",
    "upper-body-complete",
    "cardio-abs-complete",
    "legs-glutes-complete",
    "full-body-complete"
  ]

  /** The key markWorkoutComplete sets for a workout type. */
  function CompleteKey(workoutType: string): (k: string)
    ensures |k| == |workoutType| + 9
    ensures k[..|workoutType|] == workoutType && k[|workoutType|..] == "-complete"
  {
    workoutType + "-complete"
  }

  /** Different workout types have different completion keys. */
  lemma CompleteKeyInjective(a: string, b: string)
    requires a != b
    ensures CompleteKey(a) != CompleteKey(b)
  {
  }

  function Digit(n: nat): (c: char)
    requires n < 10
    ensures '0' <= c <= '9'
  {
    "0123456789"[n]
  }

  /** Decimal numeral of n, most significant digit first. */
  function Decimal(n: nat): string {
    if n < 10 then [Digit(n)] else Decimal(n / 10) + [Digit(n % 10)]
  }

  /** The date part of a day key. Days are numbered consecutively; the
      stamp is the day number in signed decimal. It stands in for the
      ISO date text (YYYY-MM-DD) and shares what the tracker relies on:
      one stamp per day, different days get different stamps, and it ends
      in a digit. */
  function DayStamp(day: int): string {
    if day < 0 then "-" + Decimal(-day) else Decimal(day)
  }

  /** The daily flag key: "workout-" followed by the day's date. */
  function DayKey(day: int): string {
    "workout-" + DayStamp(day)
  }

  /** A numeral is a non-empty string of digits, one digit long exactly
      for the numbers below ten. */
  lemma {:induction false} DecimalShape(n: nat)
    ensures |Decimal(n)| >= 1
    ensures forall i :: 0 <= i < |Decimal(n)| ==> '0' <= Decimal(n)[i] <= '9'
    ensures n < 10 <==> |Decimal(n)| == 1
  {
    if n >= 10 {
      DecimalShape(n / 10);
    }
  }

  lemma {:induction false} DecimalInjective(a: nat, b: nat)
    requires Decimal(a) == Decimal(b)
    ensures a == b
  {
    DecimalShape(a);
    DecimalShape(b);
    if a >= 10 && b >= 10 {
      var sa, sb := Decimal(a), Decimal(b);
      assert sa[..|sa| - 1] == Decimal(a / 10);
      assert sb[..|sb| - 1] == Decimal(b / 10);
      DecimalInjective(a / 10, b / 10);
      assert Digit(a % 10) == sa[|sa| - 1] == Digit(b % 10);
    }
  }

  /** A stamp starts with '-' exactly for the days before day 0 and always
      ends in a digit. */
  lemma DayStampShape(day: int)
    ensures |DayStamp(day)| >= 1
    ensures '0' <= DayStamp(day)[|DayStamp(day)| - 1] <= '9'
    ensures DayStamp(day)[0] == '-' <==> day < 0
  {
    DecimalShape(if day < 0 then -day else day);
  }

  lemma DayStampInjective(d: int, e: int)
    requires DayStamp(d) == DayStamp(e)
    ensures d == e
  {
    DayStampShape(d);
    DayStampShape(e);
    if d < 0 && e < 0 {
      assert DayStamp(d)[1..] == Decimal(-d);
      assert DayStamp(e)[1..] == Decimal(-e);
      DecimalInjective(-d, -e);
    } else if d >= 0 && e >= 0 {
      DecimalInjective(d, e);
    }
  }

  /** Different days have different daily keys. */
  lemma DayKeyInjective(d: int, e: int)
    requires d != e
    ensures DayKey(d) != DayKey(e)
  {
    if DayKey(d) == DayKey(e) {
      assert DayKey(d)[8..] == DayStamp(d);
      assert DayKey(e)[8..] == DayStamp(e);
      DayStampInjective(d, e);
    }
  }

  /** A daily key is "workout-" followed by a non-empty stamp ending in a
      digit. */
  lemma DayKeyShape(day: int)
    ensures |DayKey(day)| > 8 && DayKey(day)[..8] == "workout-"
    ensures '0' <= DayKey(day)[|DayKey(day)| - 1] <= '9'
  {
    DayStampShape(day);
    assert DayKey(day)[8..] == DayStamp(day);
  }

  /** The two namespaces never meet: no daily key is a completion key,
      whatever the workout type. */
  lemma DayKeyIsNoCompleteKey(day: int, workoutType: string)
    ensures DayKey(day) != CompleteKey(workoutType)
  {
    DayStampShape(day);
    var k, c := DayKey(day), CompleteKey(workoutType);
    assert k[|k| - 1] == DayStamp(day)[|DayStamp(day)| - 1];
    assert c[|c| - 1] == 'e';
  }

  /** The five workout types of the catalog, in the order of AllWorkouts. */
  const WorkoutTypes: seq<string> := ["lower-body", "upper-body", "cardio-abs", "legs-glutes", "full-body"]

  /** Every key counted by updateProgress is the completion key of a
      workout type. */
  lemma AllWorkoutsAreCompleteKeys(i: nat)
    requires i < |AllWorkouts|
    ensures |WorkoutTypes| == |AllWorkouts|
    ensures AllWorkouts[i] == CompleteKey(WorkoutTypes[i])
  {
  }

  /** updateProgress counts five different keys, so each workout type is
      counted once. */
  lemma AllWorkoutsDistinct()
    ensures |AllWorkouts| == 5
    ensures forall i, j :: 0 <= i < j < |AllWorkouts| ==> AllWorkouts[i] != AllWorkouts[j]
  {
  }
}
