// The data-dependent choices generateExerciseHTML makes for one exercise
// card: which badge to show and how each weight option is labelled.

module Exercise {

  /** One exercise record of the workout catalog. `weights` lists the
      entries of the weights object in Object.entries order. */
  datatype Exercise = Exercise(
    id: string, name: string, kind: string,
    sets: string, reps: string, duration: string,
    weights: seq<(string, string)>,
    notes: string, youtube: string)

  /** The badge at the top of the card's details. */
  datatype Badge = SetsReps(text: string) | Duration(text: string) | NoBadge

  /** One weight option: its label and the weight text. */
  datatype WeightOption = WeightOption(weightLabel: string, weightValue: string)

  /** The weight block: absent when the exercise lists no weights. */
  datatype WeightSpecs = NoSpecs | Specs(options: seq<WeightOption>)

  /** The multiplication sign between sets and reps. */
  const Times: string := "\U{00D7}"

  /** setsReps, duration and badge: sets x reps when both are non-empty,
      otherwise the duration when it is non-empty, otherwise nothing. */
  function BadgeOf(e: Exercise): (b: Badge)
    ensures b.SetsReps? <==> e.sets != "" && e.reps != ""
    ensures b.SetsReps? ==> b.text == e.sets + Times + e.reps
    ensures b.Duration? <==> (e.sets == "" || e.reps == "") && e.duration != ""
    ensures b.Duration? ==> b.text == e.duration
    ensures b.NoBadge? <==> (e.sets == "" || e.reps == "") && e.duration == ""
    ensures !b.NoBadge? ==> b.text != ""
  {
    var setsReps := if e.sets != "" && e.reps != "" then e.sets + Times + e.reps else "";
    var duration := e.duration;
    if setsReps != "" then SetsReps(setsReps)
    else if duration != "" then Duration(duration)
    else NoBadge
  }

  /** String.prototype.toUpperCase on one character, for the ASCII range. */
  function UpperCase(c: char): char {
    if 'a' <= c <= 'z' then (c as int - 32) as char else c
  }

  function LowerCase(c: char): char {
    if 'A' <= c <= 'Z' then (c as int + 32) as char else c
  }

  /** type.charAt(0).toUpperCase() + type.slice(1); the empty string stays
      empty. */
  function Capitalize(s: string): string {
    if s == [] then [] else [UpperCase(s[0])] + s[1..]
  }

  /** Capitalizing changes at most the first character, and only its case:
      the length and the rest are kept, the first character is no longer a
      lower-case letter, and it is the same letter ignoring case. */
  lemma CapitalizeChangesOnlyFirstCase(s: string)
    ensures |Capitalize(s)| == |s|
    ensures s != [] ==> Capitalize(s)[1..] == s[1..]
    ensures s != [] ==> !('a' <= Capitalize(s)[0] <= 'z')
    ensures s != [] ==> LowerCase(Capitalize(s)[0]) == LowerCase(s[0])
  {
  }

  /** Capitalizing twice is capitalizing once. */
  lemma CapitalizeIdempotent(s: string)
    ensures Capitalize(Capitalize(s)) == Capitalize(s)
  {
  }

  /** weightSpecs: nothing when the weights object has no keys; otherwise
      one option per entry, in order, labelled with the capitalized key. */
  method WeightSpecsOf(weights: seq<(string, string)>) returns (specs: WeightSpecs)
    ensures specs.NoSpecs? <==> weights == []
    ensures specs.Specs? ==> |specs.options| == |weights|
    ensures specs.Specs? ==> forall i :: 0 <= i < |weights| ==>
      specs.options[i] == WeightOption(Capitalize(weights[i].0), weights[i].1)
  {
    if |weights| == 0 {
      return NoSpecs;
    }
    var options: seq<WeightOption> := [];
    for i := 0 to |weights|
      invariant |options| == i
      invariant forall j :: 0 <= j < i ==>
        options[j] == WeightOption(Capitalize(weights[j].0), weights[j].1)
    {
      var (kind, value) := weights[i];
      var caption := Capitalize(kind);
      options := options + [WeightOption(caption, value)];
    }
    specs := Specs(options);
  }

  // Two records of the embedded catalog, as examples.

  const LowerWarmup: Exercise := Exercise(
    "lower-warmup", "Brisk walk/cycle", "warmup", "", "", "5-10 min", [],
    "Easy pace, gradually increase speed",
    "https://www.youtube.com/watch?v=3WUtJxLv-wI")

  const LowerSquat: Exercise := Exercise(
    "lower-squat", "Squat/Goblet Squat", "main", "3", "10\U{2013}12", "",
    [("dumbbell", "4-6 kg at chest"), ("barbell", "15-20 kg total")],
    "Comfortable depth, knees tracking over toes",
    "https://www.youtube.com/watch?v=MeIiIdhvXT4")

  /** The warm-up shows its duration; the squat shows sets x reps and has
      two weight options labelled "Dumbbell" and "Barbell". */
  lemma CatalogExamples()
    ensures BadgeOf(LowerWarmup) == Duration("5-10 min")
    ensures BadgeOf(LowerSquat) == SetsReps("3\U{00D7}10\U{2013}12")
    ensures Capitalize("dumbbell") == "Dumbbell" && Capitalize("barbell") == "Barbell"
  {
  }
}
