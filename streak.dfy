// What the day streak means, stated on the window of daily flags that
// calculateStreak scans: w[k] is the flag of the day k days before today.

module Streak {

  /** Length of the unbroken run of flagged days at the front of w. */
  function Run(w: seq<bool>): (n: nat)
    ensures n <= |w|
    ensures forall k :: 0 <= k < n ==> w[k]
    ensures n < |w| ==> !w[n]
  {
    if w == [] || !w[0] then 0 else 1 + Run(w[1..])
  }

  /** The streak: unflagged days at the front are passed over, and the
      streak is the run that starts at the first flagged day. */
  function Streak(w: seq<bool>): (s: nat)
    ensures s <= |w|
  {
    if w == [] then 0 else if w[0] then Run(w) else Streak(w[1..])
  }

  /** The scan over the prefix p has already stopped: some unflagged day
      follows a flagged one. */
  predicate Ended(p: seq<bool>) {
    exists j, k :: 0 <= j < k < |p| && p[j] && !p[k]
  }

  /** The streak is 0 exactly when no day of the window is flagged. */
  lemma {:induction false} StreakZeroIff(w: seq<bool>)
    ensures Streak(w) == 0 <==> forall k :: 0 <= k < |w| ==> !w[k]
  {
    if w != [] && !w[0] {
      StreakZeroIff(w[1..]);
      assert forall k :: 1 <= k < |w| ==> w[k] == w[1..][k - 1];
    }
  }

  /** If the first flagged day is j days back, the streak is the run of
      flagged days from there on: days j .. j+s-1 are all flagged, and day
      j+s is unflagged or lies past the end of the window. */
  lemma {:induction false} StreakFromFirstHit(w: seq<bool>, j: nat)
    requires j < |w| && w[j]
    requires forall k :: 0 <= k < j ==> !w[k]
    ensures Streak(w) == Run(w[j..])
    ensures Streak(w) >= 1 && j + Streak(w) <= |w|
    ensures forall k :: j <= k < j + Streak(w) ==> w[k]
    ensures j + Streak(w) < |w| ==> !w[j + Streak(w)]
  {
    if j > 0 {
      assert w[1..][j - 1..] == w[j..];
      StreakFromFirstHit(w[1..], j - 1);
    } else {
      assert w[0..] == w;
    }
    var s := Run(w[j..]);
    assert forall k :: j <= k < j + s ==> w[k] == w[j..][k - j];
  }

  /** A window whose first flagged day is j days back and whose flagged
      days run unbroken for n days has streak n. */
  lemma StreakOfShape(w: seq<bool>, j: nat, n: nat)
    requires 1 <= n && j + n <= |w|
    requires forall k :: 0 <= k < j ==> !w[k]
    requires forall k :: j <= k < j + n ==> w[k]
    requires j + n < |w| ==> !w[j + n]
    ensures Streak(w) == n
  {
    StreakFromFirstHit(w, j);
  }

  /** An unflagged today does not break a streak that starts yesterday. */
  lemma UnflaggedTodayIsSkipped(w: seq<bool>)
    requires |w| >= 2 && !w[0] && w[1]
    ensures Streak(w) == Run(w[1..]) && Streak(w) >= 1
  {
  }

  /** The scan has stopped before day k exactly when day k lies past the
      end of the streak's run: the streak is at least 1 and the run from
      the first flagged day ends before k. */
  lemma {:induction false} EndedIffPastRun(w: seq<bool>, k: nat, j: nat)
    requires k <= |w| && j < |w| && w[j]
    requires forall i :: 0 <= i < j ==> !w[i]
    ensures Ended(w[..k]) <==> j + Streak(w) < k
  {
    StreakFromFirstHit(w, j);
    var s := Streak(w);
    var p := w[..k];
    if j + s < k {
      assert p[j + s - 1] && !p[j + s];
    }
    if Ended(p) {
      var a, b :| 0 <= a < b < |p| && p[a] && !p[b];
      assert w[a] && !w[b];
      assert j <= a;
      assert !(b < j + s);
    }
  }

  /** The state of calculateStreak's loop after reading the first i days
      without stopping: the streak counter s is the number of flagged days
      read since the first flagged one, and none of those was followed by
      an unflagged day. */
  ghost predicate Scanned(w: seq<bool>, i: nat, s: nat) {
    s <= i <= |w| &&
    (forall k :: 0 <= k < i - s ==> !w[k]) &&
    (forall k :: i - s <= k < i ==> w[k])
  }

  /** Reading one more day: a flagged day extends the count; an unflagged
      day before any flagged one is passed over. */
  lemma ScanStep(w: seq<bool>, i: nat, s: nat)
    requires Scanned(w, i, s) && i < |w|
    requires w[i] || s == 0
    ensures Scanned(w, i + 1, if w[i] then s + 1 else 0)
  {
  }

  /** While the loop runs, the scan has not stopped. */
  lemma ScanNotEnded(w: seq<bool>, i: nat, s: nat)
    requires Scanned(w, i, s)
    ensures !Ended(w[..i])
  {
  }

  /** An unflagged day after a flagged one stops the loop: the count is
      the streak, and every later day lies past the end of the scan. */
  lemma ScanGap(w: seq<bool>, i: nat, s: nat)
    requires Scanned(w, i, s) && i < |w| && !w[i] && s > 0
    ensures Streak(w) == s
    ensures forall k :: i < k <= |w| ==> Ended(w[..k])
  {
    StreakOfShape(w, i - s, s);
    forall k | i < k <= |w|
      ensures Ended(w[..k])
    {
      assert w[..k][i - 1] && !w[..k][i];
    }
  }

  /** Reading the whole window without stopping: the count is the streak. */
  lemma ScanDone(w: seq<bool>, s: nat)
    requires Scanned(w, |w|, s)
    ensures Streak(w) == s
  {
    if s == 0 {
      StreakZeroIff(w);
    } else {
      StreakOfShape(w, |w| - s, s);
    }
  }
}
