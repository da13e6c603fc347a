/** backend/internal/entity/competition.go: the status of a competition at a moment, and along a clock. */
module CompetitionStatus {
  import opened Prelude

  datatype Competition = Competition(
    startTime: Option<int>, endTime: Option<int>, freezeTime: Option<int>, isPaused: bool)

  datatype Status = NotStarted | Active | Paused | Frozen | Ended

  function GetStatus(c: Competition, now: int): Status {
    if c.startTime.None? || now < c.startTime.value then NotStarted
    else if c.endTime.Some? && c.endTime.value < now then Ended
    else if c.isPaused then Paused
    else if c.freezeTime.Some? && c.freezeTime.value < now then Frozen
    else Active
  }

  /** Each status, from the schedule alone: a bound counts as passed only strictly after it, the end is before a
      pause, and a pause before the freeze. */
  lemma StatusIs(c: Competition, now: int)
    ensures GetStatus(c, now) == NotStarted <==> (c.startTime.Some? ==> now < c.startTime.value)
    ensures GetStatus(c, now) == Ended <==>
      && c.startTime.Some? && c.startTime.value <= now
      && c.endTime.Some? && now > c.endTime.value
    ensures GetStatus(c, now) == Paused <==>
      && c.startTime.Some? && c.startTime.value <= now
      && (c.endTime.Some? ==> now <= c.endTime.value) && c.isPaused
    ensures GetStatus(c, now) == Frozen <==>
      && c.startTime.Some? && c.startTime.value <= now
      && (c.endTime.Some? ==> now <= c.endTime.value) && !c.isPaused
      && c.freezeTime.Some? && now > c.freezeTime.value
    ensures GetStatus(c, now) == Active <==>
      && c.startTime.Some? && c.startTime.value <= now
      && (c.endTime.Some? ==> now <= c.endTime.value) && !c.isPaused
      && (c.freezeTime.Some? ==> now <= c.freezeTime.value)
  {
  }

  predicate IsSubmissionAllowed(c: Competition, now: int) {
    GetStatus(c, now) == Active || GetStatus(c, now) == Frozen
  }

  function Rank(s: Status): int {
    match s
    case NotStarted => 0
    case Active => 1
    case Paused => 1
    case Frozen => 2
    case Ended => 3
  }

  ghost predicate NonDecreasing(clock: seq<int>) {
    forall i :: 0 <= i < |clock| - 1 ==> clock[i] <= clock[i + 1]
  }

  lemma {:induction false} ClockIsOrdered(clock: seq<int>, i: nat, j: nat)
    requires NonDecreasing(clock) && i <= j < |clock|
    ensures clock[i] <= clock[j]
    decreases j - i
  {
    if i < j {
      ClockIsOrdered(clock, i, j - 1);
      assert clock[j - 1] <= clock[j - 1 + 1];
    }
  }

  /** For a fixed schedule, along any clock that never runs backwards, the unpaused status never moves
      back along not started, active, frozen, ended, and ended is final; pausing at any of the moments
      only hides an active or a frozen status. */
  lemma StatusNeverMovesBack(c: Competition, clock: seq<int>, pausedThen: bool, pausedNow: bool, i: nat, j: nat)
    requires NonDecreasing(clock) && i <= j < |clock|
    ensures Rank(GetStatus(c.(isPaused := false), clock[i])) <= Rank(GetStatus(c.(isPaused := false), clock[j]))
    ensures GetStatus(c.(isPaused := pausedThen), clock[i]) == Ended ==> GetStatus(c.(isPaused := pausedNow), clock[j]) == Ended
    ensures GetStatus(c.(isPaused := pausedNow), clock[j]) == NotStarted ==>
      GetStatus(c.(isPaused := pausedThen), clock[i]) == NotStarted
    ensures GetStatus(c.(isPaused := true), clock[j]) ==
      (if IsSubmissionAllowed(c.(isPaused := false), clock[j]) then Paused else GetStatus(c.(isPaused := false), clock[j]))
  {
    ClockIsOrdered(clock, i, j);
  }

  /** Submissions are allowed exactly on the closed interval from start to end while not paused,
      whatever the freeze time, and never when the end comes before the start. */
  lemma SubmissionWindow(c: Competition, now: int)
    ensures IsSubmissionAllowed(c, now) <==>
      (!c.isPaused && c.startTime.Some? && c.startTime.value <= now && (c.endTime.Some? ==> now <= c.endTime.value))
    ensures c.startTime.Some? && c.endTime.Some? && c.endTime.value < c.startTime.value ==>
      GetStatus(c, now) in {NotStarted, Ended}
  {
  }

  /** Along a clock, the moments at which submissions are allowed are consecutive: once they close for
      good, no later moment reopens them. */
  lemma WindowIsOneInterval(c: Competition, clock: seq<int>, i: nat, j: nat, k: nat)
    requires NonDecreasing(clock) && i <= j <= k < |clock|
    requires IsSubmissionAllowed(c, clock[i]) && IsSubmissionAllowed(c, clock[k])
    ensures IsSubmissionAllowed(c, clock[j])
  {
    ClockIsOrdered(clock, i, j);
    ClockIsOrdered(clock, j, k);
  }
}
