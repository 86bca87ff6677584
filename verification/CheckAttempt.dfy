/** One check attempt: the status of its results, the worktree before and after them, and the exit status. */
module CheckAttempt {
  import opened Basics

  // ---------------------------------------------------------------- results

  datatype Status = Passed | Failed | Error | Cancelled | Incomplete | Unavailable

  /** A result and whether it reports a cleanup failure. */
  datatype Result = Result(status: Status, cleanupFailed: bool)

  function Rank(status: Status): nat {
    match status
    case Passed => 5
    case Incomplete => 4
    case Unavailable => 3
    case Failed => 2
    case Error => 1
    case Cancelled => 0
  }

  ghost predicate AnyCleanupFailed(results: seq<Result>) {
    exists i :: 0 <= i < |results| && results[i].cleanupFailed
  }

  /** The worst status of the results, and Unavailable without any. */
  ghost predicate IsWorst(results: seq<Result>, status: Status) {
    if results == [] then status == Unavailable
    else
      && (exists i :: 0 <= i < |results| && results[i].status == status)
      && forall i :: 0 <= i < |results| ==> Rank(status) <= Rank(results[i].status)
  }

  lemma WorstIsUnique(results: seq<Result>, a: Status, b: Status)
    requires IsWorst(results, a) && IsWorst(results, b)
    ensures a == b
  {
  }

  function WorstFrom(results: seq<Result>, worst: Status): (r: Status)
    ensures Rank(r) <= Rank(worst)
    ensures forall i :: 0 <= i < |results| ==> Rank(r) <= Rank(results[i].status)
    ensures r == worst || exists i :: 0 <= i < |results| && results[i].status == r
    decreases |results|
  {
    if results == [] then worst
    else
      var next := if Rank(results[0].status) < Rank(worst) then results[0].status else worst;
      var r := WorstFrom(results[1..], next);
      assert forall i :: 1 <= i < |results| ==> results[i] == results[1..][i - 1];
      r
  }

  predicate CleanupFailedIn(results: seq<Result>) {
    results != [] && (results[0].cleanupFailed || CleanupFailedIn(results[1..]))
  }

  lemma {:induction false} CleanupFailedInIsAny(results: seq<Result>)
    ensures CleanupFailedIn(results) <==> AnyCleanupFailed(results)
  {
    if results != [] {
      CleanupFailedInIsAny(results[1..]);
      assert forall i :: 1 <= i < |results| ==> results[i] == results[1..][i - 1];
      assert forall i :: 0 <= i < |results| - 1 ==> results[1..][i] == results[i + 1];
    }
  }

  function Aggregated(results: seq<Result>, cancelled: bool): Status {
    if CleanupFailedIn(results) then Error
    else
      var status := WorstFrom(results, if results == [] then Unavailable else Passed);
      if status.Error? then Error else if cancelled then Cancelled else status
  }

  /** AggregateAttemptStatus: a cleanup failure or an error outranks the cancellation, which outranks
      the worst status of the results, of which there is exactly one. */
  lemma AggregateMeans(results: seq<Result>, cancelled: bool)
    ensures AnyCleanupFailed(results) ==> Aggregated(results, cancelled) == Error
    ensures exists worst :: IsWorst(results, worst)
    ensures forall worst :: IsWorst(results, worst) && !AnyCleanupFailed(results) ==>
      Aggregated(results, cancelled) == if worst.Error? then Error else if cancelled then Cancelled else worst
  {
    CleanupFailedInIsAny(results);
    var start := if results == [] then Unavailable else Passed;
    var found := WorstFrom(results, start);
    assert results != [] && found == start ==> results[0].status == start;
    assert IsWorst(results, found);
    forall worst | IsWorst(results, worst) ensures worst == found {
      WorstIsUnique(results, worst, found);
    }
  }

  /** An attempt passed exactly when it was not cancelled and has results, all passed with their cleanup. */
  lemma PassedMeans(results: seq<Result>, cancelled: bool)
    ensures Aggregated(results, cancelled) == Passed <==>
      !cancelled && results != [] && forall i :: 0 <= i < |results| ==> results[i] == Result(Passed, false)
  {
    CleanupFailedInIsAny(results);
    var worst := WorstFrom(results, if results == [] then Unavailable else Passed);
    if results != [] && !AnyCleanupFailed(results) && worst.Passed? {
      forall i | 0 <= i < |results| ensures results[i] == Result(Passed, false) {
        assert Rank(worst) <= Rank(results[i].status);
      }
    }
  }

  /** A cleanup failed, or the worst result is an error. */
  ghost predicate EndsInError(results: seq<Result>) {
    AnyCleanupFailed(results) || IsWorst(results, Error)
  }

  /** An attempt is cancelled exactly when it was cancelled, or one of its results, and does not end in error. */
  lemma CancelledMeans(results: seq<Result>, cancelled: bool)
    ensures Aggregated(results, cancelled) == Cancelled <==>
      !EndsInError(results) && (cancelled || IsWorst(results, Cancelled))
  {
    AggregateMeans(results, cancelled);
    CleanupFailedInIsAny(results);
    var worst :| IsWorst(results, worst);
    forall other | IsWorst(results, other) ensures other == worst {
      WorstIsUnique(results, worst, other);
    }
    hide Aggregated, IsWorst;
  }

  ghost predicate HasStatus(results: seq<Result>, status: Status) {
    exists i :: 0 <= i < |results| && results[i].status == status
  }

  /** From worst to best: cancelled an error, a failure, unavailable, incomplete, and passed. */
  lemma WorstInOrder(results: seq<Result>, status: Status)
    requires results != []
    ensures IsWorst(results, status) <==>
      if HasStatus(results, Cancelled) then status == Cancelled
      else if HasStatus(results, Error) then status == Error
      else if HasStatus(results, Failed) then status == Failed
      else if HasStatus(results, Unavailable) then status == Unavailable
      else if HasStatus(results, Incomplete) then status == Incomplete
      else status == Passed
  {
    assert HasStatus(results, results[0].status);
  }

  method AggregateAttemptStatus(results: seq<Result>, cancelled: bool) returns (status: Status)
    ensures status == Aggregated(results, cancelled)
  {
    var i := 0;
    while i < |results|
      invariant 0 <= i <= |results|
      invariant CleanupFailedIn(results) == CleanupFailedIn(results[i..])
    {
      if results[i].cleanupFailed {
        return Error;
      }
      assert results[i..][1..] == results[i + 1..];
      i := i + 1;
    }
    status := if results == [] then Unavailable else Passed;
    var j := 0;
    assert results[0..] == results;
    while j < |results|
      invariant 0 <= j <= |results|
      invariant WorstFrom(results, if results == [] then Unavailable else Passed) == WorstFrom(results[j..], status)
    {
      assert results[j..][1..] == results[j + 1..];
      if Rank(results[j].status) < Rank(status) {
        status := results[j].status;
      }
      j := j + 1;
    }
    if status.Error? {
      return Error;
    }
    if cancelled {
      return Cancelled;
    }
  }

  // ---------------------------------------------------------------- the worktree

  datatype Tree = Clean | Dirty | Unknown

  /** One observation: the revision is read, or not, and the tree is unknown then. */
  datatype Observation = Observation(readable: bool, revision: nat, tree: Tree)

  function Confirmed(revision: nat, before: Tree, after: Observation): Tree {
    if (after.readable && after.revision != revision) || before.Dirty? || after.tree.Dirty? then Dirty
    else if before.Unknown? || after.tree.Unknown? then Unknown
    else Clean
  }

  /** How bad a tree is: dirty, then unknown, then clean. */
  function Badness(tree: Tree): nat {
    match tree
    case Clean => 0
    case Unknown => 1
    case Dirty => 2
  }

  /** The confirmed tree is the worse of both observations, and a readable revision that moved makes
      it dirty: it is certified clean only for a revision that both observations saw clean. */
  lemma ConfirmedIsTheWorse(revision: nat, before: Tree, after: Observation)
    requires !after.readable ==> after.tree.Unknown?
    ensures var tree := Confirmed(revision, before, after);
      && Badness(tree) >= Badness(before) && Badness(tree) >= Badness(after.tree)
      && (tree == before || tree == after.tree || (tree.Dirty? && after.readable && after.revision != revision))
      && (tree.Clean? <==> before.Clean? && after == Observation(true, revision, Clean))
  {
  }

  // ---------------------------------------------------------------- the exit status

  type Signal = nat

  datatype Exit = Zero | Interrupted(signal: Option<Signal>) | NotPassed | NotRecorded | Failure

  function OutcomeError(recorded: bool, status: Status, cancelled: bool, stop: Option<Signal>): Exit {
    if !recorded then NotRecorded
    else if cancelled && status.Cancelled? then Interrupted(stop)
    else if !status.Passed? then NotPassed
    else if stop.Some? then Interrupted(stop)
    else Zero
  }
}
