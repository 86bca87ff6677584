/** The server log that moves aside at a size limit (rotatingFile), and the file system under it. */
module RotatingLog {
  import opened Basics

  /** Why the log cannot rotate or reopen. */
  datatype Failure = NoFailure | RenameFailed | ReopenFailed

  /** What the system does during one Write: the clock when it is called and when a failure is
      scheduled, whether a rename and an open succeed, how many bytes of the line the file takes,
      the notice of a failure, and how many of its bytes the file takes. */
  datatype Env = Env(now: int, later: int, renames: bool, opens: bool, takes: nat, notice: seq<byte>, noticeTakes: nat)

  /** The log. file tells whether the log file is open and size what Write believes it holds; current
      and older are what FILE and FILE.1 really hold, and stderr what was written there. */
  datatype Log = Log(limit: nat, retryAfter: nat, dir: bool, file: bool, size: nat, failure: Failure, retryAt: int,
                     reported: bool, current: seq<byte>, older: seq<byte>, stderr: seq<seq<byte>>)

  datatype Outcome = Closed | Refused(cause: Failure) | Wrote(written: nat)

  // ---------------------------------------------------------------- the operations

  function NoticeBytes(env: Env): seq<byte> {
    env.notice[..Min(env.noticeTakes, |env.notice|)]
  }

  function Failed(s: Log, cause: Failure, env: Env): Log {
    var failed := s.(failure := cause, retryAt := env.later + s.retryAfter);
    if s.reported then failed
    else failed.(reported := true,
                 current := if s.file then s.current + NoticeBytes(env) else s.current,
                 stderr := s.stderr + [env.notice])
  }

  function Reopened(s: Log, env: Env): Log {
    if !env.opens then Failed(s, ReopenFailed, env) else
      var again := s.(file := true, size := |s.current|);
      if again.failure.NoFailure? || again.size > s.limit then again
      else again.(failure := NoFailure, reported := false)
  }

  function Rotated(s: Log, env: Env): Log {
    var closed := s.(file := false);
    if env.renames then Reopened(closed.(older := s.current, current := []), env)
    else Failed(Reopened(closed, env), RenameFailed, env)
  }

  predicate TriesRotation(s: Log, data: seq<byte>, env: Env) {
    s.dir && s.file && s.size > 0 && s.size + |data| > s.limit && env.now >= s.retryAt
  }

  predicate TriesReopen(s: Log, env: Env) {
    s.dir && !s.file && env.now >= s.retryAt
  }

  function Prepared(s: Log, data: seq<byte>, env: Env): Log {
    if TriesRotation(s, data, env) then Rotated(s, env)
    else if TriesReopen(s, env) then Reopened(s, env)
    else s
  }

  function Written(s: Log, data: seq<byte>, env: Env): (Log, Outcome) {
    if !s.dir then (s, Closed) else
      var ready := Prepared(s, data, env);
      if !ready.file || ready.size + |data| > 2 * ready.limit then (ready, Refused(ready.failure)) else
        var n := Min(env.takes, |data|);
        (ready.(current := ready.current + data[..n], size := ready.size + n), Wrote(n))
  }

  function After(s: Log, data: seq<byte>, env: Env): Log {
    Written(s, data, env).0
  }

  // ---------------------------------------------------------------- the type

  class RotatingFile {
    const limit: nat
    const retryAfter: nat
    var dir: bool
    var file: bool
    var size: nat
    var failure: Failure
    var retryAt: int
    var reported: bool
    var current: seq<byte>
    var older: seq<byte>
    var stderr: seq<seq<byte>>

    function Now(): Log
      reads this
    {
      Log(limit, retryAfter, dir, file, size, failure, retryAt, reported, current, older, stderr)
    }

    /** openRotatingFile of a log whose file could be again. */
    constructor (limit: nat, retryAfter: nat, current: seq<byte>, older: seq<byte>, start: int)
      ensures Now() == Log(limit, retryAfter, true, true, |current|, NoFailure, start, false, current, older, [])
    {
      this.limit, this.retryAfter, this.current, this.older := limit, retryAfter, current, older;
      dir, file, size, failure, retryAt, reported, stderr := true, true, |current|, NoFailure, start, false, [];
    }

    method Fail(cause: Failure, env: Env)
      modifies this
      ensures Now() == Failed(old(Now()), cause, env)
    {
      failure := cause;
      retryAt := env.later + retryAfter;
      if reported {
        return;
      }
      reported := true;
      if file {
        current := current + NoticeBytes(env);
      }
      stderr := stderr + [env.notice];
    }

    method Reopen(env: Env)
      modifies this
      ensures Now() == Reopened(old(Now()), env)
    {
      if !env.opens {
        Fail(ReopenFailed, env);
        return;
      }
      file, size := true, |current|;
      if failure.NoFailure? {
        return;
      }
      if size <= limit {
        failure, reported := NoFailure, false;
      }
    }

    method Rotate(env: Env)
      modifies this
      ensures Now() == Rotated(old(Now()), env)
    {
      file := false;
      if env.renames {
        older, current := current, [];
      }
      Reopen(env);
      if !env.renames {
        Fail(RenameFailed, env);
      }
    }

    method Write(data: seq<byte>, env: Env) returns (outcome: Outcome)
      modifies this
      ensures (Now(), outcome) == Written(old(Now()), data, env)
    {
      if !dir {
        return Closed;
      }
      var retry := env.now >= retryAt;
      if file && size > 0 && size + |data| > limit && retry {
        Rotate(env);
      } else if !file && retry {
        Reopen(env);
      }
      if !file || size + |data| > 2 * limit {
        return Refused(failure);
      }
      var n := Min(env.takes, |data|);
      current := current + data[..n];
      size := size + n;
      return Wrote(n);
    }

    method Close()
      modifies this`file, this`dir
      ensures Now() == old(Now()).(file := false, dir := false)
    {
      file := false;
      dir := false;
    }

    /** fileOrStderr.Write: a line that the file does not take whole goes whole to standard error. */
    method WriteOrStderr(line: seq<byte>, env: Env)
      modifies this
      ensures Now() == Delivered(old(Now()), line, env)
    {
      var outcome := Write(line, env);
      if outcome != Wrote(|line|) {
        stderr := stderr + [line];
      }
    }
  }

  // ---------------------------------------------------------------- runs

  datatype Call = Call(line: seq<byte>, env: Env)

  function Opened(limit: nat, retryAfter: nat, current: seq<byte>, older: seq<byte>, start: int): Log {
    Log(limit, retryAfter, true, true, |current|, NoFailure, start, false, current, older, [])
  }

  ghost predicate Started(s: Log, start: int) {
    s == Opened(s.limit, s.retryAfter, s.current, s.older, start)
  }

  /** The clock after k calls. */
  ghost function Clock(calls: seq<Call>, start: int, k: nat): int
    requires k <= |calls|
  {
    if k == 0 then start else calls[k - 1].env.later
  }

  /** Call k is a Write of the state it meets, on a clock that does not go back. */
  ghost predicate CallFollows(calls: seq<Call>, states: seq<Log>, start: int, k: nat)
    requires k < |calls| < |states|
  {
    && states[k + 1] == After(states[k], calls[k].line, calls[k].env)
    && Clock(calls, start, k) <= calls[k].env.now <= calls[k].env.later
  }

  /** Calls of Write one after the other. */
  ghost predicate IsRun(calls: seq<Call>, states: seq<Log>, start: int) {
    && |states| == |calls| + 1 && Started(states[0], start)
    && forall k :: 0 <= k < |calls| ==> CallFollows(calls, states, start, k)
  }

  // ---------------------------------------------------------------- failures and delays

  /** A failure is reported while it lasts; without one no retry delay is pending, and a log that is
      not open has one. */
  ghost predicate FailureFits(s: Log, clock: int) {
    && s.dir
    && (s.reported <==> !s.failure.NoFailure?)
    && (s.failure.NoFailure? ==> s.retryAt <= clock && s.file)
  }

  lemma FailureStaysFit(s: Log, line: seq<byte>, env: Env, clock: int)
    requires FailureFits(s, clock) && clock <= env.now <= env.later
    ensures FailureFits(After(s, line, env), env.later)
  {
  }

  lemma {:induction false} RunFits(calls: seq<Call>, states: seq<Log>, start: int, k: nat)
    requires IsRun(calls, states, start) && k <= |calls|
    ensures FailureFits(states[k], Clock(calls, start, k))
  {
    if k > 0 {
      RunFits(calls, states, start, k - 1);
      assert CallFollows(calls, states, start, k - 1);
      FailureStaysFit(states[k - 1], calls[k - 1].line, calls[k - 1].env, Clock(calls, start, k - 1));
    }
  }

  /** One call of a run. */
  lemma StepOf(calls: seq<Call>, states: seq<Log>, start: int, k: nat)
    requires IsRun(calls, states, start) && k < |calls|
    ensures |states| == |calls| + 1
    ensures states[k + 1] == After(states[k], calls[k].line, calls[k].env)
    ensures FailureFits(states[k], Clock(calls, start, k)) && states[k].dir
    ensures Clock(calls, start, k) <= calls[k].env.now <= calls[k].env.later == Clock(calls, start, k + 1)
  {
    RunFits(calls, states, start, k);
    assert CallFollows(calls, states, start, k);
  }

  /** A rotation whose rename succeeds: what was in FILE.1 is gone. */
  predicate Moves(s: Log, line: seq<byte>, env: Env) {
    TriesRotation(s, line, env) && env.renames
  }

  /** The call ends a failure: it gets the rename and the open it asks for, or opens a closed log that is
      no longer than the limit. */
  ghost predicate EndsFailure(s: Log, line: seq<byte>, env: Env) {
    env.opens && (Moves(s, line, env) || (TriesReopen(s, env) && |s.current| <= s.limit))
  }

  /** The line meets a log that was closed, opens it again and ends the failure, and does not fit beside
      what the file holds although it is no longer than twice the limit: no rotation is tried then. */
  ghost predicate Misblamed(s: Log, line: seq<byte>, env: Env) {
    TriesReopen(s, env) && env.opens && |s.current| <= s.limit && |line| <= 2 * s.limit < |s.current| + |line|
  }

  /** A line longer than twice the limit is blamed on its length: no failure is there before it, and a
      rotation that it asks for succeeds; or one is there, and the call ends it. */
  ghost predicate Blamed(s: Log, line: seq<byte>, env: Env) {
    if s.failure.NoFailure? then TriesRotation(s, line, env) ==> env.renames && env.opens else EndsFailure(s, line, env)
  }

  /** In every run, a line longer than twice the limit is refused, and blamed on its length exactly when
      nothing else is wrong; any other line is blamed on its length exactly when it is misblamed. */
  lemma RefusalSaysWhy(calls: seq<Call>, states: seq<Log>, start: int, k: nat)
    requires IsRun(calls, states, start) && k < |calls|
    ensures var s, line, env := states[k], calls[k].line, calls[k].env; var (t, outcome) := Written(s, line, env);
      && !outcome.Closed?
      && (|line| > 2 * s.limit ==> outcome == Refused(t.failure))
      && (outcome == Refused(NoFailure) <==>
          if |line| > 2 * s.limit then Blamed(s, line, env) else Misblamed(s, line, env))
  {
    StepOf(calls, states, start, k);
    RefusalOfOneCall(states[k], calls[k].line, calls[k].env, Clock(calls, start, k));
  }

  lemma RefusalOfOneCall(s: Log, line: seq<byte>, env: Env, clock: int)
    requires FailureFits(s, clock) && clock <= env.now <= env.later
    ensures var (t, outcome) := Written(s, line, env);
      && !outcome.Closed?
      && (|line| > 2 * s.limit ==> outcome == Refused(t.failure))
      && (outcome == Refused(NoFailure) <==>
          if |line| > 2 * s.limit then Blamed(s, line, env) else Misblamed(s, line, env))
  {
    var ready := Prepared(s, line, env);
    if TriesRotation(s, line, env) {
      assert !env.renames ==> !ready.failure.NoFailure?;
      assert env.renames && env.opens ==> ready.size == 0;
    } else if TriesReopen(s, env) {
      assert env.opens ==> ready.size == |s.current|;
    } else {
      assert s.failure.NoFailure? ==> s.size == 0 || s.size + |line| <= s.limit;
    }
  }

  // ---------------------------------------------------------------- the real size

  /** The file holds what Write believes and, after an announced failure, at most one notice more. */
  ghost predicate SizesFit(s: Log, most: nat, notice: nat) {
    && 2 * s.limit <= most
    && (s.file ==> s.size <= |s.current| <= s.size + notice)
    && (s.file && !s.reported ==> s.size == |s.current|)
    && |s.current| <= most + notice
    && (!s.reported ==> |s.current| <= most)
  }

  lemma ReopenedKeepsSizes(s: Log, env: Env, most: nat, notice: nat)
    requires !s.file && |s.current| <= most + notice && (!s.reported ==> |s.current| <= most) && 2 * s.limit <= most
    requires s.reported <==> !s.failure.NoFailure?
    ensures SizesFit(Reopened(s, env), most, notice) && Reopened(s, env).current == s.current
    ensures var t := Reopened(s, env); t.reported <==> !t.failure.NoFailure?
    ensures Reopened(s, env).file ==> Reopened(s, env).size == |s.current|
  {
  }

  lemma SizesStayFit(s: Log, line: seq<byte>, env: Env, clock: int, most: nat, notice: nat)
    requires FailureFits(s, clock) && SizesFit(s, most, notice) && |env.notice| <= notice
    ensures SizesFit(After(s, line, env), most, notice)
    ensures After(s, line, env).older == s.older || |After(s, line, env).older| <= most + notice
  {
    var closed := s.(file := false);
    var moved := closed.(older := s.current, current := []);
    ReopenedKeepsSizes(closed, env, most, notice);
    ReopenedKeepsSizes(moved, env, most, notice);
    assert SizesFit(Prepared(s, line, env), most, notice);
    hide Prepared, Reopened, Failed, FailureFits;
  }

  /** However long renames and opens keep failing, FILE never holds more than the greater of what it
      held when it was opened and twice the limit, and one notice; nor does FILE.1 once it is replaced. */
  lemma {:induction false} RealSizeIsBounded(calls: seq<Call>, states: seq<Log>, start: int, notice: nat, k: nat)
    requires IsRun(calls, states, start) && k <= |calls|
    requires forall j :: 0 <= j < |calls| ==> |calls[j].env.notice| <= notice
    ensures states[k].limit == states[0].limit
    ensures SizesFit(states[k], Max(|states[0].current|, 2 * states[0].limit), notice)
    ensures states[k].older == states[0].older
      || |states[k].older| <= Max(|states[0].current|, 2 * states[0].limit) + notice
  {
    if k > 0 {
      StepOf(calls, states, start, k - 1);
      RealSizeIsBounded(calls, states, start, notice, k - 1);
      hide IsRun, After, FailureFits, SizesFit;
      SizesStayFit(states[k - 1], calls[k - 1].line, calls[k - 1].env, Clock(calls, start, k - 1),
        Max(|states[0].current|, 2 * states[0].limit), notice);
      LimitsStay(states[k - 1], calls[k - 1].line, calls[k - 1].env);
    }
  }

  lemma LimitsStay(s: Log, line: seq<byte>, env: Env)
    ensures After(s, line, env).limit == s.limit && After(s, line, env).retryAfter == s.retryAfter
  {
  }

  // ---------------------------------------------------------------- what is kept

  /** FILE.1 followed by FILE. */
  function Pair(s: Log): seq<byte> {
    s.older + s.current
  }

  /** A failure is announced on standard error. */
  predicate Announces(s: Log, line: seq<byte>, env: Env) {
    |After(s, line, env).stderr| > |s.stderr|
  }

  /** What the log takes in one call: the notice of a failure announced while the file is open, and as
      much of the line as the call says it wrote. */
  function Taken(s: Log, line: seq<byte>, env: Env): seq<byte> {
    var (t, outcome) := Written(s, line, env);
    (if Announces(s, line, env) && t.file then NoticeBytes(env) else []) +
    (if outcome.Wrote? && outcome.written <= |line| then line[..outcome.written] else [])
  }

  lemma PreparedKeepsPair(s: Log, line: seq<byte>, env: Env)
    requires s.dir
    ensures var ready := Prepared(s, line, env);
      && ready.older == (if Moves(s, line, env) then s.current else s.older)
      && ready.current == (if Moves(s, line, env) then [] else s.current) +
           (if |ready.stderr| > |s.stderr| && ready.file then NoticeBytes(env) else [])
  {
  }

  /** What the call adds once it is prepared. */
  lemma WrittenAddsTheLine(s: Log, line: seq<byte>, env: Env)
    requires s.dir
    ensures var ready := Prepared(s, line, env); var (t, outcome) := Written(s, line, env);
      && t.older == ready.older && t.stderr == ready.stderr && t.file == ready.file
      && (outcome.Wrote? ==> outcome.written <= |line|)
      && t.current == ready.current + if outcome.Wrote? then line[..outcome.written] else []
  {
    hide Prepared;
  }

  lemma CallKeepsPair(s: Log, line: seq<byte>, env: Env)
    requires s.dir
    ensures Pair(After(s, line, env)) ==
      Pair(s)[if Moves(s, line, env) then |s.older| else 0..] + Taken(s, line, env)
    ensures After(s, line, env).older == if Moves(s, line, env) then s.current else s.older
  {
    hide Prepared, Written, Moves, NoticeBytes;
    PreparedKeepsPair(s, line, env);
    WrittenAddsTheLine(s, line, env);
    assert Pair(s)[|s.older|..] == s.current;
    assert Pair(s)[0..] == s.older + s.current;
  }

  /** Everything the log took in the first k calls, after what the two files held. */
  ghost function AllTaken(calls: seq<Call>, states: seq<Log>, k: nat): (all: seq<byte>)
    requires k <= |calls| < |states|
  {
    if k == 0 then Pair(states[0])
    else AllTaken(calls, states, k - 1) + Taken(states[k - 1], calls[k - 1].line, calls[k - 1].env)
  }

  /** What successful rotations dropped in the first k calls. */
  ghost function Dropped(calls: seq<Call>, states: seq<Log>, k: nat): nat
    requires k <= |calls| < |states|
  {
    if k == 0 then 0
    else Dropped(calls, states, k - 1) +
         if Moves(states[k - 1], calls[k - 1].line, calls[k - 1].env) then |states[k - 1].older| else 0
  }

  lemma SuffixStep(s: Log, line: seq<byte>, env: Env, all: seq<byte>, gone: nat)
    requires s.dir && gone <= |all| && Pair(s) == all[gone..]
    ensures var more := if Moves(s, line, env) then |s.older| else 0;
      gone + more <= |all| && Pair(After(s, line, env)) == (all + Taken(s, line, env))[gone + more..]
  {
    hide Taken, Moves, After;
    CallKeepsPair(s, line, env);
    DropTwice(all, gone, if Moves(s, line, env) then |s.older| else 0, Taken(s, line, env));
  }

  lemma DropTwice(all: seq<byte>, gone: nat, more: nat, next: seq<byte>)
    requires gone + more <= |all|
    ensures all[gone..][more..] + next == (all + next)[gone + more..]
  {
  }

  /** The pair is the suffix of everything taken in the first k calls that the rotations left. */
  ghost predicate IsSuffix(calls: seq<Call>, states: seq<Log>, k: nat)
    requires k <= |calls| < |states|
  {
    var all, gone := AllTaken(calls, states, k), Dropped(calls, states, k);
    gone <= |all| && Pair(states[k]) == all[gone..]
  }

  lemma SuffixAfterCall(calls: seq<Call>, states: seq<Log>, k: nat)
    requires 0 < k <= |calls| < |states| && states[k - 1].dir
    requires states[k] == After(states[k - 1], calls[k - 1].line, calls[k - 1].env)
    requires IsSuffix(calls, states, k - 1)
    ensures IsSuffix(calls, states, k)
  {
    hide After, Taken, Moves, Pair;
    SuffixStep(states[k - 1], calls[k - 1].line, calls[k - 1].env, AllTaken(calls, states, k - 1),
               Dropped(calls, states, k - 1));
  }

  /** In every run FILE.1 followed by FILE is a contiguous suffix of everything taken, and only
      successful rotations drop anything, each exactly what FILE.1 held. */
  lemma {:induction false} PairIsASuffix(calls: seq<Call>, states: seq<Log>, start: int, k: nat)
    requires IsRun(calls, states, start) && k <= |calls|
    ensures IsSuffix(calls, states, k)
  {
    if k == 0 {
    } else {
      StepOf(calls, states, start, k - 1);
      PairIsASuffix(calls, states, start, k - 1);
      hide *;
      SuffixAfterCall(calls, states, k);
    }
  }

  /** From the first successful rotation on, FILE.1 alone holds more than the limit less one line. */
  lemma {:induction false} NewestBytesAreKept(calls: seq<Call>, states: seq<Log>, start: int, longest: nat, j: nat,
                                              k: nat)
    requires IsRun(calls, states, start) && j < k <= |calls|
    requires Moves(states[j], calls[j].line, calls[j].env)
    requires forall i :: 0 <= i < |calls| ==> |calls[i].line| <= longest
    ensures |states[k].older| + longest > states[0].limit
  {
    var s, line, env := states[k - 1], calls[k - 1].line, calls[k - 1].env;
    StepOf(calls, states, start, k - 1);
    CallKeepsPair(s, line, env);
    var notice := MostNotice(calls);
    RealSizeIsBounded(calls, states, start, notice, k - 1);
    if !Moves(s, line, env) {
      NewestBytesAreKept(calls, states, start, longest, j, k - 1);
    }
  }

  ghost function MostNotice(calls: seq<Call>): (n: nat)
    ensures forall j :: 0 <= j < |calls| ==> |calls[j].env.notice| <= n
  {
    if calls == [] then 0
    else
      var rest := MostNotice(calls[..|calls| - 1]);
      Max(rest, |calls[|calls| - 1].env.notice|)
  }

  // ---------------------------------------------------------------- retries

  lemma RetryAtStep(s: Log, line: seq<byte>, env: Env, clock: int)
    requires s.retryAt <= clock + s.retryAfter && clock <= env.now <= env.later
    ensures s.retryAt <= After(s, line, env).retryAt <= env.later + s.retryAfter
  {
  }

  lemma {:induction false} RetryAtIsBounded(calls: seq<Call>, states: seq<Log>, start: int, k: nat)
    requires IsRun(calls, states, start) && k <= |calls|
    ensures states[k].retryAt <= Clock(calls, start, k) + states[k].retryAfter
    ensures states[k].retryAfter == states[0].retryAfter
  {
    if k > 0 {
      StepOf(calls, states, start, k - 1);
      RetryAtIsBounded(calls, states, start, k - 1);
      hide *;
      LimitsStay(states[k - 1], calls[k - 1].line, calls[k - 1].env);
      RetryAtStep(states[k - 1], calls[k - 1].line, calls[k - 1].env, Clock(calls, start, k - 1));
    }
  }

  lemma {:induction false} RetryAtGrows(calls: seq<Call>, states: seq<Log>, start: int, j: nat, k: nat)
    requires IsRun(calls, states, start) && j <= k <= |calls|
    ensures states[j].retryAt <= states[k].retryAt
  {
    if j < k {
      StepOf(calls, states, start, k - 1);
      RetryAtIsBounded(calls, states, start, k - 1);
      RetryAtGrows(calls, states, start, j, k - 1);
      hide *;
      RetryAtStep(states[k - 1], calls[k - 1].line, calls[k - 1].env, Clock(calls, start, k - 1));
    }
  }

  predicate Tries(s: Log, line: seq<byte>, env: Env) {
    TriesRotation(s, line, env) || TriesReopen(s, env)
  }

  /** In every run, after an attempt that did not get both the rename and the open it asked for, the
      next attempt of either kind waits for the whole delay. */
  lemma AttemptsAreSpaced(calls: seq<Call>, states: seq<Log>, start: int, j: nat, k: nat)
    requires IsRun(calls, states, start) && j < k < |calls|
    requires Tries(states[j], calls[j].line, calls[j].env) && Tries(states[k], calls[k].line, calls[k].env)
    requires !calls[j].env.opens || (TriesRotation(states[j], calls[j].line, calls[j].env) && !calls[j].env.renames)
    ensures calls[k].env.now >= calls[j].env.later + states[0].retryAfter
  {
    StepOf(calls, states, start, j);
    StepOf(calls, states, start, k);
    RetryAtIsBounded(calls, states, start, j);
    RetryAtGrows(calls, states, start, j + 1, k);
    assert states[j + 1].retryAt == calls[j].env.later + states[j].retryAfter;
  }

  // ---------------------------------------------------------------- calls that work

  predicate Works(env: Env) {
    env.renames && env.opens
  }

  /** The delay has passed since every earlier call in which a rename or an open would have failed. */
  ghost predicate Waited(calls: seq<Call>, retryAfter: nat, k: nat)
    requires k < |calls|
  {
    forall j :: 0 <= j < k && !Works(calls[j].env) ==> calls[j].env.later + retryAfter <= calls[k].env.now
  }

  lemma RetryAtOfOneCall(s: Log, line: seq<byte>, env: Env)
    ensures After(s, line, env).retryAt == s.retryAt
      || (!Works(env) && After(s, line, env).retryAt == env.later + s.retryAfter)
  {
  }

  ghost predicate Delays(calls: seq<Call>, retryAfter: nat, j: nat, retryAt: int)
    requires j < |calls|
  {
    !Works(calls[j].env) && retryAt <= calls[j].env.later + retryAfter
  }

  /** The next attempt waits for the start, or for the delay after some call that did not work. */
  lemma {:induction false} RetryAtHasACause(calls: seq<Call>, states: seq<Log>, start: int, k: nat)
    requires IsRun(calls, states, start) && k <= |calls|
    ensures states[k].retryAt <= start || exists j ::
      0 <= j < k && Delays(calls, states[0].retryAfter, j, states[k].retryAt)
  {
    if k > 0 {
      StepOf(calls, states, start, k - 1);
      RetryAtHasACause(calls, states, start, k - 1);
      RetryAtIsBounded(calls, states, start, k - 1);
      RetryAtOfOneCall(states[k - 1], calls[k - 1].line, calls[k - 1].env);
      hide IsRun, After, FailureFits;
      if states[k].retryAt == states[k - 1].retryAt {
        if states[k].retryAt > start {
          var j :| 0 <= j < k - 1 && Delays(calls, states[0].retryAfter, j, states[k - 1].retryAt);
          assert Delays(calls, states[0].retryAfter, j, states[k].retryAt);
        }
      } else {
        assert Delays(calls, states[0].retryAfter, k - 1, states[k].retryAt);
      }
    }
  }

  lemma {:induction false} ClockGrows(calls: seq<Call>, states: seq<Log>, start: int, k: nat)
    requires IsRun(calls, states, start) && k <= |calls|
    ensures start <= Clock(calls, start, k)
  {
    if k > 0 {
      StepOf(calls, states, start, k - 1);
      ClockGrows(calls, states, start, k - 1);
    }
  }

  /** What a call does that works and that no delay holds back: when the file is open, not empty, and has
      no room within the limit for the line, it becomes FILE.1 and the line starts a new one, and any
      failure is over; else FILE.1 stays, a closed file is open again, without its failure if it is within
      the limit, and the line goes to its end. No line is taken past twice the limit. */
  ghost predicate IsWorkingCall(s: Log, line: seq<byte>, takes: nat, t: Log) {
    var full := s.file && s.size > 0 && s.size + |line| > s.limit;
    var held := if full then [] else s.current;
    var size := if s.file && !full then s.size else |held|;
    var taken := if size + |line| > 2 * s.limit then [] else line[..Min(takes, |line|)];
    && t.file && t.dir && t.stderr == s.stderr && t.retryAt == s.retryAt
    && t.older == (if full then s.current else s.older)
    && t.current == held + taken && t.size == size + |taken|
    && t.failure == if full || (!s.file && |s.current| <= s.limit) then NoFailure else s.failure
  }

  /** Once the delay has passed, in every run, a call that works does exactly this. */
  lemma WorkingCall(calls: seq<Call>, states: seq<Log>, start: int, k: nat)
    requires IsRun(calls, states, start) && k < |calls|
    requires Works(calls[k].env) && Waited(calls, states[0].retryAfter, k)
    ensures IsWorkingCall(states[k], calls[k].line, calls[k].env.takes, states[k + 1])
  {
    StepOf(calls, states, start, k);
    RetryAtHasACause(calls, states, start, k);
    ClockGrows(calls, states, start, k);
    WorkingWrite(states[k], calls[k].line, calls[k].env);
  }

  lemma WorkingWrite(s: Log, line: seq<byte>, env: Env)
    requires s.dir && Works(env) && env.now >= s.retryAt
    ensures IsWorkingCall(s, line, env.takes, After(s, line, env))
  {
  }

  /** Every rename and open succeeds, and every line is within the limit and taken whole. */
  ghost predicate Healthy(calls: seq<Call>, limit: nat) {
    forall k :: 0 <= k < |calls| ==>
      Works(calls[k].env) && |calls[k].line| <= limit && |calls[k].line| <= calls[k].env.takes
  }

  /** Then FILE is within the limit from the first call on, whatever it held before; and a call replaces
      FILE.1 by FILE exactly when FILE is not empty and the line does not fit beside it, with every line
      whole at the end of FILE. */
  lemma {:induction false} HealthyRunFits(calls: seq<Call>, states: seq<Log>, start: int, k: nat)
    requires IsRun(calls, states, start) && k <= |calls| && Healthy(calls, states[0].limit)
    ensures states[k].file && states[k].size == |states[k].current| && states[k].limit == states[0].limit
    ensures states[k].failure.NoFailure? && states[k].stderr == []
    ensures k > 0 ==> |states[k].current| <= states[0].limit
    ensures k > 0 ==> var s, line, t := states[k - 1], calls[k - 1].line, states[k];
      if s.current != [] && |s.current| + |line| > states[0].limit then t.older == s.current && t.current == line
      else t.older == s.older && t.current == s.current + line
  {
    if k > 0 {
      HealthyRunFits(calls, states, start, k - 1);
      WorkingCall(calls, states, start, k - 1);
      StepOf(calls, states, start, k - 1);
      LimitsStay(states[k - 1], calls[k - 1].line, calls[k - 1].env);
      var line := calls[k - 1].line;
      assert line[..|line|] == line;
      hide After, IsRun, FailureFits;
    }
  }

  /** A failure begins, in every run, exactly when the line does not fit beside what the file holds and
      its rename or the open after it fails; it is announced then, once. */
  lemma FailureBegins(calls: seq<Call>, states: seq<Log>, start: int, k: nat)
    requires IsRun(calls, states, start) && k < |calls| && states[k].failure.NoFailure?
    ensures var s, line, env, t := states[k], calls[k].line, calls[k].env, states[k + 1];
      var fails := s.size > 0 && s.size + |line| > s.limit && !Works(env);
      && t.failure == (if !fails then NoFailure else if !env.renames then RenameFailed else ReopenFailed)
      && t.stderr == s.stderr + (if fails then [env.notice] else [])
      && t.file == (fails ==> env.opens)
  {
    StepOf(calls, states, start, k);
    FirstFailure(states[k], calls[k].line, calls[k].env, Clock(calls, start, k));
  }

  lemma FirstFailure(s: Log, line: seq<byte>, env: Env, clock: int)
    requires FailureFits(s, clock) && s.failure.NoFailure? && clock <= env.now
    ensures var t := After(s, line, env);
      var fails := s.size > 0 && s.size + |line| > s.limit && !Works(env);
      && t.failure == (if !fails then NoFailure else if !env.renames then RenameFailed else ReopenFailed)
      && t.stderr == s.stderr + (if fails then [env.notice] else [])
      && t.file == (fails ==> env.opens)
  {
  }

  // ---------------------------------------------------------------- one announcement per failure

  /** The lines are no longer than the limit, the file takes each whole, and it can be opened again. */
  ghost predicate Gentle(s: Log, line: seq<byte>, env: Env) {
    |line| <= s.limit && |line| <= env.takes && env.opens
  }

  /** A failure leaves an open log above its limit. */
  ghost predicate FailureIsFull(s: Log) {
    && s.file
    && s.size <= |s.current|
    && (!s.failure.NoFailure? ==> s.size > s.limit)
  }

  lemma GentleCall(s: Log, line: seq<byte>, env: Env, clock: int)
    requires FailureFits(s, clock) && FailureIsFull(s) && Gentle(s, line, env) && clock <= env.now <= env.later
    ensures var t := After(s, line, env);
      && FailureIsFull(t)
      && (Moves(s, line, env) ==> t.failure.NoFailure?)
      && (!s.failure.NoFailure? && !Moves(s, line, env) ==> !t.failure.NoFailure?)
      && (Announces(s, line, env) <==> s.failure.NoFailure? && !t.failure.NoFailure?)
  {
    var ready := Prepared(s, line, env);
    if TriesRotation(s, line, env) && !env.renames {
      assert ready.file && ready.size == |s.current|;
      assert ready.size + |line| > s.limit;
    }
  }

  ghost predicate GentleRun(calls: seq<Call>, states: seq<Log>) {
    |states| == |calls| + 1 && forall k :: 0 <= k < |calls| ==> Gentle(states[k], calls[k].line, calls[k].env)
  }

  lemma {:induction false} GentleRunIsFull(calls: seq<Call>, states: seq<Log>, start: int, k: nat)
    requires IsRun(calls, states, start) && GentleRun(calls, states) && k <= |calls|
    ensures FailureIsFull(states[k])
  {
    if k > 0 {
      GentleRunIsFull(calls, states, start, k - 1);
      StepOf(calls, states, start, k - 1);
      GentleCall(states[k - 1], calls[k - 1].line, calls[k - 1].env, Clock(calls, start, k - 1));
    }
  }

  /** Without a successful rename after call j, a failure that call j left is still there. */
  lemma {:induction false} FailureLasts(calls: seq<Call>, states: seq<Log>, start: int, j: nat, k: nat)
    requires IsRun(calls, states, start) && GentleRun(calls, states) && j <= k <= |calls|
    requires !states[j].failure.NoFailure?
    requires forall i :: j <= i < k ==> !Moves(states[i], calls[i].line, calls[i].env)
    ensures !states[k].failure.NoFailure?
  {
    if j < k {
      FailureLasts(calls, states, start, j, k - 1);
      GentleRunIsFull(calls, states, start, k - 1);
      StepOf(calls, states, start, k - 1);
      GentleCall(states[k - 1], calls[k - 1].line, calls[k - 1].env, Clock(calls, start, k - 1));
    }
  }

  /** Each failure is announced once: between two announcements a rename succeeded; and the first
      rename that succeeds ends it. */
  lemma FailureIsAnnouncedOnce(calls: seq<Call>, states: seq<Log>, start: int, j: nat, k: nat)
    requires IsRun(calls, states, start) && GentleRun(calls, states) && j < k < |calls|
    requires Announces(states[j], calls[j].line, calls[j].env)
    ensures Announces(states[k], calls[k].line, calls[k].env) ==>
      exists i :: j < i < k && Moves(states[i], calls[i].line, calls[i].env)
    ensures Moves(states[k], calls[k].line, calls[k].env) ==> states[k + 1].failure.NoFailure?
  {
    GentleRunIsFull(calls, states, start, j);
    StepOf(calls, states, start, j);
    GentleCall(states[j], calls[j].line, calls[j].env, Clock(calls, start, j));
    GentleRunIsFull(calls, states, start, k);
    StepOf(calls, states, start, k);
    GentleCall(states[k], calls[k].line, calls[k].env, Clock(calls, start, k));
    if Announces(states[k], calls[k].line, calls[k].env)
      && forall i :: j < i < k ==> !Moves(states[i], calls[i].line, calls[i].env) {
      FailureLasts(calls, states, start, j + 1, k);
      assert false;
    }
  }

  // ---------------------------------------------------------------- lines

  /** What WriteOrStderr leaves. */
  function Delivered(s: Log, line: seq<byte>, env: Env): Log {
    var (t, outcome) := Written(s, line, env);
    if outcome == Wrote(|line|) then t else t.(stderr := t.stderr + [line])
  }

  /** After a line the log's file ends with it, or it is the last thing on standard error, whole either way;
      and it is there exactly when the write did not take all of it. */
  lemma LineIsDeliveredWhole(s: Log, line: seq<byte>, env: Env)
    ensures var t, (u, outcome) := Delivered(s, line, env), Written(s, line, env);
      && t.current == u.current && t.older == u.older
      && t.stderr == u.stderr + if outcome == Wrote(|line|) then [] else [line]
    ensures var t := Delivered(s, line, env);
      || (|line| <= |t.current| && t.current[|t.current| - |line|..] == line)
      || (|t.stderr| > 0 && t.stderr[|t.stderr| - 1] == line)
  {
    var (t, outcome) := Written(s, line, env);
    if outcome == Wrote(|line|) {
      var ready := Prepared(s, line, env);
      assert line[..|line|] == line;
      assert t.current == ready.current + line;
    }
  }

  // ---------------------------------------------------------------- what fails

  function Zeros(n: nat): (s: seq<byte>)
    ensures |s| == n
  {
    seq(n, _ => 0)
  }

  /** A run with a limit of 10 bytes in which a line of 15 is refused as larger than twice the limit. */
  lemma SomeLineIsMisblamed() returns (calls: seq<Call>, states: seq<Log>)
    ensures IsRun(calls, states, 0) && |calls| == 2
    ensures |calls[1].line| <= 2 * states[1].limit
    ensures Written(states[1], calls[1].line, calls[1].env).1 == Refused(NoFailure)
  {
    var first := Opened(10, 60, Zeros(6), [], 0);
    var neither := Env(0, 0, false, false, 5, [1], 1);
    var both := Env(60, 60, true, true, 15, [1], 1);
    var second := After(first, Zeros(5), neither);
    assert !second.file && second.current == Zeros(6) && second.retryAt == 60;
    var third := After(second, Zeros(15), both);
    calls, states := [Call(Zeros(5), neither), Call(Zeros(15), both)], [first, second, third];
  }

  /** A failure that lasts is announced again exactly when a rename fails and the file, opened again, is
      no longer than the limit: the reopening ends the failure and the rename starts it anew. */
  ghost predicate AnnouncedAgain(s: Log, line: seq<byte>, env: Env) {
    TriesRotation(s, line, env) && !env.renames && env.opens && |s.current| <= s.limit
  }

  /** In every run, a failure that is there before a call is announced by it if and only if it is announced again. */
  lemma LastingFailureIsAnnounced(calls: seq<Call>, states: seq<Log>, start: int, k: nat)
    requires IsRun(calls, states, start) && k < |calls| && !states[k].failure.NoFailure?
    ensures Announces(states[k], calls[k].line, calls[k].env) <==>
      AnnouncedAgain(states[k], calls[k].line, calls[k].env)
  {
    StepOf(calls, states, start, k);
    FailureIsAnnouncedAgain(states[k], calls[k].line, calls[k].env, Clock(calls, start, k));
  }

  lemma FailureIsAnnouncedAgain(s: Log, line: seq<byte>, env: Env, clock: int)
    requires FailureFits(s, clock) && !s.failure.NoFailure?
    ensures Announces(s, line, env) <==> AnnouncedAgain(s, line, env)
  {
  }

  /** As long as no call ends it, a failure lasts, and the calls that announce it are exactly those in
      which it is announced again. */
  lemma {:induction false} EpisodeIsAnnounced(calls: seq<Call>, states: seq<Log>, start: int, j: nat, k: nat)
    requires IsRun(calls, states, start) && j <= k <= |calls| && !states[j].failure.NoFailure?
    requires forall i :: j <= i < k ==> !EndsFailure(states[i], calls[i].line, calls[i].env)
    ensures !states[k].failure.NoFailure?
    ensures forall i :: j <= i < k ==>
      (Announces(states[i], calls[i].line, calls[i].env) <==> AnnouncedAgain(states[i], calls[i].line, calls[i].env))
  {
    if j < k {
      EpisodeIsAnnounced(calls, states, start, j, k - 1);
      StepOf(calls, states, start, k - 1);
      assert !EndsFailure(states[k - 1], calls[k - 1].line, calls[k - 1].env);
      hide IsRun;
      FailureEnds(states[k - 1], calls[k - 1].line, calls[k - 1].env, Clock(calls, start, k - 1));
      FailureIsAnnouncedAgain(states[k - 1], calls[k - 1].line, calls[k - 1].env, Clock(calls, start, k - 1));
      hide *;
    }
  }

  /** A failure is gone after a call exactly when the call ends it. */
  lemma FailureEnds(s: Log, line: seq<byte>, env: Env, clock: int)
    requires FailureFits(s, clock) && !s.failure.NoFailure?
    ensures After(s, line, env).failure.NoFailure? <==> EndsFailure(s, line, env)
  {
  }

  /** A run in which a line longer than twice the limit of 10 bytes is refused for a failure of a rename. */
  lemma SomeLongLineIsNotBlamed() returns (calls: seq<Call>, states: seq<Log>)
    ensures IsRun(calls, states, 0) && |calls| == 1
    ensures |calls[0].line| > 2 * states[0].limit
    ensures Written(states[0], calls[0].line, calls[0].env).1 == Refused(RenameFailed)
  {
    var first, env := Opened(10, 60, Zeros(6), [], 0), Env(0, 0, false, true, 21, [1], 1);
    var line := Zeros(21);
    calls, states := [Call(line, env)], [first, After(first, line, env)];
    assert CallFollows(calls, states, 0, 0);
  }

  /** With a line longer than the limit, one failure is announced at every try. */
  lemma LongLinesAnnounceAgain() returns (calls: seq<Call>, states: seq<Log>)
    ensures IsRun(calls, states, 0) && |calls| == 2
    ensures forall k :: 0 <= k < 2 ==> Announces(states[k], calls[k].line, calls[k].env)
    ensures forall k :: 0 <= k < 2 ==> !Moves(states[k], calls[k].line, calls[k].env)
    ensures forall k :: 0 <= k < 2 ==> calls[k].env.opens && calls[k].env.takes == |calls[k].line| == 15
    ensures states[0].limit == 10
  {
    var first := Opened(10, 60, Zeros(6), [], 0);
    var no, again := Env(0, 0, false, true, 15, [1], 1), Env(60, 60, false, true, 15, [1], 1);
    var line := Zeros(15);
    var second := After(first, line, no);
    assert NoticeBytes(no) == [1];
    assert second.file && second.current == Zeros(6) + [1] && second.size == 6 && second.retryAt == 60
      && |second.stderr| == 1;
    var third := After(second, line, again);
    calls, states := [Call(line, no), Call(line, again)], [first, second, third];
    assert Announces(states[0], line, no) && Announces(states[1], line, again);
  }
}
