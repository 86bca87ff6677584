/** One check run against its stop signals and a server that may lose its answers (checkRun,
    checkAttempt, runStops). */
module CheckRun {
  import opened Basics
  import opened CheckAttempt
  import Retry

  // ---------------------------------------------------------------- the attempt

  const REGISTRATION: Retry.Key := 0
  const COMPLETION: Retry.Key := 1

  /** The fields of checkAttempt that its steps change. */
  datatype Attempt = Attempt(registered: bool, recorded: bool, uploaded: bool, results: seq<Result>, cancelled: bool,
                             status: Status, tree: Tree, stopSignal: Option<Signal>)

  /** The attempt after registration, and whether the server refused it. */
  function RegisteredBy(a: Attempt, reply: Retry.Reply, usable: bool): (Attempt, bool) {
    if Retry.DefiniteRefusal(reply) then (a, true)
    else if !reply.Accepted? || !usable then (a, false)
    else (a.(registered := true), false)
  }

  function CompletedBy(a: Attempt, reply: Retry.Reply, usable: bool): Attempt {
    if !reply.Accepted? || !usable then a else a.(recorded := true, uploaded := true)
  }

  function LastFailed(results: seq<Result>): seq<Result> {
    if results == [] then results else results[..|results| - 1] + [Result(Error, true)]
  }

  class CheckAttemptSteps {
    const remote: bool
    var registered: bool
    var recorded: bool
    var uploaded: bool
    var results: seq<Result>
    var cancelled: bool
    var status: Status
    var tree: Tree
    var stopSignal: Option<Signal>

    function Now(): Attempt
      reads this
    {
      Attempt(registered, recorded, uploaded, results, cancelled, status, tree, stopSignal)
    }

    constructor (remote: bool, tree: Tree)
      ensures Now() == Attempt(false, false, false, [], false, Unavailable, tree, None) && this.remote == remote
    {
      this.remote, this.tree := remote, tree;
      registered, recorded, uploaded, results, cancelled, status, stopSignal :=
        false, false, false, [], false, Unavailable, None;
    }

    /** register of an attempt with a server; refused tells that no check may run. */
    method Register(server: Retry.Server, payload: Retry.Payload, trips: seq<Retry.Trip>, stopped: seq<bool>,
                    usable: bool)
      returns (after: Retry.Server, refused: bool)
      requires |trips| == |stopped| == 3
      modifies this
      ensures remote ==> var sent := Retry.Posted(server, REGISTRATION, payload, trips, stopped, 0);
        after == sent.server && (Now(), refused) == RegisteredBy(old(Now()), sent.reply, usable)
      ensures !remote ==> after == server && !refused && Now() == old(Now())
    {
      if !remote {
        return server, false;
      }
      var server', reply, requests := Retry.PostWithRetry(server, REGISTRATION, payload, trips, stopped);
      if Retry.DefiniteRefusal(reply) {
        return server', true;
      }
      if reply.Accepted? && usable {
        registered := true;
      }
      return server', false;
    }

    /** complete: it sends what a registered attempt has, and records a local attempt itself. */
    method Complete(server: Retry.Server, payload: Retry.Payload, trips: seq<Retry.Trip>, stopped: seq<bool>,
                    usable: bool)
      returns (after: Retry.Server)
      requires |trips| == |stopped| == 3
      modifies this
      ensures old(registered) ==> var sent := Retry.Posted(server, COMPLETION, payload, trips, stopped, 0);
        after == sent.server && Now() == CompletedBy(old(Now()), sent.reply, usable)
      ensures !old(registered) ==>
        after == server && Now() == if remote then old(Now()) else old(Now()).(recorded := true)
    {
      after := server;
      if registered {
        var server', reply, requests := Retry.PostWithRetry(server, COMPLETION, payload, trips, stopped);
        after := server';
        if reply.Accepted? && usable {
          recorded, uploaded := true, true;
        }
      } else if !remote {
        recorded := true;
      }
    }
  }

  // ---------------------------------------------------------------- the stop signals

  /** The watcher of the stop signals: it takes a signal from the channel, records it, and ends a context. */
  datatype Watcher = AwaitFirst | TookFirst(signal: Signal) | RecordedFirst
                   | AwaitSecond | TookSecond(signal: Signal) | RecordedSecond | Gone

  /** runStops: the watcher, the channel of two signals, the last one recorded, whether each context
      has ended, and whether release stopped the delivery. */
  datatype Stops = Stops(watcher: Watcher, channel: seq<Signal>, last: Option<Signal>, runEnded: bool,
                         finishEnded: bool, released: bool)

  datatype Watch = Arrive(signal: Signal) | TakeSignal | SeeFinish | Remember | EndContext

  predicate CanWatch(s: Stops, w: Watch) {
    match w
    case Arrive(_) => !s.released
    case TakeSignal => (s.watcher.AwaitFirst? || s.watcher.AwaitSecond?) && s.channel != []
    case SeeFinish => (s.watcher.AwaitFirst? || s.watcher.AwaitSecond?) && s.finishEnded
    case Remember => s.watcher.TookFirst? || s.watcher.TookSecond?
    case EndContext => s.watcher.RecordedFirst? || s.watcher.RecordedSecond?
  }

  /** A signal that finds the channel full is dropped. */
  function Watched(s: Stops, w: Watch): Stops
    requires CanWatch(s, w)
  {
    match w
    case Arrive(signal) => if |s.channel| < 2 then s.(channel := s.channel + [signal]) else s
    case TakeSignal =>
      s.(channel := s.channel[1..],
         watcher := if s.watcher.AwaitFirst? then TookFirst(s.channel[0]) else TookSecond(s.channel[0]))
    case SeeFinish => s.(watcher := Gone)
    case Remember =>
      s.(last := Some(s.watcher.signal),
         watcher := if s.watcher.TookFirst? then RecordedFirst else RecordedSecond)
    case EndContext =>
      if s.watcher.RecordedFirst? then s.(runEnded := true, watcher := AwaitSecond)
      else s.(finishEnded := true, watcher := Gone)
  }

  function ReleasedStops(s: Stops): Stops {
    s.(released := true, runEnded := true, finishEnded := true)
  }

  class RunStops {
    var watcher: Watcher
    var channel: seq<Signal>
    var last: Option<Signal>
    var runEnded: bool
    var finishEnded: bool
    var released: bool

    function Now(): Stops
      reads this
    {
      Stops(watcher, channel, last, runEnded, finishEnded, released)
    }

    constructor ()
      ensures Now() == Stops(AwaitFirst, [], None, false, false, false)
    {
      watcher, channel, last, runEnded, finishEnded, released := AwaitFirst, [], None, false, false, false;
    }

    /** What the system, or the watcher goroutine in its next step, does. */
    method Step(w: Watch)
      requires CanWatch(Now(), w)
      modifies this
      ensures Now() == Watched(old(Now()), w)
    {
      match w
      case Arrive(signal) =>
        if |channel| < 2 {
          channel := channel + [signal];
        }
      case TakeSignal =>
        var arrived := channel[0];
        channel := channel[1..];
        watcher := if watcher.AwaitFirst? then TookFirst(arrived) else TookSecond(arrived);
      case SeeFinish =>
        watcher := Gone;
      case Remember =>
        last := Some(watcher.signal);
        watcher := if watcher.TookFirst? then RecordedFirst else RecordedSecond;
      case EndContext =>
        if watcher.RecordedFirst? {
          runEnded, watcher := true, AwaitSecond;
        } else {
          finishEnded, watcher := true, Gone;
        }
    }

    /** The part of release before it waits for the watcher. */
    method Release()
      modifies this`released, this`runEnded, this`finishEnded
      ensures Now() == ReleasedStops(old(Now()))
    {
      released := true;
      runEnded := true;
      finishEnded := true;
    }
  }

  // ---------------------------------------------------------------- the run

  datatype Stage = Preparing | Prepared(ok: bool) | Registering | Refused | Running | Checking | Observing
                 | Completing | Printing | Reading | Deciding | Returned | Released

  /** What a run is given: whether it has a server, how many checks, and the revision it observed. */
  datatype Job = Job(remote: bool, checks: nat, revision: nat)

  datatype Run = Run(job: Job, stage: Stage, stops: Stops, attempt: Attempt, server: Retry.Server,
                     started: nat, completions: nat, exit: Option<Exit>)

  datatype CheckEvent = NoTemporary | StartCheck | SkipCheck | EndCheck(result: Result, interrupted: bool)
                      | EndChecks(leftover: bool)

  datatype Event =
    | Watching(watch: Watch)
    | EndPreparation(ok: bool) | ReadStopped
    | EndRegistration(payload: Retry.Payload, trips: seq<Retry.Trip>, stopped: seq<bool>, usable: bool)
    | SkipRegistration
    | AnswerRefusal
    | Executing(check: CheckEvent)
    | Observe(after: Observation)
    | EndCompletion(payload: Retry.Payload, trips: seq<Retry.Trip>, stopped: seq<bool>, usable: bool) | SkipCompletion
    | Print(ok: bool) | ReadStop | Decide | Release | Join

  /** A call under the finish context: its waits end early only once that context is over. */
  predicate UnderFinish(s: Stops, trips: seq<Retry.Trip>, stopped: seq<bool>) {
    |trips| == |stopped| == 3 && (true in stopped ==> s.finishEnded)
      && forall trip :: trip in trips ==> Retry.Proper(trip)
  }

  /** What a check can report: it is cancelled only when its context is over, by its status or under an
      error that outranks it, and a cleanup failure is an error. */
  predicate Reportable(s: Stops, result: Result, interrupted: bool) {
    && (interrupted ==> s.runEnded && (result.status.Cancelled? || result.status.Error?))
    && (result.status.Cancelled? ==> interrupted)
    && (result.cleanupFailed ==> result.status.Error?)
  }

  predicate CanExecute(s: Run, c: CheckEvent) {
    match c
    case NoTemporary => s.stage.Running? && s.job.checks > 0 && s.attempt.results == [] && !s.stops.runEnded
    case StartCheck => s.stage.Running? && |s.attempt.results| < s.job.checks && !s.stops.runEnded
    case SkipCheck => s.stage.Running? && |s.attempt.results| < s.job.checks && s.stops.runEnded
    case EndCheck(result, interrupted) => s.stage.Checking? && Reportable(s.stops, result, interrupted)
    case EndChecks(_) => s.stage.Running? && |s.attempt.results| >= s.job.checks
  }

  predicate Enabled(s: Run, e: Event) {
    match e
    case Watching(w) => CanWatch(s.stops, w)
    case EndPreparation(_) => s.stage.Preparing?
    case ReadStopped => s.stage.Prepared?
    case EndRegistration(_, trips, stopped, _) =>
      s.stage.Registering? && s.job.remote && UnderFinish(s.stops, trips, stopped)
    case SkipRegistration => s.stage.Registering? && !s.job.remote
    case AnswerRefusal => s.stage.Refused?
    case Executing(c) => CanExecute(s, c)
    case Observe(_) => s.stage.Observing?
    case EndCompletion(_, trips, stopped, _) =>
      s.stage.Completing? && s.attempt.registered && UnderFinish(s.stops, trips, stopped)
    case SkipCompletion => s.stage.Completing? && !s.attempt.registered
    case Print(_) => s.stage.Printing?
    case ReadStop => s.stage.Reading?
    case Decide => s.stage.Deciding?
    case Release => s.stage.Returned? && !s.stops.released
    case Join => s.stage.Returned? && s.stops.released && s.stops.watcher.Gone?
  }

  /** execute once its checks are over. */
  function Aggregates(s: Run, results: seq<Result>): Run {
    s.(stage := Observing,
       attempt := s.attempt.(results := results, status := Aggregated(results, s.attempt.cancelled)))
  }

  function Executed(s: Run, c: CheckEvent): Run
    requires CanExecute(s, c)
  {
    var a := s.attempt;
    match c
    case NoTemporary => Aggregates(s, seq(s.job.checks, _ => Result(Error, false)))
    case StartCheck => s.(stage := Checking, started := s.started + 1)
    case SkipCheck => s.(attempt := a.(results := a.results + [Result(Cancelled, false)], cancelled := true))
    case EndCheck(result, interrupted) =>
      s.(stage := Running, attempt := a.(results := a.results + [result], cancelled := a.cancelled || interrupted))
    case EndChecks(leftover) => Aggregates(s, if leftover then LastFailed(a.results) else a.results)
  }

  function Exited(s: Run, exit: Exit): Run {
    s.(stage := Returned, exit := Some(exit))
  }

  function Posts(s: Run, e: Event): Run
    requires Enabled(s, e) && (e.EndRegistration? || e.EndCompletion?)
  {
    if e.EndRegistration? then
      var sent := Retry.Posted(s.server, REGISTRATION, e.payload, e.trips, e.stopped, 0);
      var (next, refused) := RegisteredBy(s.attempt, sent.reply, e.usable);
      s.(server := sent.server, attempt := next, stage := if refused then Refused else Running)
    else
      var sent := Retry.Posted(s.server, COMPLETION, e.payload, e.trips, e.stopped, 0);
      s.(server := sent.server, completions := sent.requests, stage := Printing,
         attempt := CompletedBy(s.attempt, sent.reply, e.usable))
  }

  function Next(s: Run, e: Event): Run
    requires Enabled(s, e)
  {
    var a := s.attempt;
    match e
    case Watching(w) => s.(stops := Watched(s.stops, w))
    case EndPreparation(ok) => s.(stage := Prepared(ok))
    case ReadStopped =>
      if s.stops.last.Some? then Exited(s, Interrupted(s.stops.last))
      else if !s.stage.ok then Exited(s, Failure)
      else s.(stage := Registering)
    case EndRegistration(_, _, _, _) => Posts(s, e)
    case SkipRegistration => s.(stage := Running)
    case AnswerRefusal => Exited(s, if s.stops.finishEnded then Interrupted(s.stops.last) else Failure)
    case Executing(c) => Executed(s, c)
    case Observe(after) => s.(stage := Completing, attempt := a.(tree := Confirmed(s.job.revision, a.tree, after)))
    case EndCompletion(_, _, _, _) => Posts(s, e)
    case SkipCompletion => s.(attempt := if s.job.remote then a else a.(recorded := true), stage := Printing)
    case Print(ok) => if ok then s.(stage := Reading) else Exited(s, Failure)
    case ReadStop => s.(stage := Deciding, attempt := a.(stopSignal := s.stops.last))
    case Decide =>
      Exited(s, if s.stops.finishEnded then Interrupted(s.stops.last)
             else OutcomeError(a.recorded, a.status, a.cancelled, a.stopSignal))
    case Release => s.(stops := ReleasedStops(s.stops))
    case Join => s.(stage := Released)
  }

  // ---------------------------------------------------------------- invariants

  predicate Before(stage: Stage) {
    stage.Preparing? || stage.Prepared? || stage.Registering?
  }

  predicate Ended(stage: Stage) {
    stage.Returned? || stage.Released?
  }

  /** The watcher's stage tells what was recorded and which context has ended; release ends both. */
  ghost predicate StopsFit(s: Stops) {
    && |s.channel| <= 2
    && (s.released ==> s.runEnded && s.finishEnded)
    && match s.watcher
       case AwaitFirst | TookFirst(_) => s.last.None? && (s.runEnded ==> s.released) && (s.finishEnded ==> s.released)
       case RecordedFirst => s.last.Some? && (s.runEnded ==> s.released) && (s.finishEnded ==> s.released)
       case AwaitSecond | TookSecond(_) | RecordedSecond => s.last.Some? && s.runEnded && (s.finishEnded ==> s.released)
       case Gone => s.finishEnded && (s.released || (s.last.Some? && s.runEnded))
  }

  ghost predicate AttemptFits(s: Run) {
    var a := s.attempt;
    && (a.cancelled ==> s.stops.last.Some?)
    && (Before(s.stage) || s.stage.Refused? ==> a.results == [] && s.started == 0 && !a.registered && !a.recorded)
    && (a.registered ==> s.job.remote)
    && (a.uploaded ==> a.registered && a.recorded)
    && (a.recorded && s.job.remote ==> a.uploaded)
    && (s.stage.Observing? || s.stage.Completing? || s.stage.Printing? || s.stage.Reading? || s.stage.Deciding? ==>
          a.status == Aggregated(a.results, a.cancelled))
    && (s.stage.Deciding? && a.cancelled ==> a.stopSignal.Some?)
    && (s.stage.Printing? || s.stage.Reading? || s.stage.Deciding? ==> a.registered ==> s.completions >= 1)
  }

  /** Each identity was applied once if the server holds it, and never otherwise. */
  ghost predicate ServerFits(server: Retry.Server, registered: bool, uploaded: bool) {
    && (forall key :: multiset(server.applied)[key] == if key in server.stored then 1 else 0)
    && (registered ==> REGISTRATION in server.stored)
    && (uploaded ==> COMPLETION in server.stored)
  }

  ghost predicate ExitFits(s: Run) {
    && (s.stops.released ==> Ended(s.stage))
    && (s.stage.Released? ==> s.stops.released && s.stops.watcher.Gone?)
    && (s.exit.Some? <==> Ended(s.stage))
    && (s.exit.Some? && s.exit.value.Interrupted? ==> s.exit.value.signal.Some?)
    && (s.exit == Some(Zero) ==>
          s.attempt.recorded && s.attempt.stopSignal.None?
            && Aggregated(s.attempt.results, s.attempt.cancelled).Passed?)
    && (s.exit.Some? && s.attempt.registered ==> s.completions >= 1)
  }

  ghost predicate Inv(s: Run) {
    && StopsFit(s.stops) && AttemptFits(s) && ExitFits(s)
    && ServerFits(s.server, s.attempt.registered, s.attempt.uploaded)
  }

  ghost predicate Initial(s: Run) {
    && s.stage.Preparing? && s.stops == Stops(AwaitFirst, [], None, false, false, false)
    && s.attempt == Attempt(false, false, false, [], false, Unavailable, s.attempt.tree, None)
    && s.exit.None? && s.started == 0 && s.completions == 0 && s.server == Retry.Server(map[], [])
  }

  lemma WatchKeepsStops(s: Stops, w: Watch)
    requires StopsFit(s) && CanWatch(s, w)
    ensures StopsFit(Watched(s, w))
    ensures s.last.Some? ==> Watched(s, w).last.Some?
    ensures Watched(s, w).released == s.released
  {
  }

  lemma ExecutingKeepsInv(s: Run, c: CheckEvent)
    requires Inv(s) && CanExecute(s, c)
    ensures Inv(Executed(s, c))
  {
    hide Aggregated, LastFailed, ServerFits;
  }

  lemma PostKeepsServer(server: Retry.Server, key: Retry.Key, payload: Retry.Payload, trips: seq<Retry.Trip>,
                        stopped: seq<bool>, registered: bool, uploaded: bool)
    requires |trips| == |stopped| == 3 && ServerFits(server, registered, uploaded)
    ensures var sent := Retry.Posted(server, key, payload, trips, stopped, 0);
      && ServerFits(sent.server, registered, uploaded)
      && (sent.reply.Accepted? ==>
            ServerFits(sent.server, registered || key == REGISTRATION, uploaded || key == COMPLETION))
  {
    Retry.AppliesAtMostOnce(server, key, payload, trips, stopped, 0);
    hide Retry.Posted;
  }

  lemma RegistrationKeepsInv(s: Run, e: Event)
    requires Inv(s) && Enabled(s, e) && e.EndRegistration?
    ensures Inv(Posts(s, e))
  {
    PostKeepsServer(s.server, REGISTRATION, e.payload, e.trips, e.stopped, s.attempt.registered, s.attempt.uploaded);
    hide Retry.Posted, Aggregated, ServerFits, StopsFit, Confirmed, UnderFinish, CanWatch, CanExecute;
  }

  lemma CompletionKeepsInv(s: Run, e: Event)
    requires Inv(s) && Enabled(s, e) && e.EndCompletion?
    ensures Inv(Posts(s, e))
  {
    PostKeepsServer(s.server, COMPLETION, e.payload, e.trips, e.stopped, s.attempt.registered, s.attempt.uploaded);
    hide Retry.Posted, Aggregated, ServerFits, StopsFit, Confirmed, CanWatch, CanExecute;
  }

  /** Steps before the checks. */
  predicate IsEarly(e: Event) {
    e.EndPreparation? || e.ReadStopped? || e.SkipRegistration? || e.AnswerRefusal?
  }

  lemma WatchingKeepsInv(s: Run, e: Event)
    requires Inv(s) && Enabled(s, e) && e.Watching?
    ensures Inv(Next(s, e))
  {
    WatchKeepsStops(s.stops, e.watch);
    hide Aggregated, ServerFits, StopsFit, Executed, Posts, Watched, CanWatch, CanExecute, UnderFinish, Confirmed;
  }

  lemma EarlyKeepsInv(s: Run, e: Event)
    requires Inv(s) && Enabled(s, e) && IsEarly(e)
    ensures Inv(Next(s, e))
  {
    hide Aggregated, ServerFits, Executed, Posts, Watched, CanWatch, CanExecute, UnderFinish, Confirmed;
  }

  lemma LateKeepsInv(s: Run, e: Event)
    requires Inv(s) && Enabled(s, e)
    requires !IsEarly(e) && !e.Watching? && !e.Executing? && !e.EndRegistration? && !e.EndCompletion?
    ensures Inv(Next(s, e))
  {
    hide Aggregated, ServerFits, Executed, Posts, Watched, CanWatch, CanExecute, UnderFinish, Confirmed;
  }

  lemma StepKeeps(s: Run, e: Event)
    requires Inv(s) && Enabled(s, e)
    ensures Inv(Next(s, e))
  {
    hide Inv, Executed, Posts, CanExecute, StopsFit, AttemptFits, ExitFits, ServerFits;
    if e.Watching? {
      WatchingKeepsInv(s, e);
    } else if e.Executing? {
      ExecutingKeepsInv(s, e.check);
    } else if e.EndRegistration? {
      RegistrationKeepsInv(s, e);
    } else if e.EndCompletion? {
      CompletionKeepsInv(s, e);
    } else if IsEarly(e) {
      EarlyKeepsInv(s, e);
    } else {
      LateKeepsInv(s, e);
    }
  }

  // ---------------------------------------------------------------- runs

  ghost predicate Follows(events: seq<Event>, states: seq<Run>, k: nat)
    requires k < |events| < |states|
  {
    Enabled(states[k], events[k]) && states[k + 1] == Next(states[k], events[k])
  }

  ghost predicate IsRun(events: seq<Event>, states: seq<Run>) {
    |states| == |events| + 1 && Initial(states[0]) && forall k :: 0 <= k < |events| ==> Follows(events, states, k)
  }

  lemma {:induction false} RunKeeps(events: seq<Event>, states: seq<Run>, k: nat)
    requires IsRun(events, states) && k <= |events|
    ensures Inv(states[k])
  {
    if k > 0 {
      RunKeeps(events, states, k - 1);
      assert Follows(events, states, k - 1);
      hide *;
      StepKeepsAt(events, states, k - 1);
    } else {
      assert Inv(states[0]);
    }
  }

  lemma StepKeepsAt(events: seq<Event>, states: seq<Run>, k: nat)
    requires k < |events| < |states| && Follows(events, states, k) && Inv(states[k])
    ensures Inv(states[k + 1])
  {
    StepKeeps(states[k], events[k]);
    hide Inv, Next, Enabled;
  }

  lemma StepOf(events: seq<Event>, states: seq<Run>, k: nat)
    requires IsRun(events, states) && k < |events|
    ensures |states| == |events| + 1 && Inv(states[k]) && Follows(events, states, k)
  {
    RunKeeps(events, states, k);
  }

  /** Until release, an ended run context means a recorded signal, and an ended finish context that the
      run context ended before it; and an exit that reports an interrupt names a signal. */
  lemma EndedRunHasItsSignal(events: seq<Event>, states: seq<Run>, k: nat)
    requires IsRun(events, states) && k <= |events|
    ensures var s, exit := states[k].stops, states[k].exit;
      && (s.runEnded && !s.released ==> s.last.Some?)
      && (s.finishEnded && !s.released ==> s.runEnded)
      && (exit.Some? && exit.value.Interrupted? ==> exit.value.signal.Some?)
  {
    RunKeeps(events, states, k);
  }

  lemma RefusedStartsNothing(s: Run, e: Event)
    requires Inv(s) && Enabled(s, e) && (s.stage.Refused? || Ended(s.stage))
    ensures Next(s, e).started == s.started && (Next(s, e).stage.Refused? || Ended(Next(s, e).stage))
  {
    hide Watched, Posts, Aggregated;
  }

  /** After a definite refusal of the registration no check ever starts. */
  lemma {:induction false} NoCheckAfterRefusal(events: seq<Event>, states: seq<Run>, j: nat, k: nat)
    requires IsRun(events, states) && j < k <= |events|
    requires events[j].EndRegistration? && |events[j].trips| == |events[j].stopped| == 3
    requires Retry.DefiniteRefusal(Retry.Posted(states[j].server, REGISTRATION, events[j].payload, events[j].trips,
                                                events[j].stopped, 0).reply)
    ensures states[k].started == 0 && (states[k].stage.Refused? || Ended(states[k].stage))
  {
    StepOf(events, states, k - 1);
    if j + 1 < k {
      NoCheckAfterRefusal(events, states, j, k - 1);
      RefusedStartsNothing(states[k - 1], events[k - 1]);
    } else {
      RunKeeps(events, states, k);
      assert states[k] == Posts(states[j], events[j]);
    }
  }

  // ---------------------------------------------------------------- completion

  function Arrivals(events: seq<Event>): nat {
    if events == [] then 0 else
      var last := events[|events| - 1];
      Arrivals(events[..|events| - 1]) + if last.Watching? && last.watch.Arrive? then 1 else 0
  }

  /** How many signals the watcher took, as its stage tells until release. */
  function Taken(w: Watcher): nat {
    match w
    case AwaitFirst => 0
    case TookFirst(_) | RecordedFirst | AwaitSecond => 1
    case TookSecond(_) | RecordedSecond | Gone => 2
  }

  lemma {:induction false} ArrivalsAreEnough(events: seq<Event>, states: seq<Run>, k: nat)
    requires IsRun(events, states) && k <= |events|
    ensures !states[k].stops.released ==>
      Taken(states[k].stops.watcher) + |states[k].stops.channel| <= Arrivals(events[..k])
  {
    if k > 0 {
      ArrivalsAreEnough(events, states, k - 1);
      StepOf(events, states, k - 1);
      assert events[..k][..k - 1] == events[..k - 1];
      hide IsRun;
      ArrivalsStep(states[k - 1], events[k - 1], Arrivals(events[..k - 1]));
    }
  }

  lemma ArrivalsStep(s: Run, e: Event, arrivals: nat)
    requires Inv(s) && Enabled(s, e)
    requires !s.stops.released ==> Taken(s.stops.watcher) + |s.stops.channel| <= arrivals
    ensures var t := Next(s, e);
      !t.stops.released ==>
        Taken(t.stops.watcher) + |t.stops.channel| <= arrivals + if e.Watching? && e.watch.Arrive? then 1 else 0
  {
    if e.Executing? {
      ExecutedKeepsStops(s, e.check);
    }
    hide Executed, Posts, Aggregated, AttemptFits, ServerFits, ExitFits, Confirmed;
    if e.EndRegistration? || e.EndCompletion? {
      PostsKeepsStops(s, e);
    }
  }

  /** Of the signals that arrived the first two are never lost. */
  lemma {:induction false} FirstTwoAreKept(events: seq<Event>, states: seq<Run>, k: nat)
    requires IsRun(events, states) && k <= |events|
    ensures !states[k].stops.released ==>
      Taken(states[k].stops.watcher) + |states[k].stops.channel| >= Min(2, Arrivals(events[..k]))
  {
    if k > 0 {
      FirstTwoAreKept(events, states, k - 1);
      StepOf(events, states, k - 1);
      assert events[..k][..k - 1] == events[..k - 1];
      hide IsRun;
      KeptStep(states[k - 1], events[k - 1], Arrivals(events[..k - 1]));
    }
  }

  lemma KeptStep(s: Run, e: Event, arrivals: nat)
    requires Inv(s) && Enabled(s, e)
    requires !s.stops.released ==> Taken(s.stops.watcher) + |s.stops.channel| >= Min(2, arrivals)
    ensures var t := Next(s, e);
      !t.stops.released ==>
        Taken(t.stops.watcher) + |t.stops.channel| >= Min(2, arrivals + if e.Watching? && e.watch.Arrive? then 1 else 0)
  {
    if e.Executing? {
      ExecutedKeepsStops(s, e.check);
    }
    hide Executed, Posts, Aggregated, AttemptFits, ServerFits, ExitFits, Confirmed;
    if e.EndRegistration? || e.EndCompletion? {
      PostsKeepsStops(s, e);
    }
  }

  /** Once the watcher has nothing left to do, one signal has ended the run context, and two have ended the
      finish context as well, however fast they came. */
  lemma SignalsEndContexts(events: seq<Event>, states: seq<Run>, k: nat)
    requires IsRun(events, states) && k <= |events| && !states[k].stops.released
    requires forall w :: CanWatch(states[k].stops, w) ==> w.Arrive?
    ensures Arrivals(events[..k]) >= 1 <==> states[k].stops.runEnded
    ensures Arrivals(events[..k]) >= 2 <==> states[k].stops.finishEnded
  {
    RunKeeps(events, states, k);
    FirstTwoAreKept(events, states, k);
    ArrivalsAreEnough(events, states, k);
    var s := states[k].stops;
    assert !CanWatch(s, TakeSignal) && !CanWatch(s, Remember) && !CanWatch(s, EndContext);
    hide IsRun, AttemptFits, ServerFits, ExitFits, Arrivals;
  }

  lemma ExecutedKeepsStops(s: Run, c: CheckEvent)
    requires CanExecute(s, c)
    ensures Executed(s, c).stops == s.stops
  {
    hide Aggregated, LastFailed;
  }

  lemma PostsKeepsStops(s: Run, e: Event)
    requires Enabled(s, e) && (e.EndRegistration? || e.EndCompletion?)
    ensures Posts(s, e).stops == s.stops
  {
    hide Retry.Posted;
  }

  /** The completion got an answer, or sent all its requests. */
  predicate CarriedThrough(server: Retry.Server, e: Event)
    requires e.EndCompletion?
  {
    && |e.trips| == |e.stopped| == 3
    && var sent := Retry.Posted(server, COMPLETION, e.payload, e.trips, e.stopped, 0);
       !Retry.Retryable(sent.reply) || sent.requests == 3
  }

  /** A first signal never skips the completion of a confirmed registration: every run that has one and
      has its exit status sent the completion; and with fewer than two signals before it ended, the
      completion got an answer or sent all its three requests. */
  lemma CompletionIsNotSkipped(events: seq<Event>, states: seq<Run>, k: nat)
    requires IsRun(events, states) && k < |events|
    ensures states[k].exit.Some? && states[k].attempt.registered ==> states[k].completions >= 1
    ensures events[k].EndCompletion? && Arrivals(events[..k]) < 2 ==> CarriedThrough(states[k].server, events[k])
  {
    StepOf(events, states, k);
    if events[k].EndCompletion? && Arrivals(events[..k]) < 2 {
      ArrivalsAreEnough(events, states, k);
      var s, e := states[k], events[k];
      assert !s.stops.finishEnded;
      assert forall i :: 0 <= i < 3 ==> !e.stopped[i] by {
        assert true !in e.stopped;
      }
      Retry.RetriesLostAnswers(s.server, COMPLETION, e.payload, e.trips, e.stopped, 0);
    }
  }

  // ---------------------------------------------------------------- exit 0

  predicate AfterReading(s: Run) {
    s.stage.Deciding? || (Ended(s.stage) && s.exit == Some(Zero))
  }

  lemma ReadingStep(s: Run, e: Event)
    requires Inv(s) && Enabled(s, e) && AfterReading(Next(s, e))
    ensures e.ReadStop? || (AfterReading(s) && Next(s, e).attempt.stopSignal == s.attempt.stopSignal)
    ensures e.ReadStop? ==> Next(s, e).attempt.stopSignal == s.stops.last
  {
    hide Watched, Posts, Aggregated, ServerFits, StopsFit, Confirmed;
    if e.EndRegistration? || e.EndCompletion? {
      PostsStage(s, e);
    }
  }

  lemma PostsStage(s: Run, e: Event)
    requires Enabled(s, e) && (e.EndRegistration? || e.EndCompletion?)
    ensures Posts(s, e).stage.Refused? || Posts(s, e).stage.Running? || Posts(s, e).stage.Printing?
  {
    hide Retry.Posted;
  }

  /** A run with exit status 0 read the status at a moment when no signal was recorded. */
  lemma {:induction false} StatusWasRead(events: seq<Event>, states: seq<Run>, k: nat)
    requires IsRun(events, states) && k <= |events| && AfterReading(states[k])
    ensures exists j :: 0 <= j < k && events[j].ReadStop? && states[j].stops.last == states[k].attempt.stopSignal
  {
    if k > 0 {
      StepOf(events, states, k - 1);
      ReadingStep(states[k - 1], events[k - 1]);
      hide Inv, Next, Enabled, AfterReading;
      if !events[k - 1].ReadStop? {
        StatusWasRead(events, states, k - 1);
      }
    }
  }

  lemma ExitStep(s: Run, e: Event)
    requires Inv(s) && Enabled(s, e) && Next(s, e).exit.Some? && Next(s, e).exit.value.Interrupted?
    ensures var signal := Next(s, e).exit.value.signal;
      s.exit == Next(s, e).exit || signal == s.stops.last || (s.stage.Deciding? && signal == s.attempt.stopSignal)
  {
    if e.Executing? {
      ExecutedKeepsExit(s, e.check);
    }
    hide Watched, Executed, Aggregated, ServerFits, StopsFit, Confirmed, CanWatch, CanExecute, UnderFinish;
    if e.EndRegistration? || e.EndCompletion? {
      PostsStage(s, e);
    }
  }

  lemma ExecutedKeepsExit(s: Run, c: CheckEvent)
    requires CanExecute(s, c)
    ensures Executed(s, c).exit == s.exit
  {
    hide Aggregated, LastFailed;
  }

  /** An exit that reports an interrupt names a signal that was the last one recorded at some time before. */
  lemma {:induction false} InterruptNamesASignal(events: seq<Event>, states: seq<Run>, k: nat)
    requires IsRun(events, states) && k <= |events|
    requires states[k].exit.Some? && states[k].exit.value.Interrupted?
    ensures states[k].exit.value.signal.Some?
    ensures exists j :: 0 <= j < k && states[j].stops.last == states[k].exit.value.signal
  {
    RunKeeps(events, states, k);
    assert states[k].exit.value.signal.Some? && k > 0;
    StepOf(events, states, k - 1);
    ExitStep(states[k - 1], events[k - 1]);
    var signal := states[k].exit.value.signal;
    assert states[k - 1].stage.Deciding? ==> AfterReading(states[k - 1]);
    hide Inv, Next, Enabled, AfterReading, IsRun;
    if states[k - 1].stops.last != signal {
      if states[k - 1].exit == states[k].exit {
        InterruptNamesASignal(events, states, k - 1);
      } else {
        StatusWasRead(events, states, k - 1);
      }
    }
  }

  ghost predicate AllPassed(results: seq<Result>) {
    forall i :: 0 <= i < |results| ==> results[i] == Result(Passed, false)
  }

  /** There are as many results as checks once they are over, and never more; and results that all
      passed are those of checks that were started. */
  ghost predicate CountsFit(s: Run) {
    var n, running := |s.attempt.results|, if s.stage.Checking? then 1 else 0;
    && s.started <= n + running
    && (AllPassed(s.attempt.results) ==> s.started == n + running)
    && (s.stage.Running? ==> n <= s.job.checks)
    && (s.stage.Checking? ==> n < s.job.checks)
    && (s.stage.Observing? || s.stage.Completing? || s.stage.Printing? || s.stage.Reading? || s.stage.Deciding? ==>
          n == s.job.checks)
    && (s.exit == Some(Zero) ==> n == s.job.checks)
  }

  lemma ExecutingKeepsCounts(s: Run, c: CheckEvent)
    requires CountsFit(s) && CanExecute(s, c) && s.exit.None?
    ensures CountsFit(Executed(s, c))
  {
    var next := Executed(s, c).attempt.results;
    assert c.SkipCheck? ==> !AllPassed(next) by {
      if c.SkipCheck? { assert next[|next| - 1].status.Cancelled?; }
    }
    assert c.NoTemporary? ==> !AllPassed(next) by {
      if c.NoTemporary? { assert next[0].status.Error?; }
    }
    assert c.EndChecks? && c.leftover && next != [] ==> !AllPassed(next) by {
      if c.EndChecks? && c.leftover && next != [] { assert next[|next| - 1].cleanupFailed; }
    }
    assert c.EndCheck? && AllPassed(next) ==> AllPassed(s.attempt.results) by {
      if c.EndCheck? { assert next[..|next| - 1] == s.attempt.results; }
    }
    hide Aggregated, Reportable, AllPassed;
  }

  lemma PostingKeepsCounts(s: Run, e: Event)
    requires Inv(s) && CountsFit(s) && Enabled(s, e) && (e.EndRegistration? || e.EndCompletion?)
    ensures CountsFit(Posts(s, e))
  {
    hide Retry.Posted, Aggregated, StopsFit, ServerFits, UnderFinish;
  }

  lemma StepKeepsCounts(s: Run, e: Event)
    requires Inv(s) && CountsFit(s) && Enabled(s, e)
    ensures CountsFit(Next(s, e))
  {
    if e.Executing? {
      ExecutingKeepsCounts(s, e.check);
    } else if e.EndRegistration? || e.EndCompletion? {
      PostingKeepsCounts(s, e);
    }
    hide Watched, Executed, Posts, Aggregated, ServerFits, StopsFit, Confirmed, CanWatch, UnderFinish;
  }

  lemma {:induction false} RunKeepsCounts(events: seq<Event>, states: seq<Run>, k: nat)
    requires IsRun(events, states) && k <= |events|
    ensures CountsFit(states[k])
  {
    if k == 0 {
      assert CountsFit(states[0]);
    } else {
      StepOf(events, states, k - 1);
      RunKeepsCounts(events, states, k - 1);
      hide IsRun, CountsFit, Inv;
      StepKeepsCounts(states[k - 1], events[k - 1]);
      hide *;
    }
  }

  /** Exit status 0 means that every check was started and passed, that no signal was recorded when the status
      was read, and that the server holds exactly one registration and one completion, or that there is
      no server and the result is the run's own. */
  lemma ExitZeroMeans(events: seq<Event>, states: seq<Run>, k: nat)
    requires IsRun(events, states) && k <= |events| && states[k].exit == Some(Zero)
    ensures var a := states[k].attempt;
      && a.recorded && !a.cancelled && a.results != [] && |a.results| == states[k].started == states[k].job.checks
      && (forall i :: 0 <= i < |a.results| ==> a.results[i] == Result(Passed, false))
      && (exists j :: 0 <= j < k && events[j].ReadStop? && states[j].stops.last.None?)
    ensures states[k].job.remote ==>
      && multiset(states[k].server.applied)[REGISTRATION] == 1
      && multiset(states[k].server.applied)[COMPLETION] == 1
  {
    RunKeeps(events, states, k);
    RunKeepsCounts(events, states, k);
    PassedMeans(states[k].attempt.results, states[k].attempt.cancelled);
    StatusWasRead(events, states, k);
  }

  /** What the exit status says, in every run, when it is decided and the finish context is not over:
      0 if and only if the result is recorded, there are results, all passed with their cleanup, and no
      signal was read; 2 if and only if it is not recorded; an interrupt if and only if it is recorded and
      either cancelled without an error, or passed and a signal was read; and 1 otherwise. Once the finish
      context is over the exit names the last signal. */
  lemma ExitExactly(events: seq<Event>, states: seq<Run>, k: nat)
    requires IsRun(events, states) && k < |events| && events[k].Decide?
    ensures states[k + 1].stage.Returned? && states[k + 1].exit.Some?
    ensures var s, a, exit := states[k], states[k].attempt, states[k + 1].exit.value;
      var passed := a.results != [] && AllPassed(a.results) && !a.cancelled;
      && (s.stops.finishEnded ==> s.stops.last.Some? && exit == Interrupted(s.stops.last))
      && (!s.stops.finishEnded ==>
           && (exit == Zero <==> a.recorded && passed && a.stopSignal.None?)
           && (exit == NotRecorded <==> !a.recorded)
           && (exit.Interrupted? <==>
                a.recorded && ((a.cancelled && !EndsInError(a.results)) || (passed && a.stopSignal.Some?)))
           && (exit.Interrupted? ==> exit == Interrupted(a.stopSignal))
           && (exit == Zero || exit == NotRecorded || exit.Interrupted? || exit == NotPassed))
  {
    StepOf(events, states, k);
    var a := states[k].attempt;
    PassedMeans(a.results, a.cancelled);
    CancelledMeans(a.results, a.cancelled);
    CancelledResultsMean(events, states, k);
    DecidingStops(states[k]);
    hide Inv, Aggregated, AllPassed, EndsInError, CanExecute, CanWatch, UnderFinish;
  }

  /** The other exits, in every run: before the registration the exit names a recorded signal, or reports
      what failed, or there is none yet; after a refusal and a failed print it reports the error, unless a
      second signal ended the registration; and no other step sets it. */
  lemma OtherExits(events: seq<Event>, states: seq<Run>, k: nat)
    requires IsRun(events, states) && k < |events| && !events[k].Decide?
    ensures var s, e, t := states[k], events[k], states[k + 1];
      && (e.ReadStopped? ==>
            && (t.exit.None? <==> s.stops.last.None? && s.stage == Prepared(true))
            && (t.exit.Some? ==> t.exit.value == if s.stops.last.Some? then Interrupted(s.stops.last) else Failure))
      && (e.AnswerRefusal? && s.stops.finishEnded ==> s.stops.last.Some? && t.exit == Some(Interrupted(s.stops.last)))
      && ((e.AnswerRefusal? && !s.stops.finishEnded) || e == Print(false) ==> t.exit == Some(Failure))
      && (!e.ReadStopped? && !e.AnswerRefusal? && e != Print(false) ==> t.exit == s.exit)
  {
    StepOf(events, states, k);
    if events[k].Executing? {
      ExecutedKeepsExit(states[k], events[k].check);
    }
    hide Posts, Aggregated, Executed, CanExecute, Watched, UnderFinish, ServerFits;
    if events[k].EndRegistration? || events[k].EndCompletion? {
      PostsKeepsExit(states[k], events[k]);
    }
  }

  lemma PostsKeepsExit(s: Run, e: Event)
    requires Enabled(s, e) && (e.EndRegistration? || e.EndCompletion?)
    ensures Posts(s, e).exit == s.exit
  {
    hide Retry.Posted;
  }

  lemma DecidingStops(s: Run)
    requires Inv(s) && s.stage.Deciding?
    ensures s.stops.finishEnded ==> s.stops.last.Some?
    ensures s.attempt.status == Aggregated(s.attempt.results, s.attempt.cancelled)
  {
  }

  /** A result is cancelled only in a cancelled attempt. */
  ghost predicate CancelledFits(s: Run) {
    (exists i :: 0 <= i < |s.attempt.results| && s.attempt.results[i].status.Cancelled?) ==> s.attempt.cancelled
  }

  lemma ExecutingKeepsCancelled(s: Run, c: CheckEvent)
    requires CancelledFits(s) && CanExecute(s, c)
    ensures CancelledFits(Executed(s, c))
  {
    hide Aggregated;
  }

  lemma StepKeepsCancelled(s: Run, e: Event)
    requires CancelledFits(s) && Enabled(s, e)
    ensures CancelledFits(Next(s, e))
  {
    if e.Executing? {
      ExecutingKeepsCancelled(s, e.check);
    }
    hide Executed, Watched, Aggregated, Retry.Posted, Confirmed;
  }

  lemma {:induction false} CancelledResultsMean(events: seq<Event>, states: seq<Run>, k: nat)
    requires IsRun(events, states) && k <= |events|
    ensures CancelledFits(states[k])
  {
    if k > 0 {
      StepOf(events, states, k - 1);
      CancelledResultsMean(events, states, k - 1);
      hide IsRun, CancelledFits, Inv;
      StepKeepsCancelled(states[k - 1], events[k - 1]);
      hide *;
    }
  }

  // ---------------------------------------------------------------- signals stop the checks

  lemma EndedRunStep(s: Run, e: Event)
    requires Enabled(s, e) && s.stops.runEnded
    ensures Next(s, e).stops.runEnded && Next(s, e).started == s.started
  {
    if e.Executing? {
      ExecutedKeepsStops(s, e.check);
    } else if e.EndRegistration? || e.EndCompletion? {
      PostsKeepsStops(s, e);
    }
    hide Posts, Aggregated, LastFailed, Confirmed, UnderFinish, Reportable;
  }

  /** Once the run context has ended no further check is started. */
  lemma {:induction false} NoCheckAfterSignal(events: seq<Event>, states: seq<Run>, j: nat, k: nat)
    requires IsRun(events, states) && j <= k <= |events| && states[j].stops.runEnded
    ensures states[k].stops.runEnded && states[k].started == states[j].started
  {
    if j < k {
      NoCheckAfterSignal(events, states, j, k - 1);
      assert Follows(events, states, k - 1);
      EndedRunStep(states[k - 1], events[k - 1]);
      hide *;
    }
  }

  /** Nothing is sent or recorded before the registration, nor recorded before the completion. */
  ghost predicate NothingYet(s: Run) {
    && (Before(s.stage) ==> s.server == Retry.Server(map[], []))
    && (s.stage.Printing? || s.stage.Reading? || s.stage.Deciding? || Ended(s.stage) ||
         (!s.attempt.recorded && !s.attempt.uploaded))
  }

  lemma StepKeepsNothingYet(s: Run, e: Event)
    requires NothingYet(s) && Enabled(s, e)
    ensures NothingYet(Next(s, e))
  {
    if e.EndRegistration? || e.EndCompletion? {
      PostsStage(s, e);
    }
    hide Watched, Aggregated, Confirmed, UnderFinish, Reportable, Retry.Posted;
  }

  lemma {:induction false} RunKeepsNothingYet(events: seq<Event>, states: seq<Run>, k: nat)
    requires IsRun(events, states) && k <= |events|
    ensures NothingYet(states[k])
  {
    if k > 0 {
      RunKeepsNothingYet(events, states, k - 1);
      assert Follows(events, states, k - 1);
      StepKeepsNothingYet(states[k - 1], events[k - 1]);
      hide *;
    }
  }

  /** A signal that is recorded before the registration ends the run there: the server never hears of it,
      no check is started, and the exit names a signal. */
  lemma {:induction false} StoppedBeforeRegistration(events: seq<Event>, states: seq<Run>, j: nat, k: nat)
    requires IsRun(events, states) && j < k <= |events| && events[j].ReadStopped? && states[j].stops.last.Some?
    ensures Ended(states[k].stage) && states[k].exit == Some(Interrupted(states[j].stops.last))
    ensures states[k].started == 0 && states[k].server == Retry.Server(map[], [])
  {
    StepOf(events, states, k - 1);
    RunKeepsNothingYet(events, states, k - 1);
    if j + 1 < k {
      StoppedBeforeRegistration(events, states, j, k - 1);
      EndedStays(states[k - 1], events[k - 1]);
    }
    hide Inv, Posts, Aggregated, Executed, CanExecute, UnderFinish;
  }

  lemma EndedStays(s: Run, e: Event)
    requires Inv(s) && Enabled(s, e) && Ended(s.stage)
    ensures var t := Next(s, e);
      Ended(t.stage) && t.exit == s.exit && t.started == s.started && t.server == s.server
  {
    hide Watched, Posts, Executed, UnderFinish;
  }

  /** What the answers decide: the registration is confirmed if and only if it is accepted with a usable
      answer, and only a definite refusal ends the run; a result is recorded if and only if a confirmed
      registration gets its completion accepted in the same way, or there is no server. */
  lemma AnswersDecide(events: seq<Event>, states: seq<Run>, k: nat)
    requires IsRun(events, states) && k < |events|
    ensures var s, e, t := states[k], events[k], states[k + 1];
      && (e.EndRegistration? ==>
            && (t.attempt.registered <==> AcceptedPost(s.server, REGISTRATION, e))
            && (t.stage.Refused? <==> RefusedPost(s.server, e)) && (!t.stage.Refused? ==> t.stage.Running?))
      && (e.EndCompletion? ==>
            && (t.attempt.recorded <==> AcceptedPost(s.server, COMPLETION, e))
            && (t.attempt.uploaded <==> t.attempt.recorded))
      && (e.SkipCompletion? ==> (t.attempt.recorded <==> !s.job.remote) && !t.attempt.uploaded)
  {
    StepOf(events, states, k);
    RunKeepsNothingYet(events, states, k);
    hide Retry.Posted, Aggregated, Executed, CanExecute, Watched, StopsFit, ServerFits;
  }

  predicate RefusedPost(server: Retry.Server, e: Event)
    requires e.EndRegistration?
  {
    && |e.trips| == |e.stopped| == 3
    && Retry.DefiniteRefusal(Retry.Posted(server, REGISTRATION, e.payload, e.trips, e.stopped, 0).reply)
  }

  // ---------------------------------------------------------------- runs in which nothing goes wrong

  predicate AcceptedPost(server: Retry.Server, key: Retry.Key, e: Event)
    requires e.EndRegistration? || e.EndCompletion?
  {
    && |e.trips| == |e.stopped| == 3 && e.usable
    && Retry.Posted(server, key, e.payload, e.trips, e.stopped, 0).reply.Accepted?
  }

  /** No signal arrives, every step succeeds, the server accepts both requests, and every check passes. */
  predicate IsGood(s: Run, e: Event) {
    match e
    case Watching(w) => !w.Arrive?
    case EndPreparation(ok) => ok
    case EndRegistration(_, _, _, _) => AcceptedPost(s.server, REGISTRATION, e)
    case EndCompletion(_, _, _, _) => AcceptedPost(s.server, COMPLETION, e)
    case Executing(c) =>
      !c.NoTemporary? && (c.EndCheck? ==> c.result == Result(Passed, false)) && (c.EndChecks? ==> !c.leftover)
    case Print(ok) => ok
    case _ => true
  }

  /** What such a run keeps. */
  ghost predicate GoesWell(s: Run) {
    var a := s.attempt;
    && s.stops.last.None? && s.stops.channel == [] && (s.stops.watcher.AwaitFirst? || s.stops.watcher.Gone?)
    && (s.stops.runEnded || s.stops.finishEnded ==> s.stops.released)
    && !s.stage.Refused? && (s.stage.Prepared? ==> s.stage.ok)
    && AllPassed(a.results) && !a.cancelled && a.stopSignal.None?
    && (!Before(s.stage) ==> a.registered == s.job.remote)
    && (s.stage.Printing? || s.stage.Reading? || s.stage.Deciding? ==> a.recorded)
    && (s.exit.Some? ==> s.exit == Some(Zero))
  }

  lemma ExecutingGoesWell(s: Run, c: CheckEvent)
    requires GoesWell(s) && Inv(s) && CanExecute(s, c) && IsGood(s, Executing(c))
    ensures GoesWell(Executed(s, c))
  {
    hide Aggregated, StopsFit, ServerFits;
  }

  lemma PostingGoesWell(s: Run, e: Event)
    requires GoesWell(s) && Enabled(s, e) && IsGood(s, e) && (e.EndRegistration? || e.EndCompletion?)
    ensures GoesWell(Posts(s, e))
  {
    hide Retry.Posted, AllPassed, UnderFinish;
  }

  lemma DecidingGoesWell(s: Run, e: Event)
    requires GoesWell(s) && Inv(s) && CountsFit(s) && s.job.checks > 0 && Enabled(s, e) && e.Decide?
    ensures GoesWell(Next(s, e))
  {
    PassedMeans(s.attempt.results, s.attempt.cancelled);
    hide Aggregated, ServerFits;
  }

  lemma StepGoesWell(s: Run, e: Event)
    requires GoesWell(s) && Inv(s) && CountsFit(s) && s.job.checks > 0 && Enabled(s, e) && IsGood(s, e)
    ensures GoesWell(Next(s, e))
  {
    if e.Executing? {
      ExecutingGoesWell(s, e.check);
    } else if e.EndRegistration? || e.EndCompletion? {
      PostingGoesWell(s, e);
    } else if e.Decide? {
      DecidingGoesWell(s, e);
    }
    hide Executed, Posts, Aggregated, AllPassed, OutcomeError, Confirmed, UnderFinish, ServerFits;
  }

  lemma {:induction false} GoodRunGoesWell(events: seq<Event>, states: seq<Run>, k: nat)
    requires IsRun(events, states) && k <= |events| && states[0].job.checks > 0
    requires forall i :: 0 <= i < k ==> IsGood(states[i], events[i])
    ensures GoesWell(states[k]) && states[k].job == states[0].job
  {
    if k > 0 {
      StepOf(events, states, k - 1);
      GoodRunGoesWell(events, states, k - 1);
      RunKeepsCounts(events, states, k - 1);
      JobStays(states[k - 1], events[k - 1]);
      hide IsRun, GoesWell, Inv, CountsFit, IsGood;
      StepGoesWell(states[k - 1], events[k - 1]);
      hide *;
    }
  }

  lemma JobStays(s: Run, e: Event)
    requires Enabled(s, e)
    ensures Next(s, e).job == s.job
  {
    hide Aggregated, Retry.Posted, Watched, Confirmed;
  }

  /** A run in which nothing goes wrong ends with exit status 0, its result recorded, and with a
      server registered. */
  lemma GoodRunExitsZero(events: seq<Event>, states: seq<Run>, k: nat)
    requires IsRun(events, states) && k <= |events| && states[0].job.checks > 0
    requires forall i :: 0 <= i < k ==> IsGood(states[i], events[i])
    ensures states[k].exit.Some? ==> states[k].exit == Some(Zero)
    ensures states[k].exit.Some? ==> states[k].attempt.recorded && states[k].attempt.registered == states[k].job.remote
  {
    GoodRunGoesWell(events, states, k);
    RunKeeps(events, states, k);
  }

  /** An uploaded result means exactly one registration and one completion, whatever was lost and sent again. */
  lemma UploadedMeansOnce(events: seq<Event>, states: seq<Run>, k: nat)
    requires IsRun(events, states) && k <= |events|
    ensures states[k].attempt.uploaded ==>
      && states[k].attempt.registered
      && multiset(states[k].server.applied)[REGISTRATION] == 1
      && multiset(states[k].server.applied)[COMPLETION] == 1
    ensures forall key :: multiset(states[k].server.applied)[key] <= 1
  {
    RunKeeps(events, states, k);
  }

  // ---------------------------------------------------------------- release

  function StepsLeft(w: Watcher): nat {
    match w
    case AwaitFirst => 7
    case TookFirst(_) => 6
    case RecordedFirst => 5
    case AwaitSecond => 4
    case TookSecond(_) => 3
    case RecordedSecond => 2
    case Gone => 0
  }

  /** After release no signal arrives, the watcher can always go on until it is gone, in at most six
      steps, and only then does release return. */
  lemma ReleaseEnds(events: seq<Event>, states: seq<Run>, k: nat)
    requires IsRun(events, states) && k < |events| && states[k].stops.released
    ensures states[k].stops.watcher.Gone? || exists w :: CanWatch(states[k].stops, w) && !w.Arrive?
    ensures events[k].Watching? ==> StepsLeft(states[k + 1].stops.watcher) < StepsLeft(states[k].stops.watcher)
    ensures states[k + 1].stage.Released? ==> states[k].stops.watcher.Gone?
  {
    StepOf(events, states, k);
    var s := states[k].stops;
    match s.watcher
    case AwaitFirst => assert CanWatch(s, SeeFinish);
    case AwaitSecond => assert CanWatch(s, SeeFinish);
    case TookFirst(_) => assert CanWatch(s, Remember);
    case TookSecond(_) => assert CanWatch(s, Remember);
    case RecordedFirst => assert CanWatch(s, EndContext);
    case RecordedSecond => assert CanWatch(s, EndContext);
    case Gone =>
  }

  // ---------------------------------------------------------------- every run ends

  predicate IsArrival(e: Event) {
    e.Watching? && e.watch.Arrive?
  }

  /** The steps of the main thread that are left at most. */
  function StageWork(s: Run): nat {
    var n := |s.attempt.results|;
    var left := if n < s.job.checks then 2 * (s.job.checks - n) else 0;
    match s.stage
    case Preparing => 14 + left
    case Prepared(_) => 13 + left
    case Registering => 12 + left
    case Running => 11 + left
    case Checking => 10 + left
    case Observing => 9
    case Completing => 8
    case Printing => 7
    case Reading => 6
    case Deciding => 5
    case Refused => 4
    case Returned => if s.stops.released then 1 else 2
    case Released => 0
  }

  function Work(s: Run): nat {
    StageWork(s) + StepsLeft(s.stops.watcher)
  }

  lemma ExecutingEnds(s: Run, c: CheckEvent)
    requires CountsFit(s) && CanExecute(s, c)
    ensures StageWork(Executed(s, c)) < StageWork(s) && Executed(s, c).stops == s.stops
  {
    ExecutedKeepsStops(s, c);
    hide Aggregated, LastFailed, AllPassed, Reportable;
  }

  lemma PostingEnds(s: Run, e: Event)
    requires Inv(s) && Enabled(s, e) && (e.EndRegistration? || e.EndCompletion?)
    ensures StageWork(Posts(s, e)) < StageWork(s) && Posts(s, e).stops == s.stops
  {
    PostsKeepsStops(s, e);
    hide Retry.Posted, Aggregated, ServerFits, StopsFit, UnderFinish;
  }

  lemma WatchingEnds(s: Stops, w: Watch)
    requires StopsFit(s) && CanWatch(s, w)
    ensures StepsLeft(Watched(s, w).watcher) + (if w.Arrive? then 0 else 1) <= StepsLeft(s.watcher)
    ensures Watched(s, w).released == s.released
  {
  }

  /** Every step but the arrival of a signal uses up some of the work. */
  lemma StepEnds(s: Run, e: Event)
    requires Inv(s) && CountsFit(s) && Enabled(s, e)
    ensures Work(Next(s, e)) + (if IsArrival(e) then 0 else 1) <= Work(s)
  {
    if e.Watching? {
      WatchingEnds(s.stops, e.watch);
    } else if e.Executing? {
      ExecutingEnds(s, e.check);
    } else if e.EndRegistration? || e.EndCompletion? {
      PostingEnds(s, e);
    }
    hide Executed, Posts, Watched, Aggregated, Confirmed, UnderFinish, ServerFits, StopsFit, CanExecute, CanWatch;
  }

  /** As long as the run is not released some step can be made that no signal has to bring about. */
  lemma SomeStep(s: Run) returns (e: Event)
    requires Inv(s) && CountsFit(s) && !s.stage.Released?
    ensures Enabled(s, e) && !IsArrival(e)
  {
    var trip := Retry.Trip(true, Retry.Accept, Retry.Whole);
    var trips, stopped := [trip, trip, trip], [false, false, false];
    hide Aggregated, ServerFits, AllPassed;
    match s.stage
    case Preparing => return EndPreparation(true);
    case Prepared(_) => return ReadStopped;
    case Registering => return if s.job.remote then EndRegistration("", trips, stopped, true) else SkipRegistration;
    case Refused => return AnswerRefusal;
    case Running =>
      return Executing(if |s.attempt.results| >= s.job.checks then EndChecks(false)
                       else if s.stops.runEnded then SkipCheck else StartCheck);
    case Checking => return Executing(EndCheck(Result(Passed, false), false));
    case Observing => return Observe(Observation(true, 0, Clean));
    case Completing =>
      return if s.attempt.registered then EndCompletion("", trips, stopped, true) else SkipCompletion;
    case Printing => return Print(true);
    case Reading => return ReadStop;
    case Deciding => return Decide;
    case Returned =>
      if !s.stops.released {
        return Release;
      }
      match s.stops.watcher
      case AwaitFirst | AwaitSecond => return Watching(SeeFinish);
      case TookFirst(_) | TookSecond(_) => return Watching(Remember);
      case RecordedFirst | RecordedSecond => return Watching(EndContext);
      case Gone => return Join;
  }

  lemma {:induction false} WorkIsUsed(events: seq<Event>, states: seq<Run>, k: nat)
    requires IsRun(events, states) && k <= |events|
    ensures Work(states[k]) + k <= 21 + 2 * states[0].job.checks + Arrivals(events[..k])
  {
    if k == 0 {
      assert states[0].stage.Preparing? && states[0].stops.watcher.AwaitFirst? && states[0].attempt.results == [];
    } else {
      WorkIsUsed(events, states, k - 1);
      StepOf(events, states, k - 1);
      RunKeepsCounts(events, states, k - 1);
      assert events[..k][..k - 1] == events[..k - 1];
      hide IsRun, CountsFit, Inv, Work;
      StepEnds(states[k - 1], events[k - 1]);
    }
  }

  /** Every run ends: besides the signals that arrive it has at most so many steps, and while it is not
      released it can be continued without another signal, whatever the server and the checks did. */
  lemma RunsEnd(events: seq<Event>, states: seq<Run>)
    requires IsRun(events, states)
    ensures |events| <= 21 + 2 * states[0].job.checks + Arrivals(events)
    ensures states[|events|].stage.Released? || exists e :: Enabled(states[|events|], e) && !IsArrival(e)
  {
    WorkIsUsed(events, states, |events|);
    assert events[..|events|] == events;
    RunKeeps(events, states, |events|);
    RunKeepsCounts(events, states, |events|);
    if !states[|events|].stage.Released? {
      var e := SomeStep(states[|events|]);
    }
  }
}
