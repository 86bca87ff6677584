/** One line read without echo while signals are caught (readHiddenLine): the reading function and its
    watcher, which both restore the echo, and the process that a caught signal ends. */
module HiddenLine {
  import opened Basics

  /** A signal with a number, or another one. */
  datatype Signal = Numbered(number: nat) | Unnumbered

  function SignalNumber(signal: Signal): nat {
    if signal.Numbered? then signal.number else 1
  }

  /** Where the function is. Restoring is its call of the restore that happens once. */
  datatype Reader = Catching | Refused | Prompting | Reading | Restoring | Restored | Stopped | Closed | Returned

  datatype Watcher = Unstarted | Waiting | Took(signal: Signal) | Done

  /** sync.Once: its first caller runs the restore, and every caller goes on only after that. */
  datatype Once = Unused | RunBy(watcher: bool) | Used

  /** The process goes on, exits with a status, or is ended by the default action of a signal. */
  datatype Process = Alive | Exited(status: nat) | Killed

  /** caught is the first signal that the channel took; restores counts the restore calls that have ended. */
  datatype State = State(reader: Reader, watcher: Watcher, once: Once, channel: Option<Signal>, notified: bool,
                         closed: bool, echo: bool, restores: nat, caught: Option<Signal>, process: Process)

  datatype Event = Arrive(signal: Signal) | DisableEcho(ok: bool) | Refuse | StartWatcher | ReadLine
                 | ReaderEntersOnce | WatcherEntersOnce | EndRestore | ReaderLeavesOnce | ExitProcess
                 | StopSignals | CloseChannel | Take | SeeClosed | Return

  const INITIAL := State(Catching, Unstarted, Unused, None, true, false, true, 0, None, Alive)

  predicate Enabled(s: State, e: Event) {
    && s.process.Alive?
    && match e
       case Arrive(_) => true
       case DisableEcho(_) => s.reader.Catching?
       case Refuse => s.reader.Refused? && s.notified
       case StartWatcher => s.reader.Prompting?
       case ReadLine => s.reader.Reading?
       case ReaderEntersOnce => s.reader.Restoring? && s.once.Unused?
       case WatcherEntersOnce => s.watcher.Took? && s.once.Unused?
       case EndRestore => s.once.RunBy?
       case ReaderLeavesOnce => s.reader.Restoring? && s.once.Used?
       case ExitProcess => s.watcher.Took? && s.once.Used?
       case StopSignals => s.reader.Restored?
       case CloseChannel => s.reader.Stopped?
       case Take => s.watcher.Waiting? && s.channel.Some?
       case SeeClosed => s.watcher.Waiting? && s.channel.None? && s.closed
       case Return => (s.reader.Closed? && s.watcher.Done?) || (s.reader.Refused? && !s.notified)
  }

  /** A signal goes to the channel, which keeps one, while signals are caught; later it ends the process.
      A restore that ends is taken to have worked. */
  function Next(s: State, e: Event): State
    requires Enabled(s, e)
  {
    match e
    case Arrive(signal) =>
      if !s.notified then s.(process := Killed)
      else if s.channel.Some? then s
      else s.(channel := Some(signal), caught := if s.caught.None? then Some(signal) else s.caught)
    case DisableEcho(ok) => if ok then s.(echo := false, reader := Prompting) else s.(reader := Refused)
    case Refuse => s.(notified := false)
    case StartWatcher => s.(watcher := Waiting, reader := Reading)
    case ReadLine => s.(reader := Restoring)
    case ReaderEntersOnce => s.(once := RunBy(false))
    case WatcherEntersOnce => s.(once := RunBy(true))
    case EndRestore => s.(once := Used, echo := true, restores := s.restores + 1)
    case ReaderLeavesOnce => s.(reader := Restored)
    case ExitProcess => s.(process := Exited(128 + SignalNumber(s.watcher.signal)))
    case StopSignals => s.(notified := false, reader := Stopped)
    case CloseChannel => s.(closed := true, reader := Closed)
    case Take => s.(channel := None, watcher := Took(s.channel.value))
    case SeeClosed => s.(watcher := Done)
    case Return => s.(reader := Returned)
  }

  // ---------------------------------------------------------------- runs

  ghost predicate Follows(events: seq<Event>, states: seq<State>, k: nat)
    requires k < |events| < |states|
  {
    Enabled(states[k], events[k]) && states[k + 1] == Next(states[k], events[k])
  }

  ghost predicate IsRun(events: seq<Event>, states: seq<State>) {
    |states| == |events| + 1 && states[0] == INITIAL && forall k :: 0 <= k < |events| ==> Follows(events, states, k)
  }

  /** The echo has not been touched. */
  predicate Untouched(s: State) {
    s.reader.Catching? || s.reader.Refused? || (s.reader.Returned? && s.watcher.Unstarted?)
  }

  ghost predicate Inv(s: State) {
    && s.restores == (if s.once.Used? then 1 else 0)
    && (s.echo <==> Untouched(s) || s.once.Used?)
    && (Untouched(s) || s.reader.Prompting? ==> s.once.Unused? && s.watcher.Unstarted?)
    && (s.reader.Reading? || s.reader.Restoring? || s.reader.Restored? || s.reader.Stopped? || s.reader.Closed? ==>
        !s.watcher.Unstarted?)
    && (s.reader.Restored? || s.reader.Stopped? || s.reader.Closed? ==> s.once.Used?)
    && (s.reader.Returned? && !s.watcher.Unstarted? ==> s.watcher.Done? && s.once.Used?)
    && (s.once.RunBy? && s.once.watcher ==> s.watcher.Took?)
    && (s.notified <==>
        !(s.reader.Stopped? || s.reader.Closed? || s.reader.Returned?) && (s.reader.Refused? ==> s.notified))
    && (s.closed <==> s.reader.Closed? || (s.reader.Returned? && s.watcher.Done?))
    && (s.watcher.Done? ==> s.closed && s.caught.None?)
    && (s.caught.None? ==> s.channel.None? && !s.watcher.Took?)
    && (s.watcher.Unstarted? || s.watcher.Waiting? ==> s.channel == s.caught)
    && (s.watcher.Took? ==> s.caught == Some(s.watcher.signal))
    && match s.process
       case Alive => true
       case Exited(status) => s.watcher.Took? && s.once.Used? && status == 128 + SignalNumber(s.watcher.signal)
       case Killed => !s.notified
  }

  lemma StepKeeps(s: State, e: Event)
    requires Inv(s) && Enabled(s, e)
    ensures Inv(Next(s, e))
  {
  }

  lemma {:induction false} RunKeeps(events: seq<Event>, states: seq<State>, k: nat)
    requires IsRun(events, states) && k <= |events|
    ensures Inv(states[k])
  {
    if k > 0 {
      RunKeeps(events, states, k - 1);
      assert Follows(events, states, k - 1);
      StepKeeps(states[k - 1], events[k - 1]);
    }
  }

  /** Restore is called exactly once and has ended before the function returns or the process ends, if
      the echo was turned off, and never otherwise; so the terminal is never left without echo. */
  lemma EchoIsRestoredOnce(events: seq<Event>, states: seq<State>, k: nat)
    requires IsRun(events, states) && k <= |events|
    ensures var s := states[k];
      && s.restores <= 1
      && (s.reader.Returned? || !s.process.Alive? ==> s.echo && s.restores == if Untouched(s) then 0 else 1)
  {
    RunKeeps(events, states, k);
  }

  /** A process that a caught signal ended has 128 plus its number as its status; one that the default
      action ended was past Stop. */
  lemma StatusNamesTheSignal(events: seq<Event>, states: seq<State>, k: nat)
    requires IsRun(events, states) && k <= |events|
    ensures var s := states[k];
      && (s.process.Exited? ==> s.caught.Some?)
      && (s.process.Exited? && s.caught.value.Numbered? ==> s.process.status == 128 + s.caught.value.number)
      && (s.process.Exited? && s.caught.value.Unnumbered? ==> s.process.status == 129)
      && (s.process.Killed? ==> !s.notified)
  {
    RunKeeps(events, states, k);
  }

  /** The function returns after a signal was caught exactly if the echo could not be turned off: then
      the signal is lost. Otherwise it never returns, even if the line was already read. */
  lemma CaughtSignalNeverReturns(events: seq<Event>, states: seq<State>, k: nat)
    requires IsRun(events, states) && k <= |events| && states[k].caught.Some?
    ensures states[k].reader.Returned? ==> states[k].watcher.Unstarted? && states[k].restores == 0
  {
    RunKeeps(events, states, k);
  }

  /** A signal that arrives before the echo is refused is lost: the function returns and the process goes on. */
  lemma SignalIsLostWhenRefused(signal: Signal) returns (events: seq<Event>, states: seq<State>)
    ensures IsRun(events, states) && |events| == 4 && events[0] == Arrive(signal)
    ensures states[4].reader.Returned? && states[4].process.Alive? && states[4].caught == Some(signal)
  {
    var s1 := Next(INITIAL, Arrive(signal));
    var s2 := Next(s1, DisableEcho(false));
    var s3 := Next(s2, Refuse);
    var s4 := Next(s3, Return);
    events, states := [Arrive(signal), DisableEcho(false), Refuse, Return], [INITIAL, s1, s2, s3, s4];
  }

  // ---------------------------------------------------------------- progress

  /** How many steps the function and its watcher have left at most. */
  function StepsLeft(s: State): nat {
    (match s.watcher
     case Unstarted => 4
     case Waiting => 3
     case Took(_) => 2
     case Done => 0) +
    (match s.once
     case Unused => 2
     case RunBy(_) => 1
     case Used => 0) +
    (match s.reader
     case Catching => 9
     case Refused => 8
     case Prompting => 7
     case Reading => 6
     case Restoring => 5
     case Restored => 4
     case Stopped => 3
     case Closed => 2
     case Returned => 0) +
    (if s.notified then 1 else 0) + (if s.process.Alive? then 1 else 0)
  }

  /** Once the echo is off and a signal was caught, the process ends: as long as it is alive, the
      function, its watcher or the restore can take a step without the rest of the line, and every step
      but a further signal ends the process or leaves fewer. */
  lemma CaughtSignalEndsTheProcess(s: State, e: Event)
    requires Inv(s) && s.process.Alive? && s.caught.Some? && !Untouched(s)
    ensures exists step :: Enabled(s, step) && !step.Arrive? && !step.ReadLine?
    ensures Enabled(s, e) && !e.Arrive? ==>
      Next(s, e).process.Exited? || (StepsLeft(Next(s, e)) < StepsLeft(s) && !Untouched(Next(s, e)))
  {
    if s.reader.Prompting? {
      assert Enabled(s, StartWatcher);
    } else if s.watcher.Waiting? {
      assert Enabled(s, Take);
    } else if s.once.Unused? {
      assert Enabled(s, WatcherEntersOnce);
    } else if s.once.RunBy? {
      assert Enabled(s, EndRestore);
    } else {
      assert Enabled(s, ExitProcess);
    }
  }

  /** With or without a signal, the function or its watcher can go on until the function has returned or
      the process has ended; only the line itself may have to be waited for. Every step but the arrival of
      a signal leaves fewer. */
  lemma StepEnds(s: State, e: Event)
    requires Inv(s)
    ensures s.process.Alive? && !s.reader.Returned? ==> exists step :: Enabled(s, step) && !step.Arrive?
    ensures Enabled(s, e) && !e.Arrive? ==> StepsLeft(Next(s, e)) < StepsLeft(s)
    ensures Enabled(s, e) && e.Arrive? ==> StepsLeft(Next(s, e)) <= StepsLeft(s)
  {
    if s.process.Alive? && !s.reader.Returned? {
      var step := match s.reader
        case Catching => DisableEcho(true)
        case Refused => if s.notified then Refuse else Return
        case Prompting => StartWatcher
        case Reading => ReadLine
        case Restoring =>
          (match s.once case Unused => ReaderEntersOnce case RunBy(_) => EndRestore case Used => ReaderLeavesOnce)
        case Restored => StopSignals
        case Stopped => CloseChannel
        case Closed =>
          (match s.watcher
           case Waiting => if s.channel.Some? then Take else SeeClosed
           case Took(_) => ExitProcess
           case _ => Return)
        case Returned => Return;
      assert Enabled(s, step) && !step.Arrive?;
    }
  }

  function Arrivals(events: seq<Event>): nat {
    if events == [] then 0
    else Arrivals(events[..|events| - 1]) + if events[|events| - 1].Arrive? then 1 else 0
  }

  lemma {:induction false} StepsAreUsed(events: seq<Event>, states: seq<State>, k: nat)
    requires IsRun(events, states) && k <= |events|
    ensures StepsLeft(states[k]) + k <= 17 + Arrivals(events[..k])
  {
    if k > 0 {
      StepsAreUsed(events, states, k - 1);
      RunKeeps(events, states, k - 1);
      assert Follows(events, states, k - 1) && events[..k][..k - 1] == events[..k - 1];
      StepEnds(states[k - 1], events[k - 1]);
      hide Inv, IsRun, Enabled, Next, StepsLeft;
    }
  }

  /** Every run ends: besides the signals that arrive it has at most 17 steps, and it cannot be continued
      without a signal only when the function has returned or the process has ended. */
  lemma EveryRunEnds(events: seq<Event>, states: seq<State>)
    requires IsRun(events, states)
    ensures |events| <= 17 + Arrivals(events)
    ensures var s := states[|events|];
      (exists step :: Enabled(s, step) && !step.Arrive?) || s.reader.Returned? || !s.process.Alive?
  {
    StepsAreUsed(events, states, |events|);
    assert events[..|events|] == events;
    RunKeeps(events, states, |events|);
    StepEnds(states[|events|], Return);
  }

  /** Without a signal a run ends only with the return of the function, with the echo on again. */
  lemma LineIsReturned(events: seq<Event>, states: seq<State>)
    requires IsRun(events, states) && Arrivals(events) == 0
    ensures states[|events|].process.Alive? && states[|events|].caught.None?
    ensures !(exists step :: Enabled(states[|events|], step) && !step.Arrive?) ==>
      states[|events|].reader.Returned? && states[|events|].echo
  {
    assert events[..|events|] == events;
    NoSignal(events, states, |events|);
    EveryRunEnds(events, states);
    RunKeeps(events, states, |events|);
  }

  lemma {:induction false} NoSignal(events: seq<Event>, states: seq<State>, k: nat)
    requires IsRun(events, states) && k <= |events| && Arrivals(events[..k]) == 0
    ensures states[k].process.Alive? && states[k].caught.None?
  {
    if k > 0 {
      assert events[..k][..k - 1] == events[..k - 1];
      NoSignal(events, states, k - 1);
      RunKeeps(events, states, k - 1);
      assert Follows(events, states, k - 1);
    }
  }
}
