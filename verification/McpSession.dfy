/** The table of running tool calls of an MCP session (serve, startCall, cancelCall, send), as the
    critical sections of its threads in any order. */
module McpSession {

  const MAX_CALLS: nat := 16

  /** The canonical form of a JSON-RPC request id. */
  type Key = string

  /** A tool call's thread: running its tool, about to send its result, and ended. */
  datatype Phase = Running | Replying | Ended

  /** One accepted call. quiet is decided when the call leaves the table. */
  datatype Call = Call(key: Key, phase: Phase, cancelled: bool, quiet: bool)

  /** What startCall makes of a request. */
  datatype Refusal = Accepted | InProgress | Busy

  /** The result of a call, the error of a refused one, and what the serving thread answers by itself. */
  datatype Message = Result(call: nat) | Refused(key: Key, refusal: Refusal) | Note(key: Key)

  /** The thread that serves the input: reading, about to send a message of its own, waiting for the
      calls after the input ended, and returned. */
  datatype Main = Reading | Sending(message: Message) | Waiting | Returned

  datatype State = State(calls: seq<Call>, table: map<Key, nat>, main: Main,
                         closed: bool, stopped: bool, outputFailed: bool, output: seq<Message>)

  const INIT := State([], map[], Reading, false, false, false, [])

  // ---------------------------------------------------------------- critical sections

  /** startCall under the lock. */
  function Admit(s: State, key: Key): (Refusal, State) {
    if key in s.table then (InProgress, s)
    else if |s.table| >= MAX_CALLS then (Busy, s)
    else (Accepted, s.(calls := s.calls + [Call(key, Running, false, false)], table := s.table[key := |s.calls|]))
  }

  /** cancelCall under the lock. */
  function CancelNamed(s: State, key: Key): State
    requires key in s.table ==> s.table[key] < |s.calls|
  {
    if key in s.table then
      var i := s.table[key];
      s.(calls := s.calls[i := s.calls[i].(cancelled := true)])
    else s
  }

  /** What the thread of a call does under the lock once its tool has returned. */
  function Leave(s: State, i: nat): State
    requires i < |s.calls|
  {
    var call := s.calls[i];
    var quiet := call.cancelled || s.closed;
    s.(table := s.table - {call.key},
       calls := s.calls[i := call.(phase := if quiet then Ended else Replying, quiet := quiet)])
  }

  /** send under the write lock; writes tells whether the output takes the message. */
  function Send(s: State, message: Message, writes: bool): State {
    if s.outputFailed then s
    else if writes then s.(output := s.output + [message])
    else s.(outputFailed := true, stopped := true)
  }

  /** The end of the reading loop of serve. */
  function Close(s: State): State {
    s.(closed := true, stopped := true, main := Waiting)
  }

  /** The mcpServer fields that the threads share. */
  class Session {
    var calls: seq<Call>
    var table: map<Key, nat>
    var main: Main
    var closed: bool
    var stopped: bool
    var outputFailed: bool
    var output: seq<Message>

    function Now(): State
      reads this
    {
      State(calls, table, main, closed, stopped, outputFailed, output)
    }

    constructor ()
      ensures Now() == INIT
    {
      calls, table, main, output := [], map[], Reading, [];
      closed, stopped, outputFailed := false, false, false;
    }

    method StartCall(key: Key) returns (refusal: Refusal)
      modifies this
      ensures (refusal, Now()) == Admit(old(Now()), key)
    {
      if key in table {
        return InProgress;
      }
      if |table| >= MAX_CALLS {
        return Busy;
      }
      table := table[key := |calls|];
      calls := calls + [Call(key, Running, false, false)];
      return Accepted;
    }

    method CancelCall(key: Key)
      requires key in table ==> table[key] < |calls|
      modifies this`calls
      ensures Now() == CancelNamed(old(Now()), key)
    {
      if key in table {
        calls := calls[table[key] := calls[table[key]].(cancelled := true)];
      }
    }

    method LeaveTable(i: nat) returns (quiet: bool)
      requires i < |calls|
      modifies this`calls, this`table
      ensures Now() == Leave(old(Now()), i) && quiet == calls[i].quiet
    {
      quiet := calls[i].cancelled || closed;
      table := table - {calls[i].key};
      calls := calls[i := calls[i].(phase := if quiet then Ended else Replying, quiet := quiet)];
    }

    method SendMessage(message: Message, writes: bool)
      modifies this
      ensures Now() == Send(old(Now()), message, writes)
    {
      if outputFailed {
        return;
      }
      if writes {
        output := output + [message];
      } else {
        outputFailed := true;
        stopped := true;
      }
    }

    method EndReading()
      modifies this
      ensures Now() == Close(old(Now()))
    {
      closed := true;
      stopped := true;
      main := Waiting;
    }
  }

  // ---------------------------------------------------------------- interleavings

  /** One step of one thread. Request, OtherMessage and Cancel are messages read from the input;
      OtherMessage is any that the serving thread answers by itself. */
  datatype Event =
    | Request(key: Key)
    | OtherMessage(key: Key)
    | Cancel(key: Key)
    | MainSends(writes: bool)
    | InputEnds
    | ToolReturns(call: nat)
    | CallSends(call: nat, writes: bool)
    | ServeReturns

  predicate AllEnded(calls: seq<Call>) {
    forall i :: 0 <= i < |calls| ==> calls[i].phase.Ended?
  }

  ghost predicate Enabled(s: State, e: Event) {
    match e
    case Request(_) | OtherMessage(_) | InputEnds => s.main.Reading?
    case Cancel(key) => s.main.Reading? && (key in s.table ==> s.table[key] < |s.calls|)
    case MainSends(_) => s.main.Sending?
    case ToolReturns(i) => i < |s.calls| && s.calls[i].phase.Running?
    case CallSends(i, _) => i < |s.calls| && s.calls[i].phase.Replying?
    case ServeReturns => s.main.Waiting? && AllEnded(s.calls)
  }

  ghost function Step(s: State, e: Event): State
    requires Enabled(s, e)
  {
    match e
    case Request(key) =>
      var (refusal, next) := Admit(s, key);
      if refusal.Accepted? then next else next.(main := Sending(Refused(key, refusal)))
    case OtherMessage(key) => s.(main := Sending(Note(key)))
    case Cancel(key) => CancelNamed(s, key)
    case MainSends(writes) => Send(s, s.main.message, writes).(main := Reading)
    case InputEnds => Close(s)
    case ToolReturns(i) => Leave(s, i)
    case CallSends(i, writes) =>
      var sent := Send(s, Result(i), writes);
      sent.(calls := s.calls[i := s.calls[i].(phase := Ended)])
    case ServeReturns => s.(main := Returned)
  }

  /** The states of a run: one before each event, and the last. */
  ghost predicate IsRun(events: seq<Event>, states: seq<State>) {
    && |states| == |events| + 1 && states[0] == INIT
    && (forall k :: 0 <= k < |events| ==> Enabled(states[k], events[k]) && states[k + 1] == Step(states[k], events[k]))
  }

  // ---------------------------------------------------------------- the invariant

  function Answers(output: seq<Message>, call: nat): nat {
    if output == [] then 0
    else Answers(output[..|output| - 1], call) + if output[|output| - 1] == Result(call) then 1 else 0
  }

  function RunningCalls(calls: seq<Call>): nat {
    if calls == [] then 0
    else RunningCalls(calls[..|calls| - 1]) + if calls[|calls| - 1].phase.Running? then 1 else 0
  }

  lemma {:induction false} RunningUpdate(calls: seq<Call>, i: nat, call: Call)
    requires i < |calls|
    ensures RunningCalls(calls[i := call]) + (if calls[i].phase.Running? then 1 else 0) ==
      RunningCalls(calls) + if call.phase.Running? then 1 else 0
  {
    var n := |calls| - 1;
    if i == n {
      assert calls[i := call][..n] == calls[..n];
    } else {
      RunningUpdate(calls[..n], i, call);
      assert calls[i := call][..n] == calls[..n][i := call];
    }
  }

  /** The table holds exactly the running calls, each under its own key. */
  ghost predicate TableIsRunning(s: State) {
    && |s.table| == RunningCalls(s.calls) <= MAX_CALLS
    && (forall key :: key in s.table ==>
          s.table[key] < |s.calls| && s.calls[s.table[key]].key == key && s.calls[s.table[key]].phase.Running?)
    && (forall i :: 0 <= i < |s.calls| && s.calls[i].phase.Running? ==>
        s.calls[i].key in s.table && s.table[s.calls[i].key] == i)
  }

  /** What is written for one call so far. */
  ghost predicate AnsweredRight(s: State, i: nat)
    requires i < |s.calls|
  {
    var call := s.calls[i];
    && (call.phase.Running? ==> !call.quiet && Answers(s.output, i) == 0)
    && (call.phase.Replying? ==> !call.quiet && !call.cancelled && Answers(s.output, i) == 0)
    && (call.phase.Ended? ==> Answers(s.output, i) <= 1)
    && (call.phase.Ended? && call.quiet ==> (call.cancelled || s.closed) && Answers(s.output, i) == 0)
    && (call.phase.Ended? && !call.quiet ==> !call.cancelled && (!s.outputFailed ==> Answers(s.output, i) == 1))
  }

  ghost predicate Inv(s: State) {
    && TableIsRunning(s)
    && (forall i :: 0 <= i < |s.calls| ==> AnsweredRight(s, i))
    && (forall i: nat :: i >= |s.calls| ==> Answers(s.output, i) == 0)
    && (s.closed <==> s.main.Waiting? || s.main.Returned?)
    && (s.closed || s.outputFailed ==> s.stopped)
    && (s.main.Returned? ==> AllEnded(s.calls))
    && (s.main.Sending? ==> !s.main.message.Result?)
  }

  lemma OneMoreMessage(output: seq<Message>, m: Message, call: nat)
    ensures Answers(output + [m], call) == Answers(output, call) + if m == Result(call) then 1 else 0
  {
    assert (output + [m])[..|output|] == output;
  }

  lemma SendKeeps(s: State, m: Message, writes: bool)
    requires Inv(s) && !m.Result?
    ensures Inv(Send(s, m, writes))
  {
    forall i: nat ensures Answers(s.output + [m], i) == Answers(s.output, i) { OneMoreMessage(s.output, m, i); }
    var next := Send(s, m, writes);
    forall i | 0 <= i < |next.calls| ensures AnsweredRight(next, i) { assert AnsweredRight(s, i); }
  }

  lemma AdmitKeepsTable(s: State, key: Key)
    requires TableIsRunning(s)
    ensures TableIsRunning(Admit(s, key).1)
  {
    var calls := Admit(s, key).1.calls;
    assert calls != s.calls ==> calls[..|s.calls|] == s.calls;
  }

  lemma AdmitKeeps(s: State, key: Key)
    requires Inv(s) && s.main.Reading?
    ensures Inv(Admit(s, key).1)
  {
    hide Answers, RunningCalls, TableIsRunning, AllEnded;
    AdmitKeepsTable(s, key);
    var next := Admit(s, key).1;
    forall i | 0 <= i < |next.calls| ensures AnsweredRight(next, i) {
      if i < |s.calls| { assert AnsweredRight(s, i); }
    }
  }

  lemma CancelKeepsTable(s: State, key: Key)
    requires TableIsRunning(s)
    ensures TableIsRunning(CancelNamed(s, key))
  {
    if key in s.table {
      RunningUpdate(s.calls, s.table[key], CancelNamed(s, key).calls[s.table[key]]);
    }
  }

  lemma CancelKeeps(s: State, key: Key)
    requires Inv(s)
    ensures Inv(CancelNamed(s, key))
  {
    hide Answers, RunningCalls;
    CancelKeepsTable(s, key);
    var next := CancelNamed(s, key);
    forall i | 0 <= i < |next.calls| ensures AnsweredRight(next, i) { assert AnsweredRight(s, i); }
  }

  lemma LeaveKeepsTable(s: State, i: nat)
    requires TableIsRunning(s) && i < |s.calls| && s.calls[i].phase.Running?
    ensures TableIsRunning(Leave(s, i))
  {
    var next := Leave(s, i);
    RunningUpdate(s.calls, i, next.calls[i]);
    assert next.table.Keys == s.table.Keys - {s.calls[i].key};
    assert |next.table| == |next.table.Keys| && |s.table| == |s.table.Keys|;
  }

  lemma LeaveKeeps(s: State, i: nat)
    requires Inv(s) && i < |s.calls| && s.calls[i].phase.Running?
    ensures Inv(Leave(s, i))
  {
    hide Answers, RunningCalls, TableIsRunning;
    LeaveKeepsTable(s, i);
    var next := Leave(s, i);
    forall j | 0 <= j < |next.calls| ensures AnsweredRight(next, j) { assert AnsweredRight(s, j); }
  }

  lemma CallSendAnswers(s: State, i: nat, writes: bool, j: nat)
    requires Inv(s) && i < |s.calls| && s.calls[i].phase.Replying?
    ensures var next := Step(s, CallSends(i, writes));
      if j < |s.calls| then AnsweredRight(next, j) else Answers(next.output, j) == 0
  {
    OneMoreMessage(s.output, Result(i), j);
    hide Answers, AllEnded, TableIsRunning;
    if j < |s.calls| {
      assert AnsweredRight(s, j);
    }
  }

  lemma CallSendKeepsTable(s: State, i: nat, writes: bool)
    requires TableIsRunning(s) && i < |s.calls| && s.calls[i].phase.Replying?
    ensures TableIsRunning(Step(s, CallSends(i, writes)))
  {
    hide Answers, AllEnded;
    RunningUpdate(s.calls, i, s.calls[i].(phase := Ended));
  }

  lemma CallSendKeeps(s: State, i: nat, writes: bool)
    requires Inv(s) && i < |s.calls| && s.calls[i].phase.Replying?
    ensures Inv(Step(s, CallSends(i, writes)))
  {
    CallSendKeepsTable(s, i, writes);
    var next := Step(s, CallSends(i, writes));
    forall j: nat ensures if j < |s.calls| then AnsweredRight(next, j) else Answers(next.output, j) == 0 {
      CallSendAnswers(s, i, writes, j);
    }
    hide Answers, TableIsRunning, AnsweredRight;
  }

  lemma CloseKeeps(s: State)
    requires Inv(s)
    ensures s.main.Reading? ==> Inv(Close(s))
  {
    forall i | 0 <= i < |s.calls| ensures AnsweredRight(Close(s), i) { assert AnsweredRight(s, i); }
  }

  lemma MainKeeps(s: State, main: Main)
    requires Inv(s)
    requires if s.main.Waiting? then main.Returned? && AllEnded(s.calls)
      else !s.main.Returned? && (main.Reading? || (main.Sending? && !main.message.Result?))
    ensures Inv(s.(main := main))
  {
    forall i | 0 <= i < |s.calls| ensures AnsweredRight(s.(main := main), i) { assert AnsweredRight(s, i); }
  }

  lemma MainMessage(s: State)
    requires Inv(s) && s.main.Sending?
    ensures !s.main.message.Result?
  {
  }

  lemma StepKeeps(s: State, e: Event)
    requires Inv(s) && Enabled(s, e)
    ensures Inv(Step(s, e))
  {
    hide Inv;
    match e
    case Request(key) =>
      AdmitKeeps(s, key);
      var refusal := Admit(s, key).0;
      if !refusal.Accepted? { MainKeeps(s, Sending(Refused(key, refusal))); }
    case OtherMessage(key) => MainKeeps(s, Sending(Note(key)));
    case Cancel(key) => CancelKeeps(s, key);
    case MainSends(writes) =>
      MainMessage(s);
      SendKeeps(s, s.main.message, writes);
      MainKeeps(Send(s, s.main.message, writes), Reading);
    case InputEnds => CloseKeeps(s);
    case ToolReturns(i) => LeaveKeeps(s, i);
    case CallSends(i, writes) => CallSendKeeps(s, i, writes);
    case ServeReturns => MainKeeps(s, Returned);
  }

  lemma {:induction false} RunKeeps(events: seq<Event>, states: seq<State>, k: nat)
    requires IsRun(events, states) && k < |states|
    ensures Inv(states[k])
  {
    if k > 0 {
      RunKeeps(events, states, k - 1);
      StepKeeps(states[k - 1], events[k - 1]);
    }
  }

  // ---------------------------------------------------------------- every run

  /** A cancellation that named call i while it was in the table. */
  ghost predicate NamedAt(events: seq<Event>, states: seq<State>, j: nat, i: nat)
    requires IsRun(events, states) && j < |events|
  {
    && events[j].Cancel? && events[j].key in states[j].table && states[j].table[events[j].key] == i
  }

  ghost predicate CancelledBefore(events: seq<Event>, states: seq<State>, k: nat, i: nat)
    requires IsRun(events, states) && k <= |events|
  {
    exists j: nat :: j < k && NamedAt(events, states, j, i)
  }

  ghost predicate ClosedBefore(events: seq<Event>, k: nat)
    requires k <= |events|
  {
    exists j: nat :: j < k && events[j].InputEnds?
  }

  lemma FlagsStep(s: State, e: Event, i: nat)
    requires Inv(s) && Enabled(s, e)
    ensures var next := Step(s, e);
      && |s.calls| <= |next.calls| && (next.closed <==> s.closed || e.InputEnds?)
      && (i < |next.calls| ==> (next.calls[i].cancelled <==>
            (i < |s.calls| && s.calls[i].cancelled) || (e.Cancel? && e.key in s.table && s.table[e.key] == i)))
  {
    hide Inv, TableIsRunning, AnsweredRight, Answers, RunningCalls, AllEnded;
    NamedCallExists(s);
  }

  lemma HistoryStep(events: seq<Event>, states: seq<State>, k: nat, i: nat)
    requires IsRun(events, states) && 0 < k <= |events|
    ensures CancelledBefore(events, states, k, i) <==>
      CancelledBefore(events, states, k - 1, i) || NamedAt(events, states, k - 1, i)
    ensures ClosedBefore(events, k) <==> ClosedBefore(events, k - 1) || events[k - 1].InputEnds?
  {
    hide IsRun, NamedAt;
    if NamedAt(events, states, k - 1, i) { assert k - 1 < k; }
  }

  lemma {:induction false} FlagsAreHistory(events: seq<Event>, states: seq<State>, k: nat, i: nat)
    requires IsRun(events, states) && k < |states|
    ensures states[k].closed <==> ClosedBefore(events, k)
    ensures i < |states[k].calls| ==> (states[k].calls[i].cancelled <==> CancelledBefore(events, states, k, i))
    ensures i >= |states[k].calls| ==> !CancelledBefore(events, states, k, i)
  {
    if k > 0 {
      FlagsAreHistory(events, states, k - 1, i);
      RunKeeps(events, states, k - 1);
      HistoryStep(events, states, k, i);
      FlagsStep(states[k - 1], events[k - 1], i);
      assert states[k] == Step(states[k - 1], events[k - 1]);
      NamedCallExists(states[k - 1]);
      hide Step, Enabled, Inv, CancelledBefore, ClosedBefore;
    }
  }

  lemma NamedCallExists(s: State)
    requires Inv(s)
    ensures forall key :: key in s.table ==> s.table[key] < |s.calls|
  {
  }

  /** Once a call has left the table, nothing changes whether it is answered. */
  lemma {:induction false} LeftStaysLeft(events: seq<Event>, states: seq<State>, k: nat, n: nat, i: nat)
    requires IsRun(events, states) && k <= n < |states|
    requires i < |states[k].calls| && !states[k].calls[i].phase.Running?
    ensures i < |states[n].calls| && !states[n].calls[i].phase.Running?
      && states[n].calls[i].quiet == states[k].calls[i].quiet
    decreases n - k
  {
    if k < n {
      RunKeeps(events, states, k);
      assert states[k + 1] == Step(states[k], events[k]);
      LeftStaysLeft(events, states, k + 1, n, i);
    }
  }

  /** The table never holds more than 16 calls, and the entry that a finishing call deletes is its own. */
  lemma FinishDeletesItsOwnEntry(events: seq<Event>, states: seq<State>, k: nat, i: nat)
    requires IsRun(events, states) && k < |events| && events[k] == ToolReturns(i)
    ensures var key := states[k].calls[i].key;
      && |states[k].table| <= MAX_CALLS
      && key in states[k].table && states[k].table[key] == i
      && key !in states[k + 1].table
      && (forall other :: other in states[k].table && states[k].table[other] != i ==>
            other in states[k + 1].table && states[k + 1].table[other] == states[k].table[other])
  {
    RunKeeps(events, states, k);
    assert states[k + 1] == Step(states[k], events[k]);
  }

  /** At every moment of every run the table holds exactly the running calls, at most 16. */
  lemma TableIsBounded(events: seq<Event>, states: seq<State>, n: nat)
    requires IsRun(events, states) && n < |states|
    ensures TableIsRunning(states[n]) && |states[n].table| <= 16
  {
    RunKeeps(events, states, n);
  }

  ghost predicate IsRunning(s: State, key: Key) {
    exists i :: 0 <= i < |s.calls| && s.calls[i] == Call(key, Running, s.calls[i].cancelled, s.calls[i].quiet)
  }

  /** In every run a request starts a call under its id if and only if no call with that id is running
      and fewer than 16 calls are; else nothing is added, and the serving thread is about to send the
      refusal: that the id is in progress if it is, and else that the server is busy. */
  lemma AdmittedExactly(events: seq<Event>, states: seq<State>, k: nat, key: Key)
    requires IsRun(events, states) && k < |events| && events[k] == Request(key)
    ensures var s, t := states[k], states[k + 1];
      && t.output == s.output && t.outputFailed == s.outputFailed
      && if !IsRunning(s, key) && RunningCalls(s.calls) < 16 then
           t.main.Reading? && t.calls == s.calls + [Call(key, Running, false, false)]
         else
           && t.calls == s.calls
           && t.main == Sending(Refused(key, if IsRunning(s, key) then InProgress else Busy))
  {
    RunKeeps(events, states, k);
    assert states[k + 1] == Step(states[k], events[k]);
    KeyIsRunning(states[k], key);
    hide Inv, IsRunning, IsRun;
  }

  lemma KeyIsRunning(s: State, key: Key)
    requires Inv(s)
    ensures IsRunning(s, key) <==> key in s.table
    ensures RunningCalls(s.calls) == |s.table|
  {
  }

  /** What the serving thread is about to send is the next thing it writes, whatever the calls do in
      between, unless the output failed. */
  lemma {:induction false} MessageIsSent(events: seq<Event>, states: seq<State>, k: nat, m: nat)
    requires IsRun(events, states) && k <= m < |events| && states[k].main.Sending?
    requires forall j :: k <= j < m ==> !events[j].MainSends?
    ensures states[m].main == states[k].main
    ensures events[m] == MainSends(true) && !states[m].outputFailed ==>
      states[m + 1].output == states[m].output + [states[k].main.message] && states[m + 1].main.Reading?
  {
    assert states[m + 1] == Step(states[m], events[m]);
    if k < m {
      MessageIsSent(events, states, k, m - 1);
      assert Enabled(states[m - 1], events[m - 1]) && states[m] == Step(states[m - 1], events[m - 1]);
    }
  }

  /** For a call that left the table at step k: at any later time at most one result is written for
      it; none if it was cancelled or the input had ended before step k; and otherwise exactly one
      once its thread has ended, unless the output failed. */
  lemma AnsweredExactly(events: seq<Event>, states: seq<State>, k: nat, n: nat, i: nat)
    requires IsRun(events, states) && k < n < |states| && events[k] == ToolReturns(i)
    ensures i < |states[n].calls| && Answers(states[n].output, i) <= 1
    ensures CancelledBefore(events, states, k, i) || ClosedBefore(events, k) ==>
      states[n].calls[i].phase.Ended? && Answers(states[n].output, i) == 0
    ensures !CancelledBefore(events, states, k, i) && !ClosedBefore(events, k) ==>
      states[n].calls[i].phase.Ended? && !states[n].outputFailed ==> Answers(states[n].output, i) == 1
  {
    FlagsAreHistory(events, states, k, i);
    RunKeeps(events, states, k);
    assert states[k + 1] == Step(states[k], events[k]);
    LeftStaysLeft(events, states, k + 1, n, i);
    RunKeeps(events, states, n);
    assert AnsweredRight(states[n], i);
  }

  /** A call is answered only after it left the table. */
  lemma NoEarlyAnswer(events: seq<Event>, states: seq<State>, n: nat, i: nat)
    requires IsRun(events, states) && n < |states|
    requires i < |states[n].calls| ==> states[n].calls[i].phase.Running?
    ensures Answers(states[n].output, i) == 0
  {
    RunKeeps(events, states, n);
    if i < |states[n].calls| { assert AnsweredRight(states[n], i); }
  }

  /** serve returns only after every call ended, and nothing happens, so nothing is written, after it. */
  lemma NothingAfterServeReturns(events: seq<Event>, states: seq<State>, n: nat)
    requires IsRun(events, states) && n < |states| && states[n].main.Returned?
    ensures AllEnded(states[n].calls) && states[n].closed && n == |events|
  {
    RunKeeps(events, states, n);
    if n < |events| { assert Enabled(states[n], events[n]); }
  }

  // ---------------------------------------------------------------- serve returns

  function Left(phase: Phase): nat {
    if phase.Running? then 2 else if phase.Replying? then 1 else 0
  }

  /** Steps that are left once the input has ended. */
  function Work(calls: seq<Call>): nat {
    if calls == [] then 0 else Work(calls[..|calls| - 1]) + Left(calls[|calls| - 1].phase)
  }

  lemma {:induction false} WorkUpdate(calls: seq<Call>, i: nat, call: Call)
    requires i < |calls|
    ensures Work(calls[i := call]) + Left(calls[i].phase) == Work(calls) + Left(call.phase)
  {
    var n := |calls| - 1;
    if i == n {
      assert calls[i := call][..n] == calls[..n];
    } else {
      WorkUpdate(calls[..n], i, call);
      assert calls[i := call][..n] == calls[..n][i := call];
    }
  }

  lemma {:induction false} NoWorkLeft(calls: seq<Call>)
    ensures Work(calls) == 0 <==> AllEnded(calls)
  {
    if calls != [] {
      var n := |calls| - 1;
      NoWorkLeft(calls[..n]);
      assert AllEnded(calls) <==> AllEnded(calls[..n]) && calls[n].phase.Ended?;
    }
  }

  /** Once the input has ended, every step takes the session nearer to its return, and until the
      return some thread can make one: serve always returns if the tools do. */
  lemma WaitingEnds(s: State, e: Event)
    requires Inv(s) && s.main.Waiting?
    ensures Enabled(s, e) ==>
      if e.ServeReturns? then Step(s, e).main.Returned? && Work(s.calls) == 0
      else Step(s, e).main.Waiting? && Work(Step(s, e).calls) < Work(s.calls)
    ensures exists f: Event :: Enabled(s, f)
  {
    NoWorkLeft(s.calls);
    if Enabled(s, e) && e.ToolReturns? {
      WorkUpdate(s.calls, e.call, Step(s, e).calls[e.call]);
    } else if Enabled(s, e) && e.CallSends? {
      WorkUpdate(s.calls, e.call, Step(s, e).calls[e.call]);
    }
    if AllEnded(s.calls) {
      assert Enabled(s, ServeReturns);
    } else {
      var i: nat :| i < |s.calls| && !s.calls[i].phase.Ended?;
      assert Enabled(s, ToolReturns(i)) || Enabled(s, CallSends(i, true));
    }
  }

  /** A run has at most so many steps after the input ended, and reaches the return exactly when it
      cannot be continued. */
  lemma {:induction false} RunsEnd(events: seq<Event>, states: seq<State>, n: nat)
    requires IsRun(events, states) && n < |states| && states[n].main.Waiting?
    ensures |events| - n <= Work(states[n].calls) + 1
    ensures (forall e: Event :: !Enabled(states[|events|], e)) <==> states[|events|].main.Returned?
    decreases |events| - n
  {
    RunKeeps(events, states, n);
    if n == |events| {
      WaitingEnds(states[n], ServeReturns);
    } else {
      WaitingEnds(states[n], events[n]);
      assert states[n + 1] == Step(states[n], events[n]);
      if events[n].ServeReturns? {
        NothingAfterServeReturns(events, states, n + 1);
        RunKeeps(events, states, n + 1);
      } else {
        RunsEnd(events, states, n + 1);
      }
    }
  }
}
