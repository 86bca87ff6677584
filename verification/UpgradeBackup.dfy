/** The backup that an upgrade makes of one state directory, and the removal of the older ones
    (createUpgradeBackup, removeOlderUpgradeBackups), one file system change at a time. */
module UpgradeBackup {
  import opened Basics
  import opened UpgradeNote
  import Json

  /** An entry of the backup folder: whether it opens as a private folder of this account, whether it
      holds all of a backup, and its note if that is this account's own file. */
  datatype Entry = Entry(private: bool, complete: bool, note: Option<string>)

  type Folder = map<string, Entry>

  /** upgradeBackupOf. */
  predicate BackupOf(entry: Entry, stateDir: string) {
    entry.private && entry.note.Some? && NoteNames(entry.note.value, stateDir)
  }

  // ---------------------------------------------------------------- the name

  const MOST_NAMES: nat := 100

  function Numbered(base: string, number: nat): string {
    if number <= 1 then base else base + "-" + Json.Decimal(number)
  }

  ghost predicate IsNumbered(name: string, base: string, number: nat) {
    name == if number == 1 then base else base + "-" + Json.Decimal(number)
  }

  function FreeFrom(folder: Folder, base: string, number: nat): Option<string>
    decreases MOST_NAMES + 1 - number
  {
    if number > MOST_NAMES then None
    else if Numbered(base, number) !in folder then Some(Numbered(base, number))
    else FreeFrom(folder, base, number + 1)
  }

  /** newUpgradeBackupName: the first name that is free, and none when a hundred are taken. */
  method NewName(folder: Folder, base: string) returns (name: Option<string>)
    ensures name == FreeFrom(folder, base, 1)
    ensures name.Some? ==> name.value !in folder
    ensures name.None? <==> forall number :: 1 <= number <= 100 ==> Numbered(base, number) in folder
    ensures name.Some? ==>
      exists number: nat ::
        1 <= number <= 100 && IsNumbered(name.value, base, number) &&
        forall earlier :: 1 <= earlier < number ==> Numbered(base, earlier) in folder
  {
    var number := 1;
    while number <= MOST_NAMES
      invariant 1 <= number <= MOST_NAMES + 1
      invariant forall earlier :: 1 <= earlier < number ==> Numbered(base, earlier) in folder
      invariant FreeFrom(folder, base, number) == FreeFrom(folder, base, 1)
    {
      if Numbered(base, number) !in folder {
        assert IsNumbered(Numbered(base, number), base, number);
        return Some(Numbered(base, number));
      }
      number := number + 1;
    }
    return None;
  }

  lemma {:induction false} FreeIsFree(folder: Folder, base: string, number: nat)
    ensures var name := FreeFrom(folder, base, number); name.Some? ==> name.value !in folder
    decreases MOST_NAMES + 1 - number
  {
    if number <= MOST_NAMES && Numbered(base, number) in folder {
      FreeIsFree(folder, base, number + 1);
    }
  }

  // ---------------------------------------------------------------- steps

  datatype Stage = Opening | Naming | Backing(name: string) | Noting(name: string, text: string)
                 | Removing(name: string, left: seq<string>) | Deleting(name: string, victim: string, left: seq<string>)
                 | Made(name: string) | NotMade | Broken

  /** thorough: the listing held every name, and no removal failed. */
  datatype State = State(folder: Folder, stage: Stage, thorough: bool)

  datatype Event = OpenCopy(ok: bool, initialized: bool) | ChooseName(base: string) | WriteSome
                 | FinishBackup(ok: bool, text: string)
                 | WriteNotePart(part: string) | FinishNote(ok: bool, listed: seq<string>)
                 | Skip | StartDelete | DeleteSome(rest: Entry) | EndDelete(ok: bool) | EndRemoval

  /** The next listed name is an older backup of this state directory. */
  predicate Older(s: State, stateDir: string)
    requires s.stage.Removing? && s.stage.left != []
  {
    var next := s.stage.left[0];
    next != s.stage.name && next in s.folder && BackupOf(s.folder[next], stateDir)
  }

  predicate Enabled(s: State, e: Event, stateDir: string) {
    match e
    case OpenCopy(_, _) => s.stage.Opening?
    case ChooseName(_) => s.stage.Naming?
    case WriteSome | FinishBackup(_, _) => s.stage.Backing?
    case WriteNotePart(part) => s.stage.Noting? && part <= NoteText(s.stage.text, stateDir)
    case FinishNote(_, _) => s.stage.Noting?
    case Skip => s.stage.Removing? && s.stage.left != [] && !Older(s, stateDir)
    case StartDelete => s.stage.Removing? && s.stage.left != [] && Older(s, stateDir)
    case DeleteSome(_) | EndDelete(_) => s.stage.Deleting?
    case EndRemoval => s.stage.Removing? && s.stage.left == []
  }

  function Next(s: State, e: Event, stateDir: string): State
    requires Enabled(s, e, stateDir)
  {
    match e
    case OpenCopy(ok, initialized) => s.(stage := if !ok then Broken else if initialized then Naming else NotMade)
    case ChooseName(base) =>
      (match FreeFrom(s.folder, base, 1)
       case None => s.(stage := Broken)
       case Some(name) => s.(stage := Backing(name)))
    case WriteSome => s.(folder := s.folder[s.stage.name := Entry(true, false, None)])
    case FinishBackup(ok, text) =>
      if ok then State(s.folder[s.stage.name := Entry(true, true, None)], Noting(s.stage.name, text), s.thorough)
        else s.(stage := Broken)
    case WriteNotePart(part) => s.(folder := s.folder[s.stage.name := Entry(true, true, Some(part))])
    case FinishNote(ok, listed) =>
      if ok then
        var folder := s.folder[s.stage.name := Entry(true, true, Some(NoteText(s.stage.text, stateDir)))];
        State(folder, Removing(s.stage.name, listed), forall name :: name in folder ==> name in listed)
      else s.(stage := Broken)
    case Skip => s.(stage := Removing(s.stage.name, s.stage.left[1..]))
    case StartDelete => s.(stage := Deleting(s.stage.name, s.stage.left[0], s.stage.left[1..]))
    case DeleteSome(rest) => s.(folder := s.folder[s.stage.victim := rest])
    case EndDelete(ok) =>
      if ok then State(s.folder - {s.stage.victim}, Removing(s.stage.name, s.stage.left), s.thorough)
      else s.(stage := Removing(s.stage.name, s.stage.left), thorough := false)
    case EndRemoval => s.(stage := Made(s.stage.name))
  }

  // ---------------------------------------------------------------- runs

  ghost predicate Follows(events: seq<Event>, states: seq<State>, stateDir: string, k: nat)
    requires k < |events| < |states|
  {
    Enabled(states[k], events[k], stateDir) && states[k + 1] == Next(states[k], events[k], stateDir)
  }

  /** Any run, complete or ended at any step, as by a crash. */
  ghost predicate IsRun(events: seq<Event>, states: seq<State>, stateDir: string) {
    && |states| == |events| + 1 && states[0].stage.Opening?
    && forall k :: 0 <= k < |events| ==> Follows(events, states, stateDir, k)
  }

  /** A complete backup of this state directory with its whole note. */
  ghost predicate IsBackup(entry: Entry, stateDir: string) {
    entry.private && entry.complete && exists text :: entry.note == Some(NoteText(text, stateDir))
  }

  predicate Removes(stage: Stage) {
    stage.Removing? || stage.Deleting? || stage.Made?
  }

  /** Until the new backup is noted the entries of before are as they were; from then on it is whole and
      only entries that were backups of this state directory may differ. */
  ghost predicate Inv(before: Folder, s: State, stateDir: string) {
    && (s.stage.Opening? || s.stage.Naming? ==> s.folder == before)
    && (s.stage.Backing? || s.stage.Noting? ==> s.stage.name !in before)
    && (!Removes(s.stage) ==> forall name :: name in before ==> name in s.folder && s.folder[name] == before[name])
    && (Removes(s.stage) ==>
          && s.stage.name !in before && s.stage.name in s.folder && IsBackup(s.folder[s.stage.name], stateDir)
          && forall name :: name in before ==>
               BackupOf(before[name], stateDir) || (name in s.folder && s.folder[name] == before[name]))
    && (s.stage.Deleting? ==>
        s.stage.victim != s.stage.name && (s.stage.victim in before ==> BackupOf(before[s.stage.victim], stateDir)))
  }

  lemma MakingKeeps(before: Folder, s: State, e: Event, stateDir: string)
    requires Inv(before, s, stateDir) && Enabled(s, e, stateDir) && !Removes(s.stage)
    ensures Inv(before, Next(s, e, stateDir), stateDir)
  {
    if e.ChooseName? {
      FreeIsFree(s.folder, e.base, 1);
    }
    if e.FinishNote? && e.ok {
      assert IsBackup(Next(s, e, stateDir).folder[s.stage.name], stateDir);
    }
    hide FreeFrom, BackupOf, NoteText, IsBackup;
  }

  lemma RemovingKeeps(before: Folder, s: State, e: Event, stateDir: string)
    requires Inv(before, s, stateDir) && Enabled(s, e, stateDir) && Removes(s.stage)
    ensures Inv(before, Next(s, e, stateDir), stateDir)
  {
    hide FreeFrom, BackupOf, NoteText, IsBackup;
  }

  lemma StepKeeps(before: Folder, s: State, e: Event, stateDir: string)
    requires Inv(before, s, stateDir) && Enabled(s, e, stateDir)
    ensures Inv(before, Next(s, e, stateDir), stateDir)
  {
    hide Inv, Enabled, Next;
    if Removes(s.stage) {
      RemovingKeeps(before, s, e, stateDir);
    } else {
      MakingKeeps(before, s, e, stateDir);
    }
  }

  lemma {:induction false} RunKeeps(events: seq<Event>, states: seq<State>, stateDir: string, k: nat)
    requires IsRun(events, states, stateDir) && k <= |events|
    ensures Inv(states[0].folder, states[k], stateDir)
  {
    if k > 0 {
      RunKeeps(events, states, stateDir, k - 1);
      assert Follows(events, states, stateDir, k - 1);
      hide Inv, Next, Enabled, IsRun;
      StepKeeps(states[0].folder, states[k - 1], events[k - 1], stateDir);
    }
  }

  ghost predicate HasBackup(folder: Folder, stateDir: string) {
    exists name :: name in folder && IsBackup(folder[name], stateDir)
  }

  /** At every step of every run, if a complete noted backup of this state directory was there, one is. */
  lemma BackupIsNeverLost(events: seq<Event>, states: seq<State>, stateDir: string, k: nat)
    requires IsRun(events, states, stateDir) && k <= |events| && HasBackup(states[0].folder, stateDir)
    ensures HasBackup(states[k].folder, stateDir)
  {
    RunKeeps(events, states, stateDir, k);
    hide IsRun, IsBackup;
    var name :| name in states[0].folder && IsBackup(states[0].folder[name], stateDir);
    if Removes(states[k].stage) {
      assert IsBackup(states[k].folder[states[k].stage.name], stateDir);
    } else {
      assert IsBackup(states[k].folder[name], stateDir);
    }
  }

  /** An entry of before changes or goes only once the new backup is whole, with its whole note, and only
      if its own note names this state directory. */
  lemma OldGoesAfterNew(events: seq<Event>, states: seq<State>, stateDir: string, k: nat, name: string)
    requires IsRun(events, states, stateDir) && k <= |events| && name in states[0].folder
    requires name !in states[k].folder || states[k].folder[name] != states[0].folder[name]
    ensures BackupOf(states[0].folder[name], stateDir)
    ensures Removes(states[k].stage) && states[k].stage.name != name
    ensures states[k].stage.name in states[k].folder && IsBackup(states[k].folder[states[k].stage.name], stateDir)
  {
    RunKeeps(events, states, stateDir, k);
  }

  /** An entry of before whose note does not name this state directory always stays as it is. */
  lemma UnnamedEntriesStay(events: seq<Event>, states: seq<State>, stateDir: string, k: nat, name: string)
    requires IsRun(events, states, stateDir) && k <= |events|
    requires name in states[0].folder
    requires var entry := states[0].folder[name];
      !entry.private || entry.note.None? || !NoteNames(entry.note.value, stateDir)
    ensures name in states[k].folder && states[k].folder[name] == states[0].folder[name]
  {
    RunKeeps(events, states, stateDir, k);
  }

  /** A run that removes an entry whose note names this state directory. */
  lemma NamedEntryCanGo(folder: Folder, stateDir: string, name: string, base: string)
    returns (events: seq<Event>, states: seq<State>)
    requires name in folder && BackupOf(folder[name], stateDir) && FreeFrom(folder, base, 1).Some?
    ensures IsRun(events, states, stateDir) && |events| == 6 && states[0].folder == folder && name !in states[6].folder
  {
    FreeIsFree(folder, base, 1);
    var made := FreeFrom(folder, base, 1).value;
    hide FreeFrom, BackupOf, NoteText;
    var s0 := State(folder, Opening, false);
    var s1 := Next(s0, OpenCopy(true, true), stateDir);
    var s2 := Next(s1, ChooseName(base), stateDir);
    var s3 := Next(s2, FinishBackup(true, ""), stateDir);
    var s4 := Next(s3, FinishNote(true, [name]), stateDir);
    assert name != made && s4.stage == Removing(made, [name]) && s4.folder[name] == folder[name];
    var s5 := Next(s4, StartDelete, stateDir);
    var s6 := Next(s5, EndDelete(true), stateDir);
    events := [OpenCopy(true, true), ChooseName(base), FinishBackup(true, ""), FinishNote(true, [name]), StartDelete,
               EndDelete(true)];
    states := [s0, s1, s2, s3, s4, s5, s6];
    hide Enabled, Next;
    assert forall k :: 0 <= k < |events| ==> Follows(events, states, stateDir, k);
  }

  ghost predicate CanGo(folder: Folder, stateDir: string, name: string) {
    exists events: seq<Event>, states: seq<State>, k: nat ::
      IsRun(events, states, stateDir) && k <= |events| && states[0].folder == folder && name !in states[k].folder
  }

  /** An entry can be removed by an upgrade of stateDir exactly when it is a private folder of this account
      whose note names stateDir. */
  lemma EntryCanGo(folder: Folder, stateDir: string, name: string, base: string)
    requires name in folder && FreeFrom(folder, base, 1).Some?
    ensures CanGo(folder, stateDir, name) <==>
      folder[name].private && folder[name].note.Some? && NoteNames(folder[name].note.value, stateDir)
  {
    assert BackupOf(folder[name], stateDir) <==>
      folder[name].private && folder[name].note.Some? && NoteNames(folder[name].note.value, stateDir);
    hide BackupOf, FreeFrom, NoteNames;
    if BackupOf(folder[name], stateDir) {
      var events, states := NamedEntryCanGo(folder, stateDir, name, base);
    } else if CanGo(folder, stateDir, name) {
      var events: seq<Event>, states: seq<State>, k: nat :|
        IsRun(events, states, stateDir) && k <= |events| && states[0].folder == folder && name !in states[k].folder;
      UnnamedEntriesStay(events, states, stateDir, k, name);
    }
  }

  /** A part of the note of another backup, as its own upgrade left it when it stopped: that backup can be
      removed by an upgrade of stateDir exactly when the part names stateDir. Whole notes of other
      directories without line breaks never do. */
  lemma OtherDirectoriesStay(folder: Folder, stateDir: string, other: string, text: string, part: string,
      name: string, base: string)
    requires NamesNothing(text) && part <= NoteText(text, other) && FreeFrom(folder, base, 1).Some?
    requires name in folder && folder[name].private && folder[name].note == Some(part)
    ensures CanGo(folder, stateDir, name) <==> PartNamesOther(text, part, stateDir)
    ensures part == NoteText(text, other) && OneLine(other) && other != stateDir ==> !CanGo(folder, stateDir, name)
  {
    PartNames(text, other, part, stateDir);
    if OneLine(other) {
      NoteNamesItsDirectory(text, other, stateDir);
    }
    EntryCanGo(folder, stateDir, name, base);
    assert BackupOf(folder[name], stateDir) <==> NoteNames(part, stateDir);
    hide NoteNames, NoteText, PartNamesOther, BackupOf, FreeFrom;
  }

  lemma OneEntryLeavesAName(folder: Folder, only: string, base: string)
    requires folder.Keys == {only}
    ensures FreeFrom(folder, base, 1).Some?
  {
    assert |Numbered(base, 2)| > |Numbered(base, 1)|;
    assert FreeFrom(folder, base, 2).Some? || Numbered(base, 2) == only;
  }

  /** One such case: an upgrade of a longer name stops inside the last line of its note, and an upgrade of
      the shorter one then removes that complete backup. */
  lemma CutNoteLosesAnother(stateDir: string, more: string, text: string, base: string, later: string)
    returns (events: seq<Event>, states: seq<State>, name: string)
    requires OneLine(stateDir) && |text| + 1 + |PREFIX| + |stateDir| <= WINDOW
    ensures IsRun(events, states, stateDir + more) && |events| == 4 && states[0].folder == map[]
    ensures name in states[4].folder && states[4].folder[name].complete && CanGo(states[4].folder, stateDir, name)
  {
    var longer, part := stateDir + more, text + "\n" + PREFIX + stateDir;
    CutNoteNamesAnother(text, stateDir, more);
    assert FreeFrom(map[], base, 1) == Some(base);
    OneEntryLeavesAName(map[base := Entry(true, true, Some(part))], base, later);
    hide NoteNames, NoteText, FreeFrom;
    var s0 := State(map[], Opening, false);
    var s1 := Next(s0, OpenCopy(true, true), longer);
    var s2 := Next(s1, ChooseName(base), longer);
    name := s2.stage.name;
    var s3 := Next(s2, FinishBackup(true, text), longer);
    var s4 := Next(s3, WriteNotePart(part), longer);
    events := [OpenCopy(true, true), ChooseName(base), FinishBackup(true, text), WriteNotePart(part)];
    states := [s0, s1, s2, s3, s4];
    assert forall k :: 0 <= k < |events| ==> Follows(events, states, longer, k);
    assert s4.folder == map[name := Entry(true, true, Some(part))];
    assert BackupOf(s4.folder[name], stateDir);
    var removal, after := NamedEntryCanGo(s4.folder, stateDir, name, later);
  }

  // ---------------------------------------------------------------- removal

  /** Every other entry that is named a backup of this state directory is still to be looked at. */
  ghost predicate LeftFits(s: State, stateDir: string) {
    s.thorough ==>
      match s.stage
      case Removing(made, left) =>
        forall name :: name in s.folder && name != made && BackupOf(s.folder[name], stateDir) ==> name in left
      case Deleting(made, victim, left) =>
        forall name :: name in s.folder && name != made && name != victim && BackupOf(s.folder[name], stateDir) ==>
          name in left
      case Made(made) => forall name :: name in s.folder && name != made ==> !BackupOf(s.folder[name], stateDir)
      case _ => true
  }

  lemma LeftStepKeeps(s: State, e: Event, stateDir: string)
    requires LeftFits(s, stateDir) && Enabled(s, e, stateDir)
    ensures LeftFits(Next(s, e, stateDir), stateDir)
  {
    hide FreeFrom, BackupOf, NoteText;
  }

  lemma LeftStepKeepsAt(events: seq<Event>, states: seq<State>, stateDir: string, k: nat)
    requires k < |events| < |states| && Follows(events, states, stateDir, k)
    ensures LeftFits(states[k], stateDir) ==> LeftFits(states[k + 1], stateDir)
  {
    hide LeftFits, Next, Enabled;
    if LeftFits(states[k], stateDir) {
      LeftStepKeeps(states[k], events[k], stateDir);
    }
  }

  /** When the upgrade made its backup, the listing held every name and no removal failed, the new
      backup is the only entry that is named a backup of this state directory. */
  lemma {:induction false} OldOnesAreRemoved(events: seq<Event>, states: seq<State>, stateDir: string, k: nat)
    requires IsRun(events, states, stateDir) && k <= |events|
    ensures LeftFits(states[k], stateDir)
  {
    if k > 0 {
      OldOnesAreRemoved(events, states, stateDir, k - 1);
      assert Follows(events, states, stateDir, k - 1);
      LeftStepKeepsAt(events, states, stateDir, k - 1);
      hide *;
    } else {
      assert LeftFits(states[0], stateDir);
    }
  }

  // ---------------------------------------------------------------- the end

  predicate IsEnd(stage: Stage) {
    stage.Made? || stage.NotMade? || stage.Broken?
  }

  /** No step fails. */
  predicate Succeeds(e: Event) {
    match e
    case OpenCopy(ok, _) => ok
    case FinishBackup(ok, _) => ok
    case FinishNote(ok, _) => ok
    case EndDelete(ok) => ok
    case _ => true
  }

  /** Steps that are left at most, once each listed name needs two. */
  function StepsLeft(s: State): nat {
    match s.stage
    case Removing(_, left) => 2 * |left| + 1
    case Deleting(_, _, left) => 2 * |left| + 2
    case _ => 0
  }

  /** As long as an upgrade has not come to its end it can go on without a failure, and the removal ends. */
  lemma SomeStep(s: State, stateDir: string) returns (e: Event)
    requires !IsEnd(s.stage)
    ensures Enabled(s, e, stateDir) && Succeeds(e)
    ensures Removes(s.stage) ==> StepsLeft(Next(s, e, stateDir)) < StepsLeft(s)
  {
    hide FreeFrom, BackupOf, NoteText;
    match s.stage
    case Opening => return OpenCopy(true, true);
    case Naming => return ChooseName("");
    case Backing(_) => return FinishBackup(true, "");
    case Noting(_, _) => return FinishNote(true, []);
    case Removing(_, left) =>
      return if left == [] then EndRemoval else if Older(s, stateDir) then StartDelete else Skip;
    case Deleting(_, _, _) => return EndDelete(true);
  }

  /** What an upgrade without failures, and with a free name, comes to: it makes no backup only of a state
      that is not set up, and then changes nothing; and one that it makes is whole, with its note. */
  ghost predicate EndsWell(before: Folder, s: State, stateDir: string) {
    && !s.stage.Broken?
    && (s.stage.NotMade? ==> s.folder == before)
    && (s.stage.Made? ==>
          s.stage.name !in before && s.stage.name in s.folder && IsBackup(s.folder[s.stage.name], stateDir))
  }

  ghost predicate GoodRun(events: seq<Event>, states: seq<State>, k: nat)
    requires k <= |events| < |states|
  {
    forall i :: 0 <= i < k ==>
      Succeeds(events[i]) && (events[i].ChooseName? ==> FreeFrom(states[i].folder, events[i].base, 1).Some?)
  }

  lemma {:induction false} GoodRunEndsWell(events: seq<Event>, states: seq<State>, stateDir: string, k: nat)
    requires IsRun(events, states, stateDir) && k <= |events| && GoodRun(events, states, k)
    ensures EndsWell(states[0].folder, states[k], stateDir)
    ensures states[k].stage.NotMade? <==> exists i :: 0 <= i < k && events[i] == OpenCopy(true, false)
  {
    RunKeeps(events, states, stateDir, k);
    if k > 0 {
      GoodRunEndsWell(events, states, stateDir, k - 1);
      RunKeeps(events, states, stateDir, k - 1);
      assert Follows(events, states, stateDir, k - 1);
      hide FreeFrom, BackupOf, NoteText, IsBackup;
    }
  }

  /** Until the new backup has its note any failure is the end of the upgrade, and no older entry changes. */
  lemma FailureEndsIt(events: seq<Event>, states: seq<State>, stateDir: string, j: nat, k: nat)
    requires IsRun(events, states, stateDir) && j < k <= |events|
    requires !Succeeds(events[j]) && !events[j].EndDelete?
    ensures states[k].stage.Broken? && k == j + 1 == |events|
    ensures forall name :: name in states[0].folder ==>
      name in states[k].folder && states[k].folder[name] == states[0].folder[name]
  {
    RunKeeps(events, states, stateDir, k);
    assert Follows(events, states, stateDir, j);
    assert j + 1 < |events| ==> Follows(events, states, stateDir, j + 1);
    hide FreeFrom, BackupOf, NoteText, IsBackup;
  }
}
