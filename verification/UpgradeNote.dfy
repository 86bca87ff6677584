/** The note in an upgrade backup and the windowed reading of its last line (writeUpgradeNote, upgradeBackupOf). */
module UpgradeNote {
  import opened Basics

  const PREFIX := "State directory: "

  /** footerWindow. */
  const WINDOW: nat := 0x1_0000

  predicate OneLine(s: string) {
    forall i :: 0 <= i < |s| ==> s[i] != '\n'
  }

  /** A whole note: some text that ends a line, and the line that names the state directory. */
  function NoteText(text: string, stateDir: string): string {
    text + "\n" + PREFIX + stateDir + "\n"
  }

  function WithoutBreaks(s: string): (r: string)
    ensures |r| <= |s| && r == s[..|r|]
    ensures r != "" ==> r[|r| - 1] != '\n'
    ensures forall i :: |r| <= i < |s| ==> s[i] == '\n'
  {
    if s != "" && s[|s| - 1] == '\n' then WithoutBreaks(s[..|s| - 1]) else s
  }

  /** The index of the last line break, or -1. */
  function LastBreak(s: string): (i: int)
    ensures -1 <= i < |s|
    ensures i >= 0 ==> s[i] == '\n'
    ensures forall j :: i < j < |s| ==> s[j] != '\n'
  {
    if s == "" then -1
    else if s[|s| - 1] == '\n' then |s| - 1
    else LastBreak(s[..|s| - 1])
  }

  /** Where the window starts. */
  function Offset(note: string): (offset: nat)
    ensures offset <= |note| && (offset == 0 <==> |note| <= WINDOW) && (offset > 0 ==> offset + WINDOW == |note|)
  {
    if |note| > WINDOW then |note| - WINDOW else 0
  }

  /** The last line of what the window holds. */
  function LastLine(window: string): string {
    WithoutBreaks(window)[LastBreak(WithoutBreaks(window)) + 1..]
  }

  /** The last line that the window shows, unless its start is outside. */
  function ShownLine(note: string): Option<string> {
    var window := note[Offset(note)..];
    if LastBreak(WithoutBreaks(window)) < 0 && Offset(note) != 0 then None else Some(LastLine(window))
  }

  /** The end of upgradeBackupOf: whether the note's last line names stateDir. */
  predicate NoteNames(note: string, stateDir: string) {
    ShownLine(note) == Some(PREFIX + stateDir)
  }

  lemma LastBreakIs(s: string, i: int)
    requires -1 <= i < |s| && (i >= 0 ==> s[i] == '\n') && forall j :: i < j < |s| ==> s[j] != '\n'
    ensures LastBreak(s) == i
  {
  }

  lemma WithoutBreaksIs(s: string, n: nat)
    requires n <= |s| && (n > 0 ==> s[n - 1] != '\n') && forall i :: n <= i < |s| ==> s[i] == '\n'
    ensures WithoutBreaks(s) == s[..n]
  {
    assert |WithoutBreaks(s)| == n;
  }

  // ---------------------------------------------------------------- the window

  /** Where the last line of a note starts, after its last break or at its start. */
  function LineStart(note: string): (start: nat)
    ensures start <= |WithoutBreaks(note)| && (start > 0 ==> note[start - 1] == '\n')
  {
    LastBreak(WithoutBreaks(note)) + 1
  }

  lemma TailWithoutBreaks(note: string, offset: nat)
    requires offset <= |note|
    ensures WithoutBreaks(note[offset..]) ==
      if offset <= |WithoutBreaks(note)| then WithoutBreaks(note)[offset..] else ""
  {
    hide WithoutBreaks;
    var n := |WithoutBreaks(note)|;
    WithoutBreaksIs(note[offset..], if offset <= n then n - offset else 0);
  }

  lemma LastBreakOfTail(text: string, offset: nat, rest: string)
    requires |rest| + offset == |text| && forall i :: 0 <= i < |rest| ==> rest[i] == text[offset + i]
    ensures LastBreak(rest) == if LastBreak(text) >= offset then LastBreak(text) - offset else -1
  {
    hide LastBreak;
    LastBreakIs(rest, if LastBreak(text) >= offset then LastBreak(text) - offset else -1);
  }

  lemma TailLastBreak(text: string, offset: nat)
    requires offset <= |text|
    ensures LastBreak(text[offset..]) == if LastBreak(text) >= offset then LastBreak(text) - offset else -1
  {
    var rest := text[offset..];
    assert forall i :: 0 <= i < |rest| ==> rest[i] == text[offset + i];
    hide LastBreak;
    LastBreakOfTail(text, offset, rest);
  }

  lemma SlicedTwice(s: string, a: nat, b: nat)
    requires a <= b <= |s|
    ensures s[a..][b - a..] == s[b..]
  {
  }

  lemma SlicedUpTo(s: string, a: nat, b: nat)
    requires a <= b <= |s|
    ensures s[..b][a..] == s[a..b]
  {
  }

  lemma BreakInWindow(note: string, offset: nat)
    requires offset < LineStart(note)
    ensures var text := WithoutBreaks(note[offset..]);
      LastBreak(text) >= 0 && LastLine(note[offset..]) == LastLine(note)
  {
    hide WithoutBreaks, LastBreak;
    var text, window := WithoutBreaks(note), note[offset..];
    var from, rest := LineStart(note), text[offset..];
    TailWithoutBreaks(note, offset);
    TailLastBreak(text, offset);
    assert LastBreak(rest) + 1 == from - offset;
    assert LastLine(window) == rest[LastBreak(rest) + 1..];
    assert LastLine(note) == text[from..];
    hide *;
    SlicedTwice(text, offset, from);
  }

  lemma BreakOutside(note: string, offset: nat)
    requires LineStart(note) <= offset <= |note|
    ensures LastBreak(WithoutBreaks(note[offset..])) < 0
  {
    var text := WithoutBreaks(note);
    TailWithoutBreaks(note, offset);
    if offset <= |text| {
      TailLastBreak(text, offset);
    } else {
      assert LastBreak("") == -1;
    }
    hide WithoutBreaks, LastBreak;
  }

  /** The window shows the last line exactly when the break before it is inside, or all of the note is. */
  lemma WindowShowsLastLine(note: string)
    ensures ShownLine(note) ==
      if |note| <= 0x1_0000 || |note| - LineStart(note) < 0x1_0000 then Some(LastLine(note)) else None
  {
    var offset := Offset(note);
    if offset == 0 {
      assert note[0..] == note;
    } else if offset < LineStart(note) {
      BreakInWindow(note, offset);
    } else {
      BreakOutside(note, offset);
    }
    hide WithoutBreaks, LastBreak, LastLine, LineStart;
  }

  // ---------------------------------------------------------------- which directory is named

  /** The line that names a directory, with the break before it. */
  function NamingLine(stateDir: string): (line: string)
    ensures |line| == 1 + |PREFIX| + |stateDir| && line[0] == '\n' && line[1..] == PREFIX + stateDir
  {
    "\n" + PREFIX + stateDir
  }

  /** A last line that goes on with rest names other: rest is other and line breaks, or its own last
      line is one that names other. */
  predicate ReadsAs(rest: string, other: string) {
    var text := WithoutBreaks(rest);
    OneLine(other) && (text == other || EndsWith(text, NamingLine(other)))
  }

  /** The line that names other, with the break before it and all breaks after it, is inside the window,
      or the whole note is. */
  predicate InWindow(note: string, rest: string, other: string) {
    |note| <= WINDOW || 1 + |PREFIX| + |other| + (|rest| - |WithoutBreaks(rest)|) <= WINDOW
  }

  /** A note that has a break at position at, no other up to start, and rest from there on. */
  ghost predicate HasLine(note: string, at: nat, start: nat, rest: string) {
    && at < start && |note| == start + |rest| && note[at] == '\n'
    && (forall i :: at < i < start ==> note[i] != '\n')
    && (forall i :: 0 <= i < |rest| ==> note[start + i] == rest[i])
  }

  /** The end of the text of such a note and the start of its last line. */
  lemma LineAfterPrefix(note: string, at: nat, start: nat, rest: string)
    requires HasLine(note, at, start, rest) && at + 1 < start
    ensures var end, last := WithoutBreaks(rest), LastBreak(WithoutBreaks(rest));
      && |WithoutBreaks(note)| == start + |end|
      && LineStart(note) == if last < 0 then at + 1 else start + last + 1
  {
    var end := WithoutBreaks(rest);
    var n, last := start + |end|, LastBreak(end);
    assert forall i :: n <= i < |note| ==> note[i] == rest[i - start];
    assert note[n - 1] == if end == "" then note[start - 1] else rest[|end| - 1];
    hide WithoutBreaks, LastBreak;
    WithoutBreaksIs(note, n);
    var trimmed := note[..n];
    assert forall i :: start <= i < n ==> trimmed[i] == end[i - start];
    LastBreakIs(trimmed, if last < 0 then at else start + last);
  }

  lemma SliceOfTail(note: string, start: nat, rest: string, a: nat, b: nat)
    requires start <= |note| && note[start..] == rest && a <= b <= |rest|
    ensures note[start + a..start + b] == rest[a..b]
  {
    assert note[start..][a..b] == note[start + a..start + b];
  }

  lemma SliceOfTwo(note: string, at: nat, start: nat, end: nat)
    requires at <= start <= end <= |note|
    ensures note[at..end] == note[at..start] + note[start..end]
  {
  }

  lemma LastLineIsSlice(note: string)
    ensures LastLine(note) == note[LineStart(note)..|WithoutBreaks(note)|]
  {
    var text, from := WithoutBreaks(note), LineStart(note);
    assert LastLine(note) == text[from..];
    hide *;
    assert text == note[..|text|];
    SlicedUpTo(note, from, |text|);
  }

  lemma TextOfOneLine(note: string, at: nat, start: nat, rest: string, n: nat)
    requires at + 1 <= start <= |note| && note[at + 1..start] == PREFIX && note[start..] == rest && n <= |rest|
    ensures note[at + 1..start + n] == PREFIX + rest[..n]
  {
    SliceOfTail(note, start, rest, 0, n);
    SliceOfTwo(note, at + 1, start, start + n);
    hide *;
  }

  lemma TextOfLastLine(note: string, start: nat, rest: string, a: nat, n: nat)
    requires start <= |note| && note[start..] == rest && a <= n <= |rest|
    ensures note[start + a..start + n] == rest[..n][a..]
  {
    SliceOfTail(note, start, rest, a, n);
    SlicedUpTo(rest, a, n);
    hide *;
  }

  /** That last line itself. */
  lemma LineTextAfterPrefix(note: string, at: nat, start: nat, rest: string)
    requires HasLine(note, at, start, rest) && at + 1 < start && note[at + 1..start] == PREFIX && note[start..] == rest
    ensures var end, last := WithoutBreaks(rest), LastBreak(WithoutBreaks(rest));
      LastLine(note) == if last < 0 then PREFIX + end else end[last + 1..]
  {
    LineAfterPrefix(note, at, start, rest);
    LastLineIsSlice(note);
    var end, last := WithoutBreaks(rest), LastBreak(WithoutBreaks(rest));
    hide *;
    if last < 0 {
      TextOfOneLine(note, at, start, rest, |end|);
    } else {
      TextOfLastLine(note, start, rest, last + 1, |end|);
    }
  }

  lemma NoteParts(note: string, text: string, rest: string)
    requires note == text + "\n" + PREFIX + rest
    ensures var start := |text| + 1 + |PREFIX|;
      HasLine(note, |text|, start, rest) && note[|text| + 1..start] == PREFIX && note[start..] == rest
  {
    assert OneLine(PREFIX);
    var start := |text| + 1 + |PREFIX|;
    assert forall i :: |text| < i < start ==> note[i] == PREFIX[i - |text| - 1];
  }

  lemma EndsWithNamingLine(end: string, other: string)
    requires OneLine(other) && EndsWith(end, NamingLine(other))
    ensures LastBreak(end) == |end| - 1 - |PREFIX| - |other| && end[LastBreak(end) + 1..] == PREFIX + other
  {
    var line, at := NamingLine(other), |end| - |NamingLine(other)|;
    assert end[at..] == line;
    assert OneLine(line[1..]) by {
      assert OneLine(PREFIX);
    }
    hide NamingLine, EndsWith, LastBreak;
    LastBreakBeforeLine(end, at, line);
    SlicedTwice(end, at, at + 1);
  }

  lemma LastBreakBeforeLine(end: string, at: nat, line: string)
    requires at <= |end| && end[at..] == line && line != "" && line[0] == '\n' && OneLine(line[1..])
    ensures LastBreak(end) == at
  {
    hide LastBreak;
    assert forall i :: 0 < i < |line| ==> line[i] == line[1..][i - 1];
    assert forall i :: at <= i < |end| ==> end[i] == end[at..][i - at];
    LastBreakIs(end, at);
  }

  lemma NamingLineBreaks(s: string, other: string)
    requires EndsWith(s, NamingLine(other))
    ensures !OneLine(s)
  {
    var at := |s| - |NamingLine(other)|;
    assert s[at] == s[at..][0];
  }

  lemma OneLineReadsAs(rest: string, other: string)
    requires LastBreak(WithoutBreaks(rest)) < 0
    ensures PREFIX + WithoutBreaks(rest) == PREFIX + other <==> ReadsAs(rest, other)
  {
    var end := WithoutBreaks(rest);
    assert (PREFIX + end)[|PREFIX|..] == end && (PREFIX + other)[|PREFIX|..] == other;
    assert OneLine(end);
    if EndsWith(end, NamingLine(other)) {
      NamingLineBreaks(end, other);
    }
  }

  lemma LastLineReadsAs(rest: string, other: string)
    requires LastBreak(WithoutBreaks(rest)) >= 0
    ensures var end, last := WithoutBreaks(rest), LastBreak(WithoutBreaks(rest));
      && (end[last + 1..] == PREFIX + other <==> ReadsAs(rest, other))
      && (ReadsAs(rest, other) ==> |end| == last + 1 + |PREFIX| + |other|)
  {
    var end := WithoutBreaks(rest);
    assert !OneLine(end);
    hide WithoutBreaks;
    if OneLine(other) && EndsWith(end, NamingLine(other)) {
      EndsWithNamingLine(end, other);
    }
    if end[LastBreak(end) + 1..] == PREFIX + other {
      NamedAtLast(end, other);
    }
    hide LastBreak, EndsWith, NamingLine;
  }

  /** A line is the one that names other exactly when it reads as other. */
  lemma LineReadsAs(rest: string, other: string)
    ensures var end, last := WithoutBreaks(rest), LastBreak(WithoutBreaks(rest));
      && ((if last < 0 then PREFIX + end else end[last + 1..]) == PREFIX + other <==> ReadsAs(rest, other))
      && (ReadsAs(rest, other) && last >= 0 ==> |end| == last + 1 + |PREFIX| + |other|)
  {
    hide *;
    if LastBreak(WithoutBreaks(rest)) < 0 {
      OneLineReadsAs(rest, other);
    } else {
      LastLineReadsAs(rest, other);
    }
  }

  lemma NamedAtLast(end: string, other: string)
    requires LastBreak(end) >= 0 && end[LastBreak(end) + 1..] == PREFIX + other
    ensures OneLine(other) && EndsWith(end, NamingLine(other))
  {
    var last := LastBreak(end);
    hide LastBreak;
    var line := NamingLine(other);
    assert forall i :: 0 <= i < |other| ==> other[i] == end[last + 1..][|PREFIX| + i];
    assert end[last..] == [end[last]] + end[last + 1..];
    assert line == [line[0]] + line[1..];
  }

  lemma NoteEnd(note: string, text: string, rest: string)
    requires note == text + "\n" + PREFIX + rest
    ensures |note| - |WithoutBreaks(note)| == |rest| - |WithoutBreaks(rest)|
    ensures var end, last := WithoutBreaks(rest), LastBreak(WithoutBreaks(rest));
      LastLine(note) == if last < 0 then PREFIX + end else end[last + 1..]
  {
    NoteParts(note, text, rest);
    var start := |text| + 1 + |PREFIX|;
    assert |note| == start + |rest|;
    hide *;
    LineAfterPrefix(note, |text|, start, rest);
    LineTextAfterPrefix(note, |text|, start, rest);
  }

  /** What any note with the prefix at the start of its last line so far names: other, exactly when the
      rest reads as other and the line with its breaks is inside the window. */
  lemma NoteNamesExactly(note: string, text: string, rest: string, other: string)
    requires note == text + "\n" + PREFIX + rest
    ensures NoteNames(note, other) <==> ReadsAs(rest, other) && InWindow(note, rest, other)
  {
    WindowShowsLastLine(note);
    NoteEnd(note, text, rest);
    LineReadsAs(rest, other);
    hide *;
    NamesWhenShown(note, rest, other);
  }

  lemma NamesWhenShown(note: string, rest: string, other: string)
    requires ShownLine(note) ==
      if |note| <= WINDOW || |note| - LineStart(note) < WINDOW then Some(LastLine(note)) else None
    requires LastLine(note) == PREFIX + other <==> ReadsAs(rest, other)
    requires |note| - |WithoutBreaks(note)| == |rest| - |WithoutBreaks(rest)|
    ensures NoteNames(note, other) <==> ReadsAs(rest, other) && InWindow(note, rest, other)
  {
    assert |LastLine(note)| == |WithoutBreaks(note)| - LineStart(note);
    assert |PREFIX + other| == |PREFIX| + |other|;
    hide ShownLine, LineStart, ReadsAs, WithoutBreaks, LastLine;
  }

  // ---------------------------------------------------------------- whole notes

  lemma BreakAddsNothing(rest: string, other: string)
    ensures WithoutBreaks(rest + "\n") == WithoutBreaks(rest)
    ensures ReadsAs(rest + "\n", other) <==> ReadsAs(rest, other)
  {
    var n := |WithoutBreaks(rest)|;
    var longer := rest + "\n";
    assert longer[..n] == rest[..n];
    assert forall i :: n <= i < |rest| ==> longer[i] == rest[i];
    hide WithoutBreaks, EndsWith;
    WithoutBreaksIs(longer, n);
  }

  /** The whole note of any directory names other exactly when the directory reads as other. */
  lemma WholeNoteNames(text: string, stateDir: string, other: string)
    ensures NoteNames(NoteText(text, stateDir), other) <==>
      ReadsAs(stateDir, other) && InWindow(NoteText(text, stateDir), stateDir + "\n", other)
  {
    assert NoteText(text, stateDir) == text + "\n" + PREFIX + (stateDir + "\n");
    NoteNamesExactly(NoteText(text, stateDir), text, stateDir + "\n", other);
    BreakAddsNothing(stateDir, other);
    hide *;
  }

  lemma OneLineReadsAsItself(line: string, other: string)
    requires OneLine(line)
    ensures WithoutBreaks(line) == line && (ReadsAs(line, other) <==> line == other)
  {
    if EndsWith(line, NamingLine(other)) {
      NamingLineBreaks(line, other);
    }
  }

  /** The last line and both its breaks are inside the window, or the whole note is. */
  predicate Fits(note: string, stateDir: string) {
    |note| <= WINDOW || |PREFIX| + |stateDir| + 2 <= WINDOW
  }

  /** The whole note of a directory without line breaks names that one if its last line fits, and no other. */
  lemma NoteNamesItsDirectory(text: string, stateDir: string, other: string)
    requires OneLine(stateDir)
    ensures NoteNames(NoteText(text, stateDir), other) <==>
      stateDir == other && Fits(NoteText(text, stateDir), stateDir)
  {
    WholeNoteNames(text, stateDir, other);
    OneLineReadsAsItself(stateDir, other);
    BreakAddsNothing(stateDir, other);
    hide NoteNames, NoteText, ReadsAs, WithoutBreaks;
  }

  /** The whole note of any directory is taken as its own exactly when its name has no line break and
      the last line fits the window. */
  lemma OwnNoteIsTaken(text: string, stateDir: string)
    ensures NoteNames(NoteText(text, stateDir), stateDir) <==>
      OneLine(stateDir) && Fits(NoteText(text, stateDir), stateDir)
  {
    if OneLine(stateDir) {
      NoteNamesItsDirectory(text, stateDir, stateDir);
    } else {
      WholeNoteNames(text, stateDir, stateDir);
    }
    hide NoteNames, NoteText, Fits, OneLine;
  }

  /** A directory with a line break at the end of its name: its note names the directory without it. */
  lemma EndBreakNamesAnother(text: string, other: string)
    requires OneLine(other) && |PREFIX| + |other| + 3 <= WINDOW
    ensures NoteNames(NoteText(text, other + "\n"), other)
  {
    OneLineReadsAsItself(other, other);
    BreakAddsNothing(other, other);
    BreakAddsNothing(other + "\n", other);
    WholeNoteNames(text, other + "\n", other);
    hide NoteNames, NoteText, WithoutBreaks, EndsWith, OneLine;
  }

  lemma EndsWithLine(first: string, other: string)
    requires OneLine(other)
    ensures var d := first + NamingLine(other); WithoutBreaks(d) == d && EndsWith(d, NamingLine(other))
  {
    var d, line := first + NamingLine(other), NamingLine(other);
    assert d[|first|..] == line;
    assert OneLine(PREFIX) && OneLine(PREFIX + other) && line[|line| - 1] == line[1..][|line| - 2];
    assert d[|d| - 1] == line[|line| - 1];
  }

  /** A directory with a line like the one that names another: its note names that other directory. */
  lemma LineBreakNamesAnother(text: string, first: string, other: string)
    requires OneLine(other) && |PREFIX| + |other| + 2 <= WINDOW
    ensures NoteNames(NoteText(text, first + NamingLine(other)), other)
  {
    var d := first + NamingLine(other);
    EndsWithLine(first, other);
    BreakAddsNothing(d, other);
    WholeNoteNames(text, d, other);
    hide NoteNames, NoteText, WithoutBreaks, EndsWith, OneLine, NamingLine;
  }

  // ---------------------------------------------------------------- parts of notes

  predicate LineAt(text: string, i: nat) {
    i < |text| && (i == 0 || text[i - 1] == '\n') && StartsWith(text[i..], PREFIX)
  }

  /** No line of the text starts like the one that names a directory. */
  ghost predicate NamesNothing(text: string) {
    forall i: nat :: !LineAt(text, i)
  }

  lemma NamedLastLine(note: string, other: string)
    requires NoteNames(note, other)
    ensures LastLine(note) == PREFIX + other
  {
    WindowShowsLastLine(note);
    hide LastLine, ShownLine;
  }

  /** A note that names a directory has a line that starts with the prefix. */
  lemma NamedHasLine(note: string, other: string)
    requires NoteNames(note, other)
    ensures LineAt(note, LineStart(note)) && LineStart(note) + |PREFIX| <= |note|
  {
    NamedLastLine(note, other);
    var line, from := LastLine(note), LineStart(note);
    assert (PREFIX + other)[..|PREFIX|] == PREFIX;
    hide WithoutBreaks, LastBreak, ShownLine;
    var text := WithoutBreaks(note);
    assert text == note[..|text|] && line == text[from..];
    SlicedUpTo(note, from, |text|);
    hide *;
    SameStart(note, from, line);
  }

  lemma SameStart(note: string, from: nat, line: string)
    requires from + |line| <= |note| && note[from..from + |line|] == line && |line| >= |PREFIX|
      && line[..|PREFIX|] == PREFIX
    requires from == 0 || note[from - 1] == '\n'
    ensures LineAt(note, from)
  {
    assert note[from..][..|PREFIX|] == note[from..from + |line|][..|PREFIX|];
  }

  /** What a part of a note names that ends before the prefix does: nothing. */
  lemma ShortPartNamesNothing(text: string, stateDir: string, part: string, other: string)
    requires NamesNothing(text) && part <= NoteText(text, stateDir) && |part| < |text| + 1 + |PREFIX|
    ensures !NoteNames(part, other)
  {
    if NoteNames(part, other) {
      NamedHasLine(part, other);
      var from := LineStart(part);
      hide LineStart, NoteNames;
      LineIsInText(text, NoteText(text, stateDir), part, from);
    }
  }

  lemma LineIsInText(text: string, note: string, part: string, from: nat)
    requires text + "\n" <= note && part <= note && LineAt(part, from) && |part| < |text| + 1 + |PREFIX|
    ensures LineAt(text, from)
  {
    assert from + |PREFIX| <= |part|;
    assert forall i :: 0 <= i < |PREFIX| ==> part[from..][..|PREFIX|][i] == part[from + i];
    assert OneLine(PREFIX);
    assert note[|text|] == (text + "\n")[|text|] == '\n';
    assert forall j :: from <= j < from + |PREFIX| ==> note[j] == part[j] == PREFIX[j - from];
    assert forall i :: 0 <= i < |text| ==> note[i] == (text + "\n")[i] == text[i];
    assert text[from..][..|PREFIX|] == part[from..][..|PREFIX|];
  }

  /** The part of a note names other: what it holds after the prefix reads as other, inside the window. */
  predicate PartNamesOther(text: string, part: string, other: string) {
    var start := |text| + 1 + |PREFIX|;
    |part| >= start && ReadsAs(part[start..], other) && InWindow(part, part[start..], other)
  }

  lemma PartAfterPrefix(text: string, stateDir: string, part: string)
    requires part <= NoteText(text, stateDir) && |part| >= |text| + 1 + |PREFIX|
    ensures var rest := part[|text| + 1 + |PREFIX|..];
      && part == text + "\n" + PREFIX + rest && rest <= stateDir + "\n"
      && (part == NoteText(text, stateDir) <==> rest == stateDir + "\n")
      && (|rest| <= |stateDir| ==> rest == stateDir[..|rest|])
  {
    var start, note := text + "\n" + PREFIX, NoteText(text, stateDir);
    assert note == start + (stateDir + "\n");
    var rest := part[|start|..];
    assert part == note[..|part|];
    assert part[..|start|] == start;
    assert part == start + rest;
    assert rest == (stateDir + "\n")[..|rest|];
  }

  /** Which directory a part of any note names, as a write that is cut off leaves it. */
  lemma PartNames(text: string, stateDir: string, part: string, other: string)
    requires NamesNothing(text) && part <= NoteText(text, stateDir)
    ensures NoteNames(part, other) <==> PartNamesOther(text, part, other)
  {
    if |part| < |text| + 1 + |PREFIX| {
      ShortPartNamesNothing(text, stateDir, part, other);
    } else {
      PartAfterPrefix(text, stateDir, part);
      NoteNamesExactly(part, text, part[|text| + 1 + |PREFIX|..], other);
    }
    hide NoteNames, NoteText;
  }

  /** For a directory without line breaks: a part ends right after other, which stateDir starts with, or it
      is all of the note and other is stateDir; and the line is inside the window. */
  predicate EndsAfter(text: string, stateDir: string, part: string, other: string) {
    || (other <= stateDir && part == text + "\n" + PREFIX + other
        && (|part| <= WINDOW || 1 + |PREFIX| + |other| <= WINDOW))
    || (part == NoteText(text, stateDir) && other == stateDir && Fits(part, stateDir))
  }

  /** A part of the note of a directory without line breaks names a proper prefix of it exactly when the
      write ended right after that prefix, and itself with or without the last break. */
  lemma OneLinePartNames(text: string, stateDir: string, part: string, other: string)
    requires OneLine(stateDir) && NamesNothing(text) && part <= NoteText(text, stateDir)
    ensures NoteNames(part, other) <==> EndsAfter(text, stateDir, part, other)
  {
    PartNames(text, stateDir, part, other);
    if |part| < |text| + 1 + |PREFIX| {
      assert |text + "\n" + PREFIX + other| > |part| && |NoteText(text, stateDir)| > |part|;
      hide NoteNames, NoteText;
    } else {
      PartAfterPrefix(text, stateDir, part);
      LongPart(text, stateDir, part, part[|text| + 1 + |PREFIX|..], other);
      hide NoteNames, NoteText, ReadsAs, InWindow;
    }
  }

  lemma LongPart(text: string, stateDir: string, part: string, rest: string, other: string)
    requires OneLine(stateDir) && part == text + "\n" + PREFIX + rest
    requires rest == stateDir + "\n" || (|rest| <= |stateDir| && rest == stateDir[..|rest|])
    requires part == NoteText(text, stateDir) <==> rest == stateDir + "\n"
    ensures ReadsAs(rest, other) && InWindow(part, rest, other) <==> EndsAfter(text, stateDir, part, other)
  {
    var start := text + "\n" + PREFIX;
    assert part == start + rest && part[|start|..] == rest;
    assert (start + other)[|start|..] == other;
    assert part == start + other <==> rest == other;
    if rest == stateDir + "\n" {
      OneLineReadsAsItself(stateDir, other);
      BreakAddsNothing(stateDir, other);
      assert other <= stateDir ==> rest != other;
    } else {
      assert OneLine(rest);
      OneLineReadsAsItself(rest, other);
    }
    hide WithoutBreaks, ReadsAs, NoteText;
  }

  /** A whole note of a longer name, cut off in that name, is taken as the note of the shorter one. */
  lemma CutNoteNamesAnother(text: string, stateDir: string, more: string)
    requires OneLine(stateDir) && |text| + 1 + |PREFIX| + |stateDir| <= WINDOW
    ensures var part := text + "\n" + PREFIX + stateDir;
      part <= NoteText(text, stateDir + more) && NoteNames(part, stateDir)
  {
    var part := text + "\n" + PREFIX + stateDir;
    assert NoteText(text, stateDir + more) == part + more + "\n";
    NoteNamesExactly(part, text, stateDir, stateDir);
    OneLineReadsAsItself(stateDir, stateDir);
    hide NoteNames, NoteText;
  }

  // ---------------------------------------------------------------- what is written

  function Lines(lines: seq<string>): string {
    if lines == [] then "" else lines[0] + "\n" + Lines(lines[1..])
  }

  /** The fixed words of the note, in their order. */
  datatype Wording = Wording(made: string, upgraded: string, back: string, aside: string, refused: string,
                             removed: string)

  /** What writeUpgradeNote writes before the last line. */
  function WrittenText(w: Wording, version: string, stateDir: string, upgrade: string, command: string,
                       alias: string): string {
    Lines(Paragraphs(w, version, stateDir, upgrade, command) + if alias == "" then [] else ["", alias])
  }

  function Paragraphs(w: Wording, version: string, stateDir: string, upgrade: string, command: string): seq<string> {
    [w.made + (version + (w.upgraded + (stateDir + (" " + (upgrade + "."))))), "",
     w.back + (stateDir + w.aside), "",
     " " + (" " + command), "",
     w.refused, w.removed]
  }

  /** A line of its own that does not start like the one that names a directory. */
  predicate Other(line: string) {
    OneLine(line) && !StartsWith(line, PREFIX)
  }

  lemma FirstLineNamesNothing(line: string, rest: string, i: nat)
    requires Other(line) && LineAt(line + "\n" + rest, i)
    ensures i > |line| && LineAt(rest, i - |line| - 1)
  {
    var text := line + "\n" + rest;
    assert OneLine(PREFIX);
    assert forall j :: 0 <= j < |line| ==> text[j] == line[j];
    assert text[|line|] == '\n';
    assert forall j :: i <= j < i + |PREFIX| ==> text[j] == text[i..][..|PREFIX|][j - i] == PREFIX[j - i];
    assert |line| >= |PREFIX| ==> line[..|PREFIX|] == text[0..][..|PREFIX|];
    assert i > |line| ==> text[i..] == rest[i - |line| - 1..];
  }

  lemma {:induction false} LinesNameNothing(lines: seq<string>)
    requires forall line :: line in lines ==> Other(line)
    ensures NamesNothing(Lines(lines))
  {
    forall i: nat ensures !LineAt(Lines(lines), i) {
      if LineAt(Lines(lines), i) {
        LinesNameNothing(lines[1..]);
        FirstLineNamesNothing(lines[0], Lines(lines[1..]), i);
      }
    }
  }

  /** A start of a line that the prefix does not start with. */
  predicate Starts(s: string) {
    OneLine(s) && s != "" && s[0] != PREFIX[0]
  }

  lemma TogetherOneLine(s: string, t: string)
    requires OneLine(s) && OneLine(t)
    ensures OneLine(s + t)
  {
  }

  lemma StartedIsOther(s: string, t: string)
    requires Starts(s) && OneLine(t)
    ensures Other(s + t)
  {
    assert |s + t| >= |PREFIX| ==> (s + t)[..|PREFIX|][0] == s[0];
  }

  /** What is written for parts without line breaks has no line that starts like the one that names a
      directory, unless a fixed line or the alias notice does. */
  lemma WrittenNamesNothing(w: Wording, version: string, stateDir: string, upgrade: string, command: string,
                            alias: string)
    requires Starts(w.made) && Starts(w.back) && Starts(w.refused) && Starts(w.removed) && OneLine(w.upgraded)
      && OneLine(w.aside)
    requires OneLine(version) && OneLine(stateDir) && OneLine(upgrade) && OneLine(command) && Other(alias)
    ensures NamesNothing(WrittenText(w, version, stateDir, upgrade, command, alias))
  {
    assert OneLine(".") && OneLine(" ") && OneLine("") && Starts(" ") && Other("");
    hide OneLine, Starts, Other;
    var lines := Paragraphs(w, version, stateDir, upgrade, command);
    assert Other(lines[0]) by {
      TogetherOneLine(upgrade, ".");
      TogetherOneLine(" ", upgrade + ".");
      TogetherOneLine(stateDir, " " + (upgrade + "."));
      TogetherOneLine(w.upgraded, stateDir + (" " + (upgrade + ".")));
      TogetherOneLine(version, w.upgraded + (stateDir + (" " + (upgrade + "."))));
      StartedIsOther(w.made, version + (w.upgraded + (stateDir + (" " + (upgrade + ".")))));
    }
    assert Other(lines[2]) by {
      TogetherOneLine(stateDir, w.aside);
      StartedIsOther(w.back, stateDir + w.aside);
    }
    assert Other(lines[4]) by {
      TogetherOneLine(" ", command);
      StartedIsOther(" ", " " + command);
    }
    assert Other(w.refused) && Other(w.removed) by {
      StartedIsOther(w.refused, "");
      StartedIsOther(w.removed, "");
      assert w.refused + "" == w.refused && w.removed + "" == w.removed;
    }
    LinesNameNothing(lines + if alias == "" then [] else ["", alias]);
  }
}
