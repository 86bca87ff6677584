/** Cutting a tool result to the result limit: walkJSON, shortenLargest and fitResult. */
module FitResult {
  import opened Basics
  import opened Json

  const MIN_CUT_STRING: nat := 1024
  const MAX_ATTEMPTS: nat := 256
  const NOTE_KEY := "result_truncated"

  // ---------------------------------------------------------------- slots

  /** One value below the root, its position, and its path as the note shows it. */
  datatype Slot = Slot(at: seq<nat>, path: string, value: Value)

  function Label(v: Value, i: nat): string {
    if v.Obj? && i < |v.names| then v.names[i] else ""
  }

  /** The path of the value at child index i of the value v at path. */
  function ChildPath(v: Value, path: string, i: nat): string {
    if v.Arr? then path + "[" + Decimal(i) + "]"
    else if path == "" then Label(v, i) else path + "." + Label(v, i)
  }

  /** The path of a position below v, which is itself at path. */
  function PathOf(v: Value, path: string, at: seq<nat>): string
    requires Has(v, at)
  {
    if at == [] then path else PathOf(Kids(v)[at[0]], ChildPath(v, path, at[0]), at[1..])
  }

  /** A path is written as names with points between them and indices in brackets. */
  lemma PathIsWritten(names: seq<string>, lists: seq<Value>, i: nat, j: nat, k: nat)
    requires |names| == |lists| && i < |lists| && j < |Kids(lists[i])| && k < |Kids(lists[i].kids[j])|
    requires lists[i].Arr? && lists[i].kids[j].Obj? && k < |lists[i].kids[j].names| && names[i] != ""
    ensures var v, at := Obj(names, lists), [i] + ([j] + [k]);
      Has(v, at) && PathOf(v, "", at) == names[i] + "[" + Decimal(j) + "]" + "." + lists[i].kids[j].names[k]
  {
    var list, entry := lists[i], lists[i].kids[j];
    assert ([i] + ([j] + [k]))[1..] == [j] + [k] && ([j] + [k])[1..] == [k] && [k][1..] == [];
    assert Has(entry, [k]) && Has(list, [j] + [k]);
    assert PathOf(entry, names[i] + "[" + Decimal(j) + "]", [k]) ==
      names[i] + "[" + Decimal(j) + "]" + "." + entry.names[k];
    assert PathOf(list, names[i], [j] + [k]) == PathOf(entry, names[i] + "[" + Decimal(j) + "]", [k]);
  }

  /** Everything below v in the order walkJSON visits it: each value before what is in it. */
  function Slots(v: Value, at: seq<nat>, path: string): seq<Slot>
    decreases v, |Kids(v)| + 1
  {
    if Branch(v) then SlotsFrom(v, 0, at, path) else []
  }

  function SlotsFrom(v: Value, i: nat, at: seq<nat>, path: string): seq<Slot>
    requires Branch(v) && i <= |v.kids|
    decreases v, |v.kids| - i
  {
    if i == |v.kids| then [] else
      var child := ChildPath(v, path, i);
      [Slot(at + [i], child, v.kids[i])] + Slots(v.kids[i], at + [i], child) + SlotsFrom(v, i + 1, at, path)
  }

  /** A slot of the walk of v really is the value at its position, with the path of that position. */
  ghost predicate SlotOf(v: Value, at: seq<nat>, path: string, slot: Slot) {
    && |at| < |slot.at| && slot.at[..|at|] == at
    && Has(v, slot.at[|at|..])
    && slot.value == Get(v, slot.at[|at|..])
    && slot.path == PathOf(v, path, slot.at[|at|..])
  }

  lemma SlotOfChild(v: Value, i: nat, at: seq<nat>, path: string, slot: Slot)
    requires Branch(v) && i < |v.kids|
    requires slot == Slot(at + [i], ChildPath(v, path, i), v.kids[i])
          || SlotOf(v.kids[i], at + [i], ChildPath(v, path, i), slot)
    ensures SlotOf(v, at, path, slot)
  {
    var rest := slot.at[|at|..];
    assert slot.at[..|at|] == at by {
      assert slot.at[..|at| + 1] == at + [i];
      assert slot.at[..|at|] == slot.at[..|at| + 1][..|at|];
    }
    assert rest[0] == i by { assert slot.at[|at|] == slot.at[..|at| + 1][|at|]; }
    assert rest[1..] == slot.at[|at| + 1..];
  }

  lemma {:induction false} SlotsAreValues(v: Value, at: seq<nat>, path: string)
    ensures forall slot :: slot in Slots(v, at, path) ==> SlotOf(v, at, path, slot)
    decreases v, |Kids(v)| + 1
  {
    if Branch(v) { SlotsFromAreValues(v, 0, at, path); }
  }

  lemma {:induction false} SlotsFromAreValues(v: Value, i: nat, at: seq<nat>, path: string)
    requires Branch(v) && i <= |v.kids|
    ensures forall slot :: slot in SlotsFrom(v, i, at, path) ==> SlotOf(v, at, path, slot)
    decreases v, |v.kids| - i
  {
    if i < |v.kids| {
      var child := ChildPath(v, path, i);
      SlotsAreValues(v.kids[i], at + [i], child);
      SlotsFromAreValues(v, i + 1, at, path);
      forall slot | slot in SlotsFrom(v, i, at, path) ensures SlotOf(v, at, path, slot) {
        if slot !in SlotsFrom(v, i + 1, at, path) {
          SlotOfChild(v, i, at, path, slot);
        }
      }
    }
  }

  lemma FirstStep(at: seq<nat>, below: seq<nat>)
    requires below != []
    ensures (at + [below[0]]) + below[1..] == at + below
    ensures |below| == 1 ==> at + [below[0]] == at + below && below[1..] == []
  {
  }

  lemma ChildHasASlot(v: Value, i: nat, at: seq<nat>, path: string)
    requires Branch(v) && i < |v.kids|
    ensures Slot(at + [i], ChildPath(v, path, i), v.kids[i]) in SlotsFrom(v, i, at, path)
  {
    hide ChildPath, Slots;
  }

  /** The walk misses nothing: every position below the root has its slot. */
  lemma {:induction false} EveryValueHasASlot(v: Value, at: seq<nat>, path: string, below: seq<nat>)
    requires below != [] && Has(v, below)
    ensures Slot(at + below, PathOf(v, path, below), Get(v, below)) in Slots(v, at, path)
    decreases below
  {
    var i, rest := below[0], below[1..];
    var child := ChildPath(v, path, i);
    assert Slots(v, at, path) == SlotsFrom(v, 0, at, path);
    assert PathOf(v, path, below) == PathOf(v.kids[i], child, rest) && Get(v, below) == Get(v.kids[i], rest);
    assert rest == [] ==> PathOf(v.kids[i], child, rest) == child && Get(v.kids[i], rest) == v.kids[i];
    FirstStep(at, below);
    SlotInTail(v, 0, i, at, path);
    ChildHasASlot(v, i, at, path);
    hide Slots, SlotsFrom, PathOf, Get, ChildPath;
    if rest != [] {
      EveryValueHasASlot(v.kids[i], at + [i], child, rest);
      SlotInside(v, i, at, path, Slot(at + below, PathOf(v, path, below), Get(v, below)));
    }
  }

  lemma SlotInside(v: Value, i: nat, at: seq<nat>, path: string, slot: Slot)
    requires Branch(v) && i < |v.kids| && slot in Slots(v.kids[i], at + [i], ChildPath(v, path, i))
    ensures slot in SlotsFrom(v, i, at, path)
  {
  }

  lemma {:induction false} SlotInTail(v: Value, i: nat, j: nat, at: seq<nat>, path: string)
    requires Branch(v) && i <= j < |v.kids|
    ensures forall slot :: slot in SlotsFrom(v, j, at, path) ==> slot in SlotsFrom(v, i, at, path)
    decreases j - i
  {
    if i < j { SlotInTail(v, i + 1, j, at, path); }
  }

  // ---------------------------------------------------------------- the choice of what to cut

  predicate LongString(v: Value) {
    v.Str? && TextSize(v.text) > MIN_CUT_STRING
  }

  predicate NonEmptyList(v: Value) {
    v.Arr? && v.kids != []
  }

  datatype Best = Best(longest: Option<Slot>, largest: Option<Slot>)

  /** What shortenLargest keeps of the slots visited so far. */
  function Visit(best: Best, slot: Slot): Best {
    if LongString(slot.value) && (best.longest.None? || TextBytesOf(slot) > TextBytesOf(best.longest.value)) then
      best.(longest := Some(slot))
    else if NonEmptyList(slot.value) && (best.largest.None? || Size(slot.value) > Size(best.largest.value.value)) then
      best.(largest := Some(slot))
    else
      best
  }

  function TextBytesOf(slot: Slot): nat {
    if slot.value.Str? then TextSize(slot.value.text) else 0
  }

  function VisitAll(best: Best, slots: seq<Slot>): Best
    decreases slots
  {
    if slots == [] then best else VisitAll(Visit(best, slots[0]), slots[1..])
  }

  lemma {:induction false} VisitAllSplit(best: Best, a: seq<Slot>, b: seq<Slot>)
    ensures VisitAll(best, a + b) == VisitAll(VisitAll(best, a), b)
    decreases a
  {
    if a == [] {
      assert a + b == b;
    } else {
      assert (a + b)[1..] == a[1..] + b;
      VisitAllSplit(Visit(best, a[0]), a[1..], b);
    }
  }

  /** walkJSON with the visitor of shortenLargest. */
  method Walk(v: Value, at: seq<nat>, path: string, visited: Best) returns (best: Best)
    ensures best == VisitAll(visited, Slots(v, at, path))
    decreases v
  {
    best := visited;
    if Branch(v) {
      var i := 0;
      while i < |v.kids|
        invariant i <= |v.kids|
        invariant VisitAll(best, SlotsFrom(v, i, at, path)) == VisitAll(visited, SlotsFrom(v, 0, at, path))
      {
        var child := ChildPath(v, path, i);
        var slot := Slot(at + [i], child, v.kids[i]);
        ghost var inside := Slots(v.kids[i], at + [i], child);
        VisitAllSplit(best, [slot] + inside, SlotsFrom(v, i + 1, at, path));
        VisitAllSplit(best, [slot], inside);
        best := Visit(best, slot);
        best := Walk(v.kids[i], at + [i], child, best);
        i := i + 1;
      }
    }
  }

  ghost predicate FirstLongest(slots: seq<Slot>, k: nat) {
    && k < |slots| && LongString(slots[k].value)
    && (forall j :: 0 <= j < |slots| && LongString(slots[j].value) ==>
          TextBytesOf(slots[j]) <= TextBytesOf(slots[k]) && (j < k ==> TextBytesOf(slots[j]) < TextBytesOf(slots[k])))
  }

  ghost predicate FirstLargest(slots: seq<Slot>, k: nat) {
    && k < |slots| && NonEmptyList(slots[k].value)
    && (forall j :: 0 <= j < |slots| && NonEmptyList(slots[j].value) ==>
          Size(slots[j].value) <= Size(slots[k].value) && (j < k ==> Size(slots[j].value) < Size(slots[k].value)))
  }

  const NOTHING := Best(None, None)

  ghost predicate FoundLongest(slots: seq<Slot>, found: Option<Slot>) {
    if found.None? then forall slot :: slot in slots ==> !LongString(slot.value)
    else exists k: nat :: FirstLongest(slots, k) && slots[k] == found.value
  }

  ghost predicate FoundLargest(slots: seq<Slot>, found: Option<Slot>) {
    if found.None? then forall slot :: slot in slots ==> !NonEmptyList(slot.value)
    else exists k: nat :: FirstLargest(slots, k) && slots[k] == found.value
  }

  lemma LongestStep(init: seq<Slot>, last: Slot, before: Best)
    requires FoundLongest(init, before.longest)
    ensures FoundLongest(init + [last], Visit(before, last).longest)
  {
    hide TextBytesOf, LongString, NonEmptyList, Size;
    var slots, n, best := init + [last], |init|, Visit(before, last);
    assert slots[n] == last && forall j :: 0 <= j < n ==> slots[j] == init[j];
    if best.longest.Some? {
      if best.longest == before.longest {
        var k: nat :| FirstLongest(init, k) && init[k] == before.longest.value;
        assert FirstLongest(slots, k) && slots[k] == init[k];
      } else {
        assert FirstLongest(slots, n) && slots[n] == last;
      }
    }
  }

  lemma LargestStep(init: seq<Slot>, last: Slot, before: Best)
    requires FoundLargest(init, before.largest)
    ensures FoundLargest(init + [last], Visit(before, last).largest)
  {
    hide TextBytesOf, Size;
    var slots, n, best := init + [last], |init|, Visit(before, last);
    assert slots[n] == last && forall j :: 0 <= j < n ==> slots[j] == init[j];
    if best.largest.Some? {
      if best.largest == before.largest {
        var k: nat :| FirstLargest(init, k) && init[k] == before.largest.value;
        assert FirstLargest(slots, k) && slots[k] == init[k];
      } else {
        assert FirstLargest(slots, n) && slots[n] == last;
      }
    }
  }

  /** The visitor ends with the first of the longest long strings and the first of the largest
      non-empty lists, and with none only when there is none. */
  lemma {:induction false} VisitorFindsTheExtremes(slots: seq<Slot>)
    ensures FoundLongest(slots, VisitAll(NOTHING, slots).longest)
    ensures FoundLargest(slots, VisitAll(NOTHING, slots).largest)
  {
    if slots != [] {
      var n := |slots| - 1;
      var init, last := slots[..n], slots[n];
      assert slots == init + [last];
      VisitorFindsTheExtremes(init);
      VisitAllSplit(NOTHING, init, [last]);
      var before := VisitAll(NOTHING, init);
      assert VisitAll(NOTHING, slots) == Visit(before, last);
      LongestStep(init, last, before);
      LargestStep(init, last, before);
    }
  }

  /** What the visitor finds is a value of the document, with its path. */
  lemma FoundIsAValue(root: Value, found: Slot)
    requires found in Slots(root, [], "")
    ensures found.at != [] && Has(root, found.at) && found.value == Get(root, found.at)
      && found.path == PathOf(root, "", found.at)
  {
    SlotsAreValues(root, [], "");
    assert SlotOf(root, [], "", found);
    assert found.at[0..] == found.at;
  }

  /** The slot that shortenLargest cuts: a long string when there is one, else a list. */
  function Choose(root: Value): (choice: Option<Slot>)
    ensures choice.Some? ==>
      && choice.value.at != [] && Has(root, choice.value.at)
      && choice.value.value == Get(root, choice.value.at)
      && choice.value.path == PathOf(root, "", choice.value.at)
      && (LongString(choice.value.value) || NonEmptyList(choice.value.value))
  {
    var slots := Slots(root, [], "");
    var best := VisitAll(NOTHING, slots);
    VisitorFindsTheExtremes(slots);
    var choice := if best.longest.Some? then best.longest else best.largest;
    if choice.Some? then
      FoundIsAValue(root, choice.value);
      choice
    else None
  }

  // ---------------------------------------------------------------- one cut

  /** The characters of t that lie wholly in its first keep bytes. */
  function KeptChars(t: string, keep: nat): (k: nat)
    ensures k <= |t| && TextSize(t[..k]) <= keep
    ensures k < |t| ==> TextSize(t[..k + 1]) > keep && keep < TextSize(t[..k]) + 4
    decreases t
  {
    if t == "" || CharSize(t[0]) > keep then
      assert t != "" ==> t[..1][1..] == "";
      0
    else
      var k := KeptChars(t[1..], keep - CharSize(t[0]));
      assert t[..k + 1][1..] == t[1..][..k];
      assert k + 1 < |t| ==> t[..k + 2][1..] == t[1..][..k + 1];
      k + 1
  }

  /** Bytes that shortenLargest counts as removed when the entries from keep on are dropped. */
  function Counted(items: seq<Value>, keep: nat): nat
    requires keep <= |items|
  {
    TotalAll(Shell, items[keep..]) + |items| - keep
  }

  lemma CountedStep(items: seq<Value>, keep: nat)
    requires keep < |items|
    ensures Counted(items, keep) == Counted(items, keep + 1) + Size(items[keep]) + 1
  {
    assert items[keep..][1..] == items[keep + 1..];
  }

  lemma {:induction false} CountedFalls(items: seq<Value>, a: nat, b: nat)
    requires a < b <= |items|
    ensures Counted(items, a) > Counted(items, b)
    decreases b - a
  {
    CountedStep(items, a);
    if a + 1 < b { CountedFalls(items, a + 1, b); }
  }

  /** keep drops the fewest entries whose counted bytes reach excess, or all of them. */
  ghost predicate DropsFewest(items: seq<Value>, excess: nat, keep: nat) {
    && keep <= |items|
    && (keep == 0 || Counted(items, keep) >= excess)
    && (keep < |items| ==> Counted(items, keep + 1) < excess)
  }

  function KeptItems(items: seq<Value>, excess: nat): (keep: nat)
    ensures DropsFewest(items, excess, keep)
  {
    KeptFrom(items, excess, |items|)
  }

  function KeptFrom(items: seq<Value>, excess: nat, from: nat): (keep: nat)
    requires from <= |items| && (from < |items| ==> Counted(items, from + 1) < excess)
    ensures DropsFewest(items, excess, keep)
  {
    if from == 0 || Counted(items, from) >= excess then from else KeptFrom(items, excess, from - 1)
  }

  lemma DropsFewestIsUnique(items: seq<Value>, excess: nat, a: nat, b: nat)
    requires DropsFewest(items, excess, a) && DropsFewest(items, excess, b)
    ensures a == b
  {
    if a < b {
      if a + 1 < b { CountedFalls(items, a + 1, b); }
    } else if b < a {
      if b + 1 < a { CountedFalls(items, b + 1, a); }
    }
  }

  function KeepBytes(text: string, excess: nat): nat {
    Max(MIN_CUT_STRING, TextSize(text) - excess)
  }

  /** The value that shortenLargest puts in the place of the chosen one. */
  function CutDown(v: Value, excess: nat): (w: Value)
    requires excess > 0 && (LongString(v) || NonEmptyList(v))
    ensures LocalCut(v, w)
  {
    if v.Str? then
      var keep := KeepBytes(v.text, excess);
      var k := KeptChars(v.text, keep);
      assert v.text[..|v.text|] == v.text;
      Str(v.text[..k])
    else
      assert v.kids[|v.kids|..] == [];
      Arr(v.kids[..KeptItems(v.kids, excess)])
  }

  /** A proper prefix: of a long string, down to the floor or at most three bytes less, or of a list. */
  ghost predicate LocalCut(v: Value, w: Value) {
    || (LongString(v) && w.Str? && w.text < v.text && TextSize(w.text) + 3 >= MIN_CUT_STRING)
    || (v.Arr? && w.Arr? && w.kids < v.kids)
  }

  // ---------------------------------------------------------------- names

  predicate Less(a: string, b: string) {
    b != "" && (a == "" || a[0] < b[0] || (a[0] == b[0] && Less(a[1..], b[1..])))
  }

  /** Where key goes among sorted names: before the first greater one. */
  function Place(names: seq<string>, key: string): (i: nat)
    ensures i <= |names|
    ensures forall j :: 0 <= j < i ==> !Less(key, names[j])
    ensures i < |names| ==> Less(key, names[i])
  {
    if names == [] || Less(key, names[0]) then 0 else
      var i := Place(names[1..], key);
      assert forall j :: 1 <= j < i + 1 ==> names[j] == names[1..][j - 1];
      i + 1
  }

  function Insert<T>(s: seq<T>, i: nat, x: T): seq<T>
    requires i <= |s|
  {
    s[..i] + [x] + s[i..]
  }

  /** The set of cut paths as the sorted list of its members. */
  function Record(cut: seq<string>, path: string): (more: seq<string>)
    ensures forall p :: p in more <==> p in cut || p == path
    ensures |more| == |cut| + if path in cut then 0 else 1
  {
    if path in cut then cut else
      var i := Place(cut, path);
      assert cut == cut[..i] + cut[i..];
      Insert(cut, i, path)
  }

  // ---------------------------------------------------------------- shortenLargest

  datatype Document = Document(root: Value, cut: seq<string>)

  function Shorten(doc: Document, excess: nat): Option<Document>
    requires excess > 0
  {
    match Choose(doc.root)
    case None => None
    case Some(slot) =>
      Some(Document(Put(doc.root, slot.at, CutDown(slot.value, excess)), Record(doc.cut, slot.path)))
  }

  /** The document being cut: the decoded result and the set of its cut paths, both changed in place. */
  class Cutter {
    var root: Value
    var cut: seq<string>

    function State(): Document
      reads this
    {
      Document(root, cut)
    }

    constructor (decoded: Value)
      ensures State() == Document(decoded, [])
    {
      root, cut := decoded, [];
    }

    method ShortenLargest(excess: nat) returns (shortened: bool)
      requires excess > 0
      modifies this
      ensures shortened == Shorten(old(State()), excess).Some?
      ensures State() == if shortened then Shorten(old(State()), excess).value else old(State())
    {
      var best := Walk(root, [], "", NOTHING);
      ghost var choice := Choose(root);
      if best.longest.Some? {
        var slot := best.longest.value;
        VisitorFindsTheExtremes(Slots(root, [], ""));
        var kept := CutString(slot.value.text, KeepBytes(slot.value.text, excess));
        root := Put(root, slot.at, Str(kept));
        cut := Record(cut, slot.path);
        return true;
      }
      if best.largest.Some? {
        var slot := best.largest.value;
        VisitorFindsTheExtremes(Slots(root, [], ""));
        var keep := CutList(slot.value.kids, excess);
        root := Put(root, slot.at, Arr(slot.value.kids[..keep]));
        cut := Record(cut, slot.path);
        return true;
      }
      return false;
    }
  }

  /** Where characters start: byte p is a rune start exactly at the end of a whole prefix. */
  lemma {:induction false} BoundaryAt(t: string, k: nat, p: nat)
    requires k < |t| && TextSize(t[..k]) <= p < TextSize(t[..k + 1])
    ensures p < TextSize(t)
    ensures RuneStart(TextBytes(t)[p]) <==> p == TextSize(t[..k])
    decreases k
  {
    assert t[..k + 1][1..] == t[1..][..k];
    if k == 0 {
      assert t[..1][1..] == "" && t[..0] == "";
    } else {
      assert t[..k][1..] == t[1..][..k - 1];
      BoundaryAt(t[1..], k - 1, p - CharSize(t[0]));
    }
  }

  lemma {:induction false} TextBytesPrefix(t: string, k: nat)
    requires k <= |t|
    ensures TextBytes(t[..k]) <= TextBytes(t)
    decreases k
  {
    if k > 0 {
      assert t[..k][1..] == t[1..][..k - 1];
      TextBytesPrefix(t[1..], k - 1);
    }
  }

  /** Backing up from byte keep to a rune start, and the string of the bytes before it. */
  method CutString(t: string, keep: nat) returns (kept: string)
    requires keep < TextSize(t)
    ensures kept == t[..KeptChars(t, keep)]
    ensures TextBytes(kept) <= TextBytes(t)
  {
    var value := TextBytes(t);
    ghost var k := KeptChars(t, keep);
    assert t[..|t|] == t;
    TextBytesPrefix(t, k);
    BoundaryAt(t, k, keep);
    var at := keep;
    while at > 0 && !RuneStart(value[at])
      invariant TextSize(t[..k]) <= at <= keep
    {
      BoundaryAt(t, k, at);
      at := at - 1;
    }
    BoundaryAt(t, k, at);
    assert value[..at] == TextBytes(t[..k]);
    kept := t[..KeptChars(t, at)];
    SamePrefix(t, keep, at);
  }

  lemma SamePrefix(t: string, keep: nat, at: nat)
    requires at == TextSize(t[..KeptChars(t, keep)])
    ensures KeptChars(t, at) == KeptChars(t, keep)
  {
    PrefixSizeGrows(t, KeptChars(t, at), KeptChars(t, keep));
    PrefixSizeGrows(t, KeptChars(t, keep), KeptChars(t, at));
  }

  lemma PrefixSizeGrows(t: string, a: nat, b: nat)
    requires a <= |t| && b <= |t|
    ensures a < b ==> TextSize(t[..a]) < TextSize(t[..b]) && TextSize(t[..a + 1]) <= TextSize(t[..b])
  {
    if a < b {
      assert t[..b] == t[..a + 1] + t[a + 1..b];
      TextSizeSplit(t[..a + 1], t[a + 1..b]);
      assert t[..a + 1] == t[..a] + [t[a]];
      TextSizeSplit(t[..a], [t[a]]);
    }
  }

  method CutList(items: seq<Value>, excess: nat) returns (keep: nat)
    ensures keep == KeptItems(items, excess)
  {
    keep := |items|;
    var removed := 0;
    while keep > 0 && removed < excess
      invariant keep <= |items| && removed == Counted(items, keep)
      invariant keep < |items| ==> Counted(items, keep + 1) < excess
    {
      keep := keep - 1;
      CountedStep(items, keep);
      removed := removed + Size(items[keep]) + 1;
    }
    DropsFewestIsUnique(items, excess, keep, KeptItems(items, excess));
  }
}
