/** How many attempts fitResult needs: when its cap of 256 is reached, and when it is not. */
module FitAttempts {
  import opened Basics
  import opened Json
  import opened FitResult
  import opened FitSizes
  import opened FitTheorems
  import opened FitBounds

  // ---------------------------------------------------------------- places to cut

  /** A long string or a list with entries. */
  predicate Cuttable(v: Value) {
    LongString(v) || NonEmptyList(v)
  }

  function OwnCuttable(v: Value): nat {
    if Cuttable(v) then 1 else 0
  }

  /** The strings over the floor and the lists with entries. */
  function CutPlaces(v: Value): nat {
    Total(OwnCuttable, v)
  }

  /** How often a place can still be cut: twice, and once when its path is listed. */
  function OwnCuts(v: Value, path: string, cut: seq<string>): nat {
    if !Cuttable(v) then 0 else if path in cut then 1 else 2
  }

  function Cuts(v: Value, path: string, cut: seq<string>): nat
    decreases v, |Kids(v)| + 1
  {
    OwnCuts(v, path, cut) + if Branch(v) then CutsFrom(v, 0, path, cut) else 0
  }

  function CutsFrom(v: Value, i: nat, path: string, cut: seq<string>): nat
    requires Branch(v) && i <= |v.kids|
    decreases v, |v.kids| - i
  {
    if i == |v.kids| then 0 else Cuts(v.kids[i], ChildPath(v, path, i), cut) + CutsFrom(v, i + 1, path, cut)
  }

  lemma {:induction false} CutsAtMostTwice(v: Value, path: string, cut: seq<string>)
    ensures Cuts(v, path, cut) <= 2 * CutPlaces(v)
    decreases v, |Kids(v)| + 1
  {
    if Branch(v) {
      CutsFromAtMostTwice(v, 0, path, cut);
      assert v.kids[0..] == v.kids;
    }
  }

  lemma {:induction false} CutsFromAtMostTwice(v: Value, i: nat, path: string, cut: seq<string>)
    requires Branch(v) && i <= |v.kids|
    ensures CutsFrom(v, i, path, cut) <= 2 * TotalAll(OwnCuttable, v.kids[i..])
    decreases v, |v.kids| - i
  {
    if i < |v.kids| {
      CutsAtMostTwice(v.kids[i], ChildPath(v, path, i), cut);
      CutsFromAtMostTwice(v, i + 1, path, cut);
      assert v.kids[i..][1..] == v.kids[i + 1..];
    }
  }

  lemma {:induction false} MoreListedCutsLess(v: Value, path: string, cut: seq<string>, more: seq<string>)
    requires forall p :: p in cut ==> p in more
    ensures Cuts(v, path, more) <= Cuts(v, path, cut)
    decreases v, |Kids(v)| + 1
  {
    if Branch(v) { MoreListedCutsLessFrom(v, v, 0, path, cut, more); }
  }

  /** The values of w from i on are those of v, as far as they go. */
  ghost predicate SameFrom(v: Value, w: Value, i: nat) {
    && ((v.Arr? && w.Arr?) || (v.Obj? && w.Obj? && v.names == w.names))
    && |w.kids| <= |v.kids| && forall j :: i <= j < |w.kids| ==> w.kids[j] == v.kids[j]
  }

  lemma {:induction false} MoreListedCutsLessFrom(v: Value, w: Value, i: nat, path: string, cut: seq<string>,
                                                  more: seq<string>)
    requires SameFrom(v, w, i) && i <= |w.kids| && forall p :: p in cut ==> p in more
    ensures CutsFrom(w, i, path, more) <= CutsFrom(v, i, path, cut)
    decreases v, |v.kids| - i
  {
    if i < |w.kids| {
      MoreListedCutsLess(v.kids[i], ChildPath(v, path, i), cut, more);
      MoreListedCutsLessFrom(v, w, i + 1, path, cut, more);
    }
  }

  /** What a value at a position adds to the cuts of a document. */
  lemma {:induction false} CutsAfterPut(v: Value, at: seq<nat>, w: Value, path: string, cut: seq<string>,
                                        more: seq<string>)
    requires Has(v, at) && forall p :: p in cut ==> p in more
    ensures Cuts(Put(v, at, w), path, more) + Cuts(Get(v, at), PathOf(v, path, at), cut) <=
      Cuts(v, path, cut) + Cuts(w, PathOf(v, path, at), more)
    decreases at, 1, 0
  {
    if at != [] {
      CutsAfterPutFrom(v, at, 0, w, path, cut, more);
    }
  }

  lemma {:induction false} CutsAfterPutFrom(v: Value, at: seq<nat>, i: nat, w: Value, path: string, cut: seq<string>,
                                            more: seq<string>)
    requires at != [] && Has(v, at) && i <= at[0] && forall p :: p in cut ==> p in more
    ensures CutsFrom(Put(v, at, w), i, path, more) + Cuts(Get(v, at), PathOf(v, path, at), cut) <=
      CutsFrom(v, i, path, cut) + Cuts(w, PathOf(v, path, at), more)
    decreases at, 0, at[0] - i
  {
    var later := Put(v, at, w);
    PutFacts(v, at, w, path, i);
    hide Put, Get, PathOf, ChildPath, Cuts;
    if i < at[0] {
      MoreListedCutsLess(v.kids[i], ChildPath(v, path, i), cut, more);
      CutsAfterPutFrom(v, at, i + 1, w, path, cut, more);
    } else {
      CutsAfterPut(v.kids[i], at[1..], w, ChildPath(v, path, i), cut, more);
      MoreListedCutsLessFrom(v, later, i + 1, path, cut, more);
    }
  }

  /** What a value put below a child leaves in the other children. */
  lemma PutFacts(v: Value, at: seq<nat>, w: Value, path: string, i: nat)
    requires at != [] && Has(v, at) && i <= at[0]
    ensures var later := Put(v, at, w);
      && Branch(later) && |later.kids| == |v.kids| && ChildPath(later, path, i) == ChildPath(v, path, i)
      && (i < at[0] ==> later.kids[i] == v.kids[i])
      && later.kids[at[0]] == Put(v.kids[at[0]], at[1..], w)
      && SameFrom(v, later, at[0] + 1)
    ensures Get(v, at) == Get(v.kids[at[0]], at[1..])
      && PathOf(v, path, at) == PathOf(v.kids[at[0]], ChildPath(v, path, at[0]), at[1..])
  {
  }

  /** A cut value has no more cuts inside it than before. */
  lemma InsideACut(v: Value, w: Value, path: string, cut: seq<string>, more: seq<string>)
    requires LocalCut(v, w) && forall p :: p in cut ==> p in more
    ensures Cuts(w, path, more) + OwnCuts(v, path, cut) <= Cuts(v, path, cut) + OwnCuts(w, path, more)
  {
    if v.Arr? {
      MoreListedCutsLessFrom(v, w, 0, path, cut, more);
    }
  }

  // ---------------------------------------------------------------- one attempt

  /** A place that is cut a second time is used up, or the cut removes all of the excess. */
  lemma SecondCutSuffices(root: Value, excess: nat)
    requires excess > 0 && Choose(root).Some? && Cuttable(CutDown(Choose(root).value.value, excess))
    ensures Size(Shorten(Document(root, []), excess).value.root) + excess <= Size(root)
  {
    var v := Choose(root).value.value;
    if v.Str? {
      StringCutRemovesEnough(root, excess);
    } else {
      ListCutRemovesWhatItCounted(root, excess);
    }
  }

  /** Every cut leaves fewer cuts, or lists nothing new and removes the excess. */
  lemma CutsFall(doc: Document, excess: nat)
    requires excess > 0 && Shorten(doc, excess).Some?
    ensures var next := Shorten(doc, excess).value;
      || Cuts(next.root, "", next.cut) < Cuts(doc.root, "", doc.cut)
      || (next.cut == doc.cut && doc.cut != [] && Size(next.root) + excess <= Size(doc.root)
          && Cuts(doc.root, "", doc.cut) > 0)
  {
    var slot := Choose(doc.root).value;
    var w := CutDown(slot.value, excess);
    var next := Shorten(doc, excess).value;
    CutsAfterPut(doc.root, slot.at, w, "", doc.cut, next.cut);
    InsideACut(slot.value, w, slot.path, doc.cut, next.cut);
    if slot.path in doc.cut && Cuttable(w) {
      SecondCutSuffices(doc.root, excess);
      CutIsCounted(doc.root, slot.at, "", doc.cut);
    }
    hide Choose, CutDown, Cuts, Put, Get, PathOf, Size;
  }

  lemma {:induction false} CutIsCounted(v: Value, at: seq<nat>, path: string, cut: seq<string>)
    requires Has(v, at) && Cuttable(Get(v, at))
    ensures Cuts(v, path, cut) > 0
    decreases at, 1, 0
  {
    if at != [] {
      CutIsCountedFrom(v, at, 0, path, cut);
    }
  }

  lemma {:induction false} CutIsCountedFrom(v: Value, at: seq<nat>, i: nat, path: string, cut: seq<string>)
    requires at != [] && Has(v, at) && Cuttable(Get(v, at)) && i <= at[0]
    ensures CutsFrom(v, i, path, cut) > 0
    decreases at, 0, at[0] - i
  {
    if i < at[0] {
      CutIsCountedFrom(v, at, i + 1, path, cut);
    } else {
      CutIsCounted(v.kids[i], at[1..], ChildPath(v, path, i), cut);
    }
  }

  /** With the same note, the document that lost the excess fits. */
  lemma SameNoteFits(root: Value, later: Value, note: Value, limit: nat)
    requires MapLike(root) && MapLike(later) && later.names == root.names && NOTE_KEY !in root.names
    requires Size(later) + (Size(WithKey(root, NOTE_KEY, note)) - limit) <= Size(root)
    ensures Size(WithKey(later, NOTE_KEY, note)) <= limit
  {
    SetKeySize(root, NOTE_KEY, note);
    SetKeySize(later, NOTE_KEY, note);
    DeleteMissing(root, NOTE_KEY);
    DeleteMissing(later, NOTE_KEY);
    hide Size, WithKey, Without;
  }

  // ---------------------------------------------------------------- all attempts

  /** The result fits with its note, or nothing is left to cut. */
  ghost predicate StopsByItself(orig: Value, r: Value, bytes: nat, limit: nat) {
    || (exists cut: seq<string> :: CutWhereNoted(orig, r, bytes, limit, cut))
    || (exists root: Value, cut: seq<string> :: GaveUp(orig, r, bytes, limit, root, cut) && Choose(root).None?)
  }

  /** The document of an attempt without its note, and by how much it is too long with it. */
  function Bare(doc: Document, bytes: nat, limit: nat): Document
    requires MapLike(doc.root)
    ensures MapLike(Bare(doc, bytes, limit).root)
  {
    SetThenDelete(doc.root, NOTE_KEY, Note(bytes, limit, doc.cut));
    Document(Without(doc.root, NOTE_KEY), doc.cut)
  }

  function Excess(doc: Document, bytes: nat, limit: nat): int
    requires MapLike(doc.root)
  {
    Size(WithKey(doc.root, NOTE_KEY, Note(bytes, limit, doc.cut))) - limit
  }

  lemma AttemptFits(doc: Document, bytes: nat, limit: nat)
    requires MapLike(doc.root) && Excess(doc, bytes, limit) <= 0
    ensures Attempt(doc, bytes, limit) == Done(WithKey(doc.root, NOTE_KEY, Note(bytes, limit, doc.cut)))
  {
    hide Size, WithKey, Note, MapLike;
  }

  lemma AttemptCuts(doc: Document, bytes: nat, limit: nat)
    requires MapLike(doc.root) && Excess(doc, bytes, limit) > 0
    ensures var bare := Bare(doc, bytes, limit);
      Attempt(doc, bytes, limit) ==
        match Shorten(bare, Excess(doc, bytes, limit))
        case None => Done(Fallback(bare.root, bytes, limit))
        case Some(next) => Again(next)
  {
    SetThenDelete(doc.root, NOTE_KEY, Note(bytes, limit, doc.cut));
    var noted := WithKey(doc.root, NOTE_KEY, Note(bytes, limit, doc.cut));
    var bare := Document(Without(noted, NOTE_KEY), doc.cut);
    assert bare == Bare(doc, bytes, limit);
    hide Size, WithKey, Without, Note, Shorten, Fallback, MapLike;
  }

  lemma AttemptIs(doc: Document, bytes: nat, limit: nat)
    requires MapLike(doc.root)
    ensures var bare, excess := Bare(doc, bytes, limit), Excess(doc, bytes, limit);
      Attempt(doc, bytes, limit) ==
        if excess <= 0 then Done(WithKey(doc.root, NOTE_KEY, Note(bytes, limit, doc.cut)))
        else match Shorten(bare, excess)
             case None => Done(Fallback(bare.root, bytes, limit))
             case Some(next) => Again(next)
  {
    hide *;
    if Excess(doc, bytes, limit) <= 0 {
      AttemptFits(doc, bytes, limit);
    } else {
      AttemptCuts(doc, bytes, limit);
    }
  }

  /** What an attempt that is done gives. */
  lemma DoneStops(orig: Value, doc: Document, bytes: nat, limit: nat)
    requires OnCourse(orig, doc) && Attempt(doc, bytes, limit).Done?
    ensures StopsByItself(orig, Attempt(doc, bytes, limit).document, bytes, limit)
  {
    AttemptIs(doc, bytes, limit);
    var note, bare, excess := Note(bytes, limit, doc.cut), Bare(doc, bytes, limit), Excess(doc, bytes, limit);
    SetThenDelete(doc.root, NOTE_KEY, note);
    if excess > 0 {
      NothingToCut(bare, excess);
    }
    hide Attempt, Shorten, Trimmed, Accurate, Fallback, Note, Size, WithKey, Without, Choose;
    if excess <= 0 {
      assert CutWhereNoted(orig, WithKey(doc.root, NOTE_KEY, note), bytes, limit, doc.cut);
    } else {
      assert GaveUp(orig, Fallback(bare.root, bytes, limit), bytes, limit, bare.root, doc.cut);
    }
  }

  /** What another attempt starts from: a document with fewer cuts, or one that fits with its note. */
  lemma AgainIsNearer(doc: Document, bytes: nat, limit: nat)
    requires MapLike(doc.root) && Attempt(doc, bytes, limit).Again?
    ensures var bare, next := Bare(doc, bytes, limit), Attempt(doc, bytes, limit).next;
      || Cuts(next.root, "", next.cut) < Cuts(bare.root, "", doc.cut)
      || (doc.cut != [] && Cuts(bare.root, "", doc.cut) > 0
          && (NOTE_KEY !in doc.root.names ==> Excess(next, bytes, limit) <= 0))
  {
    AttemptIs(doc, bytes, limit);
    var bare, excess := Bare(doc, bytes, limit), Excess(doc, bytes, limit);
    ShortenKeepsTheRoot(bare, excess);
    CutsFall(bare, excess);
    var next := Shorten(bare, excess).value;
    hide Attempt, Shorten, Note, Size, WithKey, Cuts;
    if NOTE_KEY !in doc.root.names && next.cut == doc.cut && Size(next.root) + excess <= Size(bare.root) {
      DeleteMissing(doc.root, NOTE_KEY);
      SameNoteFits(bare.root, next.root, Note(bytes, limit, doc.cut), limit);
    }
  }

  lemma NextHasNoNote(doc: Document, bytes: nat, limit: nat)
    requires MapLike(doc.root) && Attempt(doc, bytes, limit).Again?
    ensures NOTE_KEY !in Attempt(doc, bytes, limit).next.root.names
  {
    AttemptIs(doc, bytes, limit);
    var bare, excess := Bare(doc, bytes, limit), Excess(doc, bytes, limit);
    ShortenKeepsTheRoot(bare, excess);
    SetThenDelete(doc.root, NOTE_KEY, Note(bytes, limit, doc.cut));
    hide Attempt, Shorten, Note, Size, WithKey, Without;
  }

  lemma NothingToCut(doc: Document, excess: nat)
    requires excess > 0
    ensures Shorten(doc, excess).None? <==> Choose(doc.root).None?
  {
  }

  lemma {:induction false} StopsInTime(orig: Value, doc: Document, bytes: nat, limit: nat, attempt: nat)
    requires OnCourse(orig, doc) && NOTE_KEY !in doc.root.names && attempt < MAX_ATTEMPTS
    requires attempt + Cuts(doc.root, "", doc.cut) < MAX_ATTEMPTS || Excess(doc, bytes, limit) <= 0
    ensures StopsByItself(orig, FitFrom(doc, bytes, limit, attempt), bytes, limit)
    decreases MAX_ATTEMPTS - attempt
  {
    FitUnfolds(doc, bytes, limit, attempt);
    AttemptKeepsCourse(orig, doc, bytes, limit);
    AttemptIs(doc, bytes, limit);
    DeleteMissing(doc.root, NOTE_KEY);
    assert Bare(doc, bytes, limit).root == doc.root;
    hide Attempt, StopsByItself, FitFrom, Cuts, Excess, Bare, Shorten, Trimmed, Accurate, Without;
    match Attempt(doc, bytes, limit)
    case Done(r) => DoneStops(orig, doc, bytes, limit);
    case Again(next) =>
      AgainIsNearer(doc, bytes, limit);
      NextHasNoNote(doc, bytes, limit);
      StopsInTime(orig, next, bytes, limit, attempt + 1);
  }

  /** With fewer than 128 strings over the floor and lists with entries, the cap is not reached: the
      result fits with its note, or nothing was left to cut. */
  lemma FewPlacesStopInTime(decoded: Option<Value>, bytes: nat, limit: nat)
    requires Decodes(decoded) && CutPlaces(Without(Start(decoded), NOTE_KEY)) < 128
    ensures StopsByItself(Without(Start(decoded), NOTE_KEY), FitFrom(Document(Start(decoded), []), bytes, limit, 0),
                          bytes, limit)
  {
    var doc := Document(Start(decoded), []);
    var orig := Without(Start(decoded), NOTE_KEY);
    DeleteKey(doc.root, NOTE_KEY);
    TrimmedSelf(orig, "");
    assert OnCourse(orig, doc);
    AttemptKeepsCourse(orig, doc, bytes, limit);
    CutsAtMostTwice(orig, "", []);
    FitUnfolds(doc, bytes, limit, 0);
    assert Bare(doc, bytes, limit).root == orig;
    hide *;
    match Attempt(doc, bytes, limit)
    case Done(r) => DoneStops(orig, doc, bytes, limit);
    case Again(next) =>
      AgainIsNearer(doc, bytes, limit);
      NextHasNoNote(doc, bytes, limit);
      StopsInTime(orig, next, bytes, limit, 1);
  }

  lemma WithoutIsSmaller(v: Value)
    requires MapLike(v) && Lookup(v, NOTE_KEY).Some?
    ensures TotalAll(Shell, Without(v, NOTE_KEY).kids) <= Size(v)
  {
    WithoutSize(v, NOTE_KEY);
    TotalIsMore(Without(v, NOTE_KEY));
    hide Without, Size;
  }

  lemma TotalIsMore(v: Value)
    requires Branch(v)
    ensures TotalAll(Shell, v.kids) <= Size(v)
  {
  }

  // ---------------------------------------------------------------- the cap

  function OwnLong(v: Value): nat {
    if LongString(v) then 1 else 0
  }

  function LongCount(v: Value): nat {
    Total(OwnLong, v)
  }

  lemma {:induction false} LongStringsTakeRoom(v: Value)
    ensures Size(v) >= (MIN_CUT_STRING + 1) * LongCount(v)
    decreases v, 1
  {
    if Branch(v) { LongStringsTakeRoomAll(v, 0); }
  }

  lemma {:induction false} LongStringsTakeRoomAll(v: Value, i: nat)
    requires Branch(v) && i <= |v.kids|
    ensures TotalAll(Shell, v.kids[i..]) >= (MIN_CUT_STRING + 1) * TotalAll(OwnLong, v.kids[i..])
    decreases v, 0, |v.kids| - i
  {
    if i < |v.kids| {
      LongStringsTakeRoom(v.kids[i]);
      LongStringsTakeRoomAll(v, i + 1);
      assert v.kids[i..][1..] == v.kids[i + 1..];
    }
  }

  lemma {:induction false} LongStringSomewhere(v: Value) returns (at: seq<nat>)
    requires LongCount(v) > 0
    ensures Has(v, at) && LongString(Get(v, at))
    decreases v, 1
  {
    if Branch(v) { at := LongStringInKids(v, 0); } else { at := []; }
  }

  lemma {:induction false} LongStringInKids(v: Value, i: nat) returns (at: seq<nat>)
    requires Branch(v) && i <= |v.kids| && TotalAll(OwnLong, v.kids[i..]) > 0
    ensures at != [] && Has(v, at) && LongString(Get(v, at))
    decreases v, 0, |v.kids| - i
  {
    assert i < |v.kids| ==> v.kids[i..][1..] == v.kids[i + 1..];
    if LongCount(v.kids[i]) > 0 {
      var inside := LongStringSomewhere(v.kids[i]);
      at := [i] + inside;
      assert at[1..] == inside;
    } else {
      at := LongStringInKids(v, i + 1);
    }
  }

  /** While a long string is left, a cut takes at most one of them. */
  lemma OneLongStringLess(doc: Document, excess: nat)
    requires excess > 0 && doc.root.Obj? && LongCount(doc.root) > 0
    ensures Shorten(doc, excess).Some? && LongCount(Shorten(doc, excess).value.root) + 1 >= LongCount(doc.root)
  {
    var at := LongStringSomewhere(doc.root);
    var slots := Slots(doc.root, [], "");
    EveryValueHasASlot(doc.root, [], "", at);
    assert Slot([] + at, PathOf(doc.root, "", at), Get(doc.root, at)) in slots;
    VisitorFindsTheExtremes(slots);
    var slot := Choose(doc.root).value;
    PutTotal(OwnLong, doc.root, slot.at, CutDown(slot.value, excess));
  }

  /** Only ok is left, and the note says that everything was cut, although the document that was given
      up held long strings, unless the limit is below one of them. */
  ghost predicate EverythingCut(r: Value, bytes: nat, limit: nat) {
    exists root: Value ::
      && MapLike(root) && r == Fallback(root, bytes, limit)
      && (limit > 1024 ==> LongCount(Without(root, NOTE_KEY)) > 0)
  }

  lemma {:induction false} CapRunsOut(doc: Document, bytes: nat, limit: nat, attempt: nat)
    requires MapLike(doc.root) && attempt <= MAX_ATTEMPTS
    requires (MIN_CUT_STRING + 1) * (LongCount(Without(doc.root, NOTE_KEY)) + attempt - (MAX_ATTEMPTS - 1)) > limit
    ensures EverythingCut(FitFrom(doc, bytes, limit, attempt), bytes, limit)
    decreases MAX_ATTEMPTS - attempt
  {
    hide Fallback, Shorten, Note, Size, WithKey, Without, LongCount;
    if attempt < MAX_ATTEMPTS {
      var note := Note(bytes, limit, doc.cut);
      SetThenDelete(doc.root, NOTE_KEY, note);
      var noted := WithKey(doc.root, NOTE_KEY, note);
      var bare := Document(Without(noted, NOTE_KEY), doc.cut);
      WithoutIsSmaller(noted);
      LongStringsInMap(bare.root);
      var excess := Size(noted) - limit;
      OneLongStringLess(bare, excess);
      var next := Shorten(bare, excess).value;
      ShortenKeepsTheRoot(bare, excess);
      DeleteMissing(next.root, NOTE_KEY);
      CapRunsOut(next, bytes, limit, attempt + 1);
    }
  }

  lemma LongStringsInMap(v: Value)
    requires v.Obj?
    ensures TotalAll(Shell, v.kids) >= (MIN_CUT_STRING + 1) * LongCount(v)
  {
    LongStringsTakeRoomAll(v, 0);
    assert v.kids[0..] == v.kids;
  }

  /** The cap on attempts can be reached: with this many strings over the floor, fitResult drops
      everything but ok before it has shortened a single list. */
  lemma ManyLongStringsDropEverything(decoded: Option<Value>, bytes: nat, limit: nat)
    requires Decodes(decoded)
    requires 1025 * (LongCount(Without(Start(decoded), NOTE_KEY)) - 255) > limit
    ensures EverythingCut(FitFrom(Document(Start(decoded), []), bytes, limit, 0), bytes, limit)
  {
    CapRunsOut(Document(Start(decoded), []), bytes, limit, 0);
  }

  // ---------------------------------------------------------------- an example

  function Copies(n: nat, s: string): seq<Value> {
    if n == 0 then [] else [Str(s)] + Copies(n - 1, s)
  }

  lemma {:induction false} CountCopies(n: nat, s: string)
    requires TextSize(s) > MIN_CUT_STRING
    ensures TotalAll(OwnLong, Copies(n, s)) == n
  {
    if n > 0 {
      CountCopies(n - 1, s);
      assert Copies(n, s)[1..] == Copies(n - 1, s);
    }
  }

  /** A document of 259 strings of at least 1025 bytes and the smallest limit: the cap is reached. */
  lemma SomeDocumentReachesTheCap(s: string, bytes: nat)
    requires TextSize(s) > 1024
    ensures EverythingCut(FitFrom(Document(Obj(["texts"], [Arr(Copies(259, s))]), []), bytes, 4096, 0), bytes, 4096)
  {
    var list := Arr(Copies(259, s));
    var root := Obj(["texts"], [list]);
    CountCopies(259, s);
    assert "texts" != NOTE_KEY by { assert |"texts"| != |NOTE_KEY|; }
    DeleteMissing(root, NOTE_KEY);
    assert [list][1..] == [];
    assert LongCount(list) == 259 && TotalAll(OwnLong, [list]) == LongCount(list);
    assert LongCount(root) == 259;
    hide *;
    ManyLongStringsDropEverything(Some(root), bytes, 4096);
  }
}
