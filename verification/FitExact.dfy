/** Exactly what one cut takes, and what fitResult leaves of a document with one long string. */
module FitExact {
  import opened Basics
  import opened Json
  import opened FitResult
  import opened FitSizes
  import opened FitTheorems
  import opened FitBounds
  import opened FitAttempts

  // ---------------------------------------------------------------- the choice

  /** shortenLargest takes a string over 1024 bytes as long as there is one, and then the longest; else
      a list with entries, the one with the longest encoding; else nothing. */
  lemma ChoiceIsTheLargest(root: Value)
    ensures match Choose(root)
      case None => forall at: seq<nat> :: at != [] && Has(root, at) ==>
        var v := Get(root, at); !(v.Str? && TextSize(v.text) > 1024) && !(v.Arr? && v.kids != [])
      case Some(slot) =>
        if slot.value.Str? then
          && TextSize(slot.value.text) > 1024
          && forall at: seq<nat> :: at != [] && Has(root, at) && Get(root, at).Str? ==>
               TextSize(Get(root, at).text) <= TextSize(slot.value.text)
        else
          && slot.value.Arr? && slot.value.kids != []
          && forall at: seq<nat> :: at != [] && Has(root, at) ==>
               var v := Get(root, at);
               !(v.Str? && TextSize(v.text) > 1024) && (v.Arr? && v.kids != [] ==> Size(v) <= Size(slot.value))
  {
    var slots := Slots(root, [], "");
    VisitorFindsTheExtremes(slots);
    forall at: seq<nat> | at != [] && Has(root, at)
      ensures Slot(at, PathOf(root, "", at), Get(root, at)) in slots
    {
      EveryValueHasASlot(root, [], "", at);
      assert [] + at == at;
    }
    hide Size, TextSize, Slots, VisitAll, PathOf, Get, Has;
  }

  // ---------------------------------------------------------------- one cut

  /** kept is the longest prefix of whole characters of text within most bytes. */
  ghost predicate LongestWithin(kept: string, text: string, most: int) {
    && kept <= text && TextSize(kept) <= most
    && (|kept| < |text| ==> TextSize(text[..|kept| + 1]) > most)
  }

  /** A cut of a string leaves the longest prefix of whole characters within all but the excess of its
      bytes, or within 1024 bytes when that is more. */
  lemma StringCutTakesNoMore(doc: Document, excess: nat)
    requires excess > 0 && Choose(doc.root).Some? && Choose(doc.root).value.value.Str?
    ensures var slot := Choose(doc.root).value;
      var later := Shorten(doc, excess).value.root;
      && Has(later, slot.at) && Get(later, slot.at).Str?
      && LongestWithin(Get(later, slot.at).text, slot.value.text, Max(1024, TextSize(slot.value.text) - excess))
  {
    var slot := Choose(doc.root).value;
    CutDownIsLongest(slot.value, excess);
    PutThenGet(doc.root, slot.at, CutDown(slot.value, excess));
    hide CutDown, LongestWithin, Choose, TextSize;
  }

  lemma CutDownIsLongest(v: Value, excess: nat)
    requires excess > 0 && LongString(v)
    ensures var w := CutDown(v, excess);
      w.Str? && LongestWithin(w.text, v.text, Max(1024, TextSize(v.text) - excess))
  {
  }

  /** A cut of a list drops its last entries, as few as remove the excess from the encoding, or all. */
  lemma ListCutTakesNoMore(doc: Document, excess: nat) returns (keep: nat)
    requires excess > 0 && Choose(doc.root).Some? && Choose(doc.root).value.value.Arr?
    ensures var slot := Choose(doc.root).value;
      var items, later := slot.value.kids, Shorten(doc, excess).value.root;
      && Has(doc.root, slot.at) && keep < |items|
      && later == Put(doc.root, slot.at, Arr(items[..keep]))
      && (keep > 0 ==> Size(later) + excess <= Size(doc.root))
      && Size(Put(doc.root, slot.at, Arr(items[..keep + 1]))) + excess > Size(doc.root)
  {
    var slot := Choose(doc.root).value;
    var items := slot.value.kids;
    keep := KeptItems(items, excess);
    assert Counted(items, |items|) == 0 by { assert items[|items|..] == []; }
    SizeWithout(doc.root, slot.at, items, keep);
    SizeWithout(doc.root, slot.at, items, keep + 1);
    hide Choose, Put, Get, Has, Size, KeptItems, Counted, LongString;
  }

  /** A list that loses its last entries, but not all, loses exactly their counted bytes. */
  lemma SizeWithout(root: Value, at: seq<nat>, items: seq<Value>, keep: nat)
    requires Has(root, at) && Get(root, at) == Arr(items) && keep <= |items|
    ensures keep > 0 ==> Size(Put(root, at, Arr(items[..keep]))) + Counted(items, keep) == Size(root)
  {
    PutSize(root, at, Arr(items[..keep]));
    assert items == items[..keep] + items[keep..];
    TotalAllSplit(Shell, items[..keep], items[keep..]);
  }

  lemma OneCharMore(text: string, k: nat)
    requires k < |text|
    ensures TextSize(text[..k]) < TextSize(text[..k + 1]) <= TextSize(text[..k]) + 4
  {
    assert text[..k + 1] == text[..k] + [text[k]];
    TextSizeSplit(text[..k], [text[k]]);
    assert TextSize([text[k]]) == CharSize(text[k]);
  }

  /** The bytes of such a prefix. */
  lemma LongestWithinSize(kept: string, text: string, most: int)
    requires LongestWithin(kept, text, most) && most < TextSize(text)
    ensures kept != text && most <= TextSize(kept) + 3
  {
    assert text[..|text|] == text && kept == text[..|kept|];
    OneCharMore(text, |kept|);
  }

  /** What is cut off takes no fewer bytes in the encoding. */
  lemma PrefixSize(kept: string, text: string)
    requires kept <= text
    ensures EscapedText(kept) + TextSize(text) <= EscapedText(text) + TextSize(kept)
  {
    var rest := text[|kept|..];
    assert text == kept + rest;
    TextSizeSplit(kept, rest);
    EscapedTextSplit(kept, rest);
  }

  /** A prefix of a prefix, and within 1024 bytes the longest one of both. */
  lemma LongestWithinTwice(kept: string, text: string, orig: string, most: int)
    requires LongestWithin(kept, text, most) && most < TextSize(text) && text <= orig
    ensures kept <= orig && kept != text
    ensures TextSize(kept) <= 1024 <= most ==> LongestWithin(kept, orig, 1024)
  {
    LongestWithinSize(kept, text, most);
    assert text == orig[..|text|] && text[..|kept| + 1] == orig[..|kept| + 1];
    hide TextSize, EscapedText;
  }

  // ---------------------------------------------------------------- one long string

  /** The string at this place is over 1024 bytes, and nothing else in the document can be cut. */
  ghost predicate OnlyLongString(root: Value, at: seq<nat>) {
    && at != [] && Has(root, at) && Get(root, at).Str? && TextSize(Get(root, at).text) > 1024
    && forall other: seq<nat> :: other != [] && other != at && Has(root, other) ==> !Cuttable(Get(root, other))
  }

  lemma {:induction false} PutTwice(v: Value, at: seq<nat>, w: Value, x: Value)
    requires Has(v, at)
    ensures Has(Put(v, at, w), at) && Put(Put(v, at, w), at, x) == Put(v, at, x)
    ensures Put(v, at, Get(v, at)) == v
    decreases at
  {
    if at != [] {
      PutTwice(v.kids[at[0]], at[1..], w, x);
      assert v.kids[at[0] := v.kids[at[0]]] == v.kids;
    }
  }

  /** A string in the place of a string changes nothing elsewhere about what can be cut. */
  lemma {:induction false} PutElsewhere(v: Value, at: seq<nat>, t: string, other: seq<nat>)
    requires Has(v, at) && Get(v, at).Str? && other != at && Has(Put(v, at, Str(t)), other)
    ensures Has(v, other) && (Cuttable(Get(Put(v, at, Str(t)), other)) ==> Cuttable(Get(v, other)))
    decreases at
  {
    if at != [] && other != [] && other[0] == at[0] {
      PutElsewhere(v.kids[at[0]], at[1..], t, other[1..]);
    }
  }

  lemma {:induction false} PathAfterPut(v: Value, at: seq<nat>, w: Value, path: string)
    requires Has(v, at)
    ensures Has(Put(v, at, w), at) && PathOf(Put(v, at, w), path, at) == PathOf(v, path, at)
    decreases at
  {
    if at != [] {
      assert ChildPath(Put(v, at, w), path, at[0]) == ChildPath(v, path, at[0]);
      PathAfterPut(v.kids[at[0]], at[1..], w, ChildPath(v, path, at[0]));
    }
  }

  /** orig with its one long string cut to t. */
  function CutTo(orig: Value, at: seq<nat>, t: string): (root: Value)
    requires MapLike(orig) && OnlyLongString(orig, at)
    ensures MapLike(root) && root.names == orig.names
  {
    Put(orig, at, Str(t))
  }

  /** With a prefix in the place of the one long string, that is what is cut while it is long. */
  lemma ChoiceOfOne(orig: Value, at: seq<nat>, t: string)
    requires MapLike(orig) && OnlyLongString(orig, at)
    ensures Has(orig, at) && Choose(CutTo(orig, at, t)) ==
      if TextSize(t) > 1024 then Some(Slot(at, PathOf(orig, "", at), Str(t))) else None
  {
    var root := Put(orig, at, Str(t));
    PutThenGet(orig, at, Str(t));
    PathAfterPut(orig, at, Str(t), "");
    ChoiceIsTheLargest(root);
    forall other: seq<nat> | other != [] && other != at && Has(root, other)
      ensures !Cuttable(Get(root, other))
    {
      PutElsewhere(orig, at, t, other);
    }
    hide Size, Put, TextSize, PathOf;
  }

  function NotedSize(root: Value, bytes: nat, limit: nat, cut: seq<string>): nat
    requires root.Obj?
  {
    Size(root) + EntrySize(NOTE_KEY, Note(bytes, limit, cut), |root.names|)
  }

  /** r is root with its note. */
  ghost predicate Noted(r: Value, root: Value, bytes: nat, limit: nat, cut: seq<string>) {
    && MapLike(r) && Without(r, NOTE_KEY) == root && Lookup(r, NOTE_KEY) == Some(Note(bytes, limit, cut))
    && Size(r) <= limit
  }

  /** One attempt on a document whose one long string is cut to t. */
  lemma AttemptOnOne(orig: Value, at: seq<nat>, t: string, start: Value, cut: seq<string>, bytes: nat, limit: nat)
    returns (kept: string)
    requires MapLike(orig) && OnlyLongString(orig, at) && MapLike(start)
    requires Without(start, NOTE_KEY) == CutTo(orig, at, t)
    ensures var root := CutTo(orig, at, t);
      var excess := NotedSize(root, bytes, limit, cut) - limit;
      var turn := Attempt(Document(start, cut), bytes, limit);
      if excess <= 0 then turn.Done? && Noted(turn.document, root, bytes, limit, cut)
      else if TextSize(t) <= 1024 then turn == Done(Fallback(root, bytes, limit))
      else
        && LongestWithin(kept, t, Max(1024, TextSize(t) - excess))
        && turn == Again(Document(CutTo(orig, at, kept), Record(cut, PathOf(orig, "", at))))
  {
    hide *;
    kept := t;
    var root := CutTo(orig, at, t);
    NotedAttempt(start, root, cut, bytes, limit);
    var excess := NotedSize(root, bytes, limit, cut) - limit;
    if excess > 0 {
      ChoiceOfOne(orig, at, t);
      NothingToCut(Document(root, cut), excess);
      if TextSize(t) > 1024 {
        kept := CutOfOne(orig, at, t, cut, excess);
      }
    }
  }

  /** One attempt on a document that is root but for its note. */
  lemma NotedAttempt(start: Value, root: Value, cut: seq<string>, bytes: nat, limit: nat)
    requires MapLike(start) && Without(start, NOTE_KEY) == root
    ensures root.Obj? && MapLike(root)
    ensures NotedSize(root, bytes, limit, cut) <= limit ==>
      var turn := Attempt(Document(start, cut), bytes, limit);
      turn.Done? && Noted(turn.document, root, bytes, limit, cut)
    ensures NotedSize(root, bytes, limit, cut) > limit ==>
      Attempt(Document(start, cut), bytes, limit) ==
        match Shorten(Document(root, cut), NotedSize(root, bytes, limit, cut) - limit)
        case None => Done(Fallback(root, bytes, limit))
        case Some(next) => Again(next)
  {
    var doc := Document(start, cut);
    hide *;
    WithoutIsMap(start, root);
    ExcessIs(start, root, cut, bytes, limit);
    if Excess(doc, bytes, limit) <= 0 {
      NotedFits(start, root, cut, bytes, limit);
    }
    AttemptIs(doc, bytes, limit);
  }

  lemma WithoutIsMap(start: Value, root: Value)
    requires MapLike(start) && Without(start, NOTE_KEY) == root
    ensures root.Obj? && MapLike(root)
  {
    DeleteKey(start, NOTE_KEY);
  }

  lemma ExcessIs(start: Value, root: Value, cut: seq<string>, bytes: nat, limit: nat)
    requires MapLike(start) && Without(start, NOTE_KEY) == root
    ensures root.Obj? && Excess(Document(start, cut), bytes, limit) == NotedSize(root, bytes, limit, cut) - limit
    ensures Bare(Document(start, cut), bytes, limit) == Document(root, cut)
  {
    SetKeySize(start, NOTE_KEY, Note(bytes, limit, cut));
    hide Note, Size, WithKey, MapLike, EntrySize;
  }

  lemma NotedFits(start: Value, root: Value, cut: seq<string>, bytes: nat, limit: nat)
    requires MapLike(start) && Without(start, NOTE_KEY) == root && Excess(Document(start, cut), bytes, limit) <= 0
    ensures Noted(WithKey(start, NOTE_KEY, Note(bytes, limit, cut)), root, bytes, limit, cut)
  {
    NotedRoot(start, Note(bytes, limit, cut));
    hide Note, Size, WithKey, MapLike, Without, Lookup;
  }

  lemma NotedRoot(start: Value, note: Value)
    requires MapLike(start)
    ensures var r := WithKey(start, NOTE_KEY, note);
      MapLike(r) && Without(r, NOTE_KEY) == Without(start, NOTE_KEY) && Lookup(r, NOTE_KEY) == Some(note)
  {
    SetThenDelete(start, NOTE_KEY, note);
  }

  lemma CutOfOne(orig: Value, at: seq<nat>, t: string, cut: seq<string>, excess: nat) returns (kept: string)
    requires MapLike(orig) && OnlyLongString(orig, at) && excess > 0 && TextSize(t) > 1024
    ensures Has(orig, at)
      && LongestWithin(kept, t, Max(1024, TextSize(t) - excess))
      && Shorten(Document(CutTo(orig, at, t), cut), excess) ==
           Some(Document(CutTo(orig, at, kept), Record(cut, PathOf(orig, "", at))))
  {
    assert LongString(Str(t));
    hide *;
    ChoiceOfOne(orig, at, t);
    CutDownIsLongest(Str(t), excess);
    ShortenOne(orig, at, t, cut, excess, CutDown(Str(t), excess));
    kept := CutDown(Str(t), excess).text;
  }

  lemma ShortenOne(orig: Value, at: seq<nat>, t: string, cut: seq<string>, excess: nat, w: Value)
    requires MapLike(orig) && OnlyLongString(orig, at) && excess > 0 && LongString(Str(t))
    requires w == CutDown(Str(t), excess) && w.Str?
    requires Has(orig, at) && Choose(CutTo(orig, at, t)) == Some(Slot(at, PathOf(orig, "", at), Str(t)))
    ensures Shorten(Document(CutTo(orig, at, t), cut), excess) ==
      Some(Document(CutTo(orig, at, w.text), Record(cut, PathOf(orig, "", at))))
  {
    PutTwice(orig, at, Str(t), w);
    hide Put, Choose, PathOf, TextSize, CutDown, OnlyLongString, Record, Has, LongString, MapLike;
  }

  function TextAt(orig: Value, at: seq<nat>): string
    requires OnlyLongString(orig, at)
  {
    Get(orig, at).text
  }

  /** The encoded size with the string cut to t and its path in the note. */
  function ListedSize(orig: Value, at: seq<nat>, t: string, bytes: nat, limit: nat): nat
    requires MapLike(orig) && OnlyLongString(orig, at)
  {
    NotedSize(CutTo(orig, at, t), bytes, limit, [PathOf(orig, "", at)])
  }

  /** r is orig with its one long string cut to t, and the note. It kept all but the excess that orig has
      with that note, up to three bytes; or it is the last resort, and no cut to the floor fits. */
  ghost predicate KeepsAllButTheExcess(orig: Value, at: seq<nat>, t: string, r: Value, bytes: nat, limit: nat)
    requires MapLike(orig) && OnlyLongString(orig, at)
  {
    var text := TextAt(orig, at);
    && t <= text && t != text
    && if ListedSize(orig, at, t, bytes, limit) <= limit then
         && Noted(r, CutTo(orig, at, t), bytes, limit, [PathOf(orig, "", at)])
         && TextSize(t) + 3 >= Max(1024, TextSize(text) - (ListedSize(orig, at, text, bytes, limit) - limit))
       else
         LongestWithin(t, text, 1024) && r == Fallback(CutTo(orig, at, t), bytes, limit)
  }

  lemma NoteOfOneCut(root: Value, path: string, bytes: nat, limit: nat)
    requires root.Obj?
    ensures NotedSize(root, bytes, limit, []) <= NotedSize(root, bytes, limit, [path])
  {
    NoteSizeOf(bytes, limit, []);
    NoteSizeOf(bytes, limit, [path]);
    hide Note, Size;
    assert Size(Arr(Strings([]))) <= Size(Arr(Strings([path]))) by { ListOfOne(path); }
  }

  lemma ListOfOne(path: string)
    ensures Size(Arr(Strings([]))) <= Size(Arr(Strings([path])))
  {
  }

  /** A cut of the one long string shortens the encoding by what it takes. */
  lemma CutSize(orig: Value, at: seq<nat>, t: string, bytes: nat, limit: nat)
    requires MapLike(orig) && OnlyLongString(orig, at)
    ensures var text := TextAt(orig, at);
      ListedSize(orig, at, t, bytes, limit) + EscapedText(text) ==
        ListedSize(orig, at, text, bytes, limit) + EscapedText(t)
  {
    var text := TextAt(orig, at);
    PutSize(orig, at, Str(t));
    PutSize(orig, at, Str(text));
    assert Size(Str(t)) == Quoted(t) && Size(Str(text)) == Quoted(text);
    hide Note, Size, Put, Get, EntrySize, EscapedText, OnlyLongString;
  }

  /** The one long string was cut to t, and keeps all but the excess. */
  ghost predicate CutOnce(orig: Value, at: seq<nat>, t: string, bytes: nat, limit: nat)
    requires MapLike(orig) && OnlyLongString(orig, at)
  {
    var text := TextAt(orig, at);
    && t <= text && t != text
    && TextSize(t) + 3 >= Max(1024, TextSize(text) - (ListedSize(orig, at, text, bytes, limit) - limit))
    && (TextSize(t) <= 1024 ==> LongestWithin(t, text, 1024))
  }

  lemma TurnFacts(orig: Value, at: seq<nat>, t: string, bytes: nat, limit: nat)
    requires MapLike(orig) && NOTE_KEY !in orig.names && OnlyLongString(orig, at)
    ensures Has(orig, at)
    ensures var root, cut := CutTo(orig, at, t), [PathOf(orig, "", at)];
      && ListedSize(orig, at, t, bytes, limit) == NotedSize(root, bytes, limit, cut)
      && Record(cut, cut[0]) == cut && Without(root, NOTE_KEY) == root
  {
    DeleteMissing(CutTo(orig, at, t), NOTE_KEY);
    hide NotedSize, Without, OnlyLongString, MapLike, PathOf;
  }

  lemma PlaceFacts(orig: Value, at: seq<nat>)
    requires MapLike(orig) && OnlyLongString(orig, at)
    ensures orig.Obj? && Has(orig, at) && 3 < MAX_ATTEMPTS
  {
  }

  /** One more turn of the loop. */
  lemma OneTurn(orig: Value, at: seq<nat>, t: string, bytes: nat, limit: nat, attempt: nat) returns (kept: string)
    requires MapLike(orig) && NOTE_KEY !in orig.names && OnlyLongString(orig, at) && attempt < MAX_ATTEMPTS
    ensures var root, cut := CutTo(orig, at, t), [PathOf(orig, "", at)];
      var excess := ListedSize(orig, at, t, bytes, limit) - limit;
      var r := FitFrom(Document(root, cut), bytes, limit, attempt);
      if excess <= 0 then Noted(r, root, bytes, limit, cut)
      else if TextSize(t) <= 1024 then r == Fallback(root, bytes, limit)
      else
        && LongestWithin(kept, t, Max(1024, TextSize(t) - excess))
        && r == FitFrom(Document(CutTo(orig, at, kept), cut), bytes, limit, attempt + 1)
  {
    hide *;
    TurnFacts(orig, at, t, bytes, limit);
    var root, cut := CutTo(orig, at, t), [PathOf(orig, "", at)];
    FitUnfolds(Document(root, cut), bytes, limit, attempt);
    kept := AttemptOnOne(orig, at, t, root, cut, bytes, limit);
  }

  lemma StopsAfterACut(orig: Value, at: seq<nat>, t: string, r: Value, bytes: nat, limit: nat)
    requires MapLike(orig) && OnlyLongString(orig, at) && CutOnce(orig, at, t, bytes, limit)
    requires if ListedSize(orig, at, t, bytes, limit) <= limit
      then Noted(r, CutTo(orig, at, t), bytes, limit, [PathOf(orig, "", at)])
      else TextSize(t) <= 1024 && r == Fallback(CutTo(orig, at, t), bytes, limit)
    ensures KeepsAllButTheExcess(orig, at, t, r, bytes, limit)
  {
    hide OnlyLongString, MapLike, ListedSize, CutTo, PathOf, TextSize, LongestWithin, Noted, TextAt, Fallback;
  }

  /** After the first cut, or after one more. */
  lemma {:induction false} FromACut(orig: Value, at: seq<nat>, t: string, bytes: nat, limit: nat, attempt: nat)
    returns (kept: string)
    requires MapLike(orig) && NOTE_KEY !in orig.names && OnlyLongString(orig, at)
    requires CutOnce(orig, at, t, bytes, limit) && 1 <= attempt <= 2
    requires attempt == 1 || TextSize(t) <= 1024 || ListedSize(orig, at, t, bytes, limit) <= limit
    ensures var r := FitFrom(Document(CutTo(orig, at, t), [PathOf(orig, "", at)]), bytes, limit, attempt);
      KeepsAllButTheExcess(orig, at, kept, r, bytes, limit)
    decreases 2 - attempt
  {
    hide *;
    PlaceFacts(orig, at);
    kept := OneTurn(orig, at, t, bytes, limit, attempt);
    if ListedSize(orig, at, t, bytes, limit) <= limit || TextSize(t) <= 1024 {
      kept := t;
      var r := FitFrom(Document(CutTo(orig, at, t), [PathOf(orig, "", at)]), bytes, limit, attempt);
      StopsAfterACut(orig, at, t, r, bytes, limit);
    } else {
      SecondCut(orig, at, t, kept, bytes, limit);
      kept := FromACut(orig, at, kept, bytes, limit, attempt + 1);
    }
  }

  lemma SecondCut(orig: Value, at: seq<nat>, t: string, kept: string, bytes: nat, limit: nat)
    requires MapLike(orig) && OnlyLongString(orig, at) && CutOnce(orig, at, t, bytes, limit) && TextSize(t) > 1024
    requires var excess := ListedSize(orig, at, t, bytes, limit) - limit;
      excess > 0 && LongestWithin(kept, t, Max(1024, TextSize(t) - excess))
    ensures CutOnce(orig, at, kept, bytes, limit)
    ensures TextSize(kept) <= 1024 || ListedSize(orig, at, kept, bytes, limit) <= limit
  {
    hide OnlyLongString, ListedSize, MapLike, TextSize, EscapedText, TextAt;
    var text := TextAt(orig, at);
    var excess := ListedSize(orig, at, t, bytes, limit) - limit;
    var most := Max(1024, TextSize(t) - excess);
    LongestWithinSize(kept, t, most);
    LongestWithinTwice(kept, t, text, most);
    PrefixSize(t, text);
    PrefixSize(kept, t);
    CutSize(orig, at, t, bytes, limit);
    CutSize(orig, at, kept, bytes, limit);
  }

  /** What fitResult leaves of a document in which one string is over 1024 bytes and nothing else can be
      cut: all of it when that fits with a note; else a prefix of that string that keeps all but the
      excess, up to three bytes, and never fewer than 1021 bytes; else, when no cut to the floor fits,
      the last resort. */
  lemma OneStringKeepsAllButTheExcess(decoded: Option<Value>, bytes: nat, limit: nat, at: seq<nat>)
    returns (kept: string)
    requires Decodes(decoded) && OnlyLongString(Without(Start(decoded), NOTE_KEY), at)
    ensures var orig := Without(Start(decoded), NOTE_KEY);
      var r := FitFrom(Document(Start(decoded), []), bytes, limit, 0);
      && MapLike(orig)
      && if NotedSize(orig, bytes, limit, []) <= limit then Noted(r, orig, bytes, limit, [])
         else KeepsAllButTheExcess(orig, at, kept, r, bytes, limit)
  {
    hide *;
    StartFacts(decoded, at);
    kept := FromTheStart(Without(Start(decoded), NOTE_KEY), at, Start(decoded), bytes, limit);
  }

  lemma FromTheStart(orig: Value, at: seq<nat>, start: Value, bytes: nat, limit: nat) returns (kept: string)
    requires MapLike(orig) && NOTE_KEY !in orig.names && OnlyLongString(orig, at)
    requires MapLike(start) && Without(start, NOTE_KEY) == orig == CutTo(orig, at, TextAt(orig, at))
    requires TextSize(TextAt(orig, at)) > 1024
    ensures var r := FitFrom(Document(start, []), bytes, limit, 0);
      if NotedSize(orig, bytes, limit, []) <= limit then Noted(r, orig, bytes, limit, [])
      else KeepsAllButTheExcess(orig, at, kept, r, bytes, limit)
  {
    hide *;
    PlaceFacts(orig, at);
    RecordOne(PathOf(orig, "", at));
    FitUnfolds(Document(start, []), bytes, limit, 0);
    kept := AttemptOnOne(orig, at, TextAt(orig, at), start, [], bytes, limit);
    if NotedSize(orig, bytes, limit, []) > limit {
      FirstCut(orig, at, kept, bytes, limit);
      kept := FromACut(orig, at, kept, bytes, limit, 1);
    }
  }

  lemma RecordOne(path: string)
    ensures Record([], path) == [path]
  {
  }

  lemma StartFacts(decoded: Option<Value>, at: seq<nat>)
    requires Decodes(decoded) && OnlyLongString(Without(Start(decoded), NOTE_KEY), at)
    ensures MapLike(Start(decoded)) && Start(decoded).Obj?
    ensures |Start(decoded).names| == |Start(decoded).kids|
    ensures var orig := Without(Start(decoded), NOTE_KEY);
      && MapLike(orig) && NOTE_KEY !in orig.names && Has(orig, at)
      && CutTo(orig, at, TextAt(orig, at)) == orig && TextSize(TextAt(orig, at)) > 1024
  {
    var orig := Without(Start(decoded), NOTE_KEY);
    DeleteKey(Start(decoded), NOTE_KEY);
    PutTwice(orig, at, Get(orig, at), Get(orig, at));
    hide PathOf, Without, Put, TextSize;
  }

  lemma FirstCut(orig: Value, at: seq<nat>, t: string, bytes: nat, limit: nat)
    requires MapLike(orig) && OnlyLongString(orig, at)
    requires var excess := NotedSize(orig, bytes, limit, []) - limit;
      var text := TextAt(orig, at);
      excess > 0 && LongestWithin(t, text, Max(1024, TextSize(text) - excess))
    ensures CutOnce(orig, at, t, bytes, limit)
  {
    hide NotedSize, ListedSize, OnlyLongString, TextAt, TextSize, MapLike, CutOnce, LongestWithin;
    var text := TextAt(orig, at);
    assert orig.Obj? by { WholeSize(orig, at, bytes, limit); }
    var excess, later := NotedSize(orig, bytes, limit, []) - limit, ListedSize(orig, at, text, bytes, limit) - limit;
    assert excess <= later && TextSize(text) > 1024 by { WholeSize(orig, at, bytes, limit); }
    var most := Max(1024, TextSize(text) - excess);
    LongestWithinSize(t, text, most);
    LongestWithinTwice(t, text, text, most);
    assert most >= Max(1024, TextSize(text) - later);
    CutOnceIs(orig, at, t, bytes, limit);
  }

  lemma CutOnceIs(orig: Value, at: seq<nat>, t: string, bytes: nat, limit: nat)
    requires MapLike(orig) && OnlyLongString(orig, at)
    requires var text := TextAt(orig, at);
      && t <= text && t != text && (TextSize(t) <= 1024 ==> LongestWithin(t, text, 1024))
      && TextSize(t) + 3 >= Max(1024, TextSize(text) - (ListedSize(orig, at, text, bytes, limit) - limit))
    ensures CutOnce(orig, at, t, bytes, limit)
  {
  }

  lemma WholeSize(orig: Value, at: seq<nat>, bytes: nat, limit: nat)
    requires MapLike(orig) && OnlyLongString(orig, at)
    ensures orig.Obj? && NotedSize(orig, bytes, limit, []) <= ListedSize(orig, at, TextAt(orig, at), bytes, limit)
    ensures TextSize(TextAt(orig, at)) > 1024
  {
    var text := TextAt(orig, at);
    PutTwice(orig, at, Str(text), Str(text));
    NoteOfOneCut(orig, PathOf(orig, "", at), bytes, limit);
    hide NotedSize, TextSize, Put, PathOf;
  }
}
