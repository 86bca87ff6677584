/** How far fitResult shrinks a result: each cut, the result limit, and the cap on attempts. */
module FitBounds {
  import opened Basics
  import opened Json
  import opened FitResult
  import opened FitSizes
  import opened FitTheorems

  // ---------------------------------------------------------------- one cut

  /** Each cut leaves fewer string bytes and list entries, so cutting ends by itself. */
  lemma BulkFalls(doc: Document, excess: nat)
    requires excess > 0 && Shorten(doc, excess).Some?
    ensures Bulk(Shorten(doc, excess).value.root) < Bulk(doc.root)
  {
    var slot := Choose(doc.root).value;
    var w := CutDown(slot.value, excess);
    PutSize(doc.root, slot.at, w);
    CutBulk(slot.value, w);
  }

  lemma CutBulk(v: Value, w: Value)
    requires LocalCut(v, w)
    ensures Bulk(w) < Bulk(v)
  {
    if v.Str? {
      assert v.text == w.text + v.text[|w.text|..];
      TextSizeSplit(w.text, v.text[|w.text|..]);
    } else {
      assert v.kids == w.kids + v.kids[|w.kids|..];
      TotalAllSplit(OwnBulk, w.kids, v.kids[|w.kids|..]);
    }
  }

  /** Nothing is left to cut exactly when no string is over the floor and every list is empty. */
  lemma NothingLeft(doc: Document, excess: nat)
    requires excess > 0
    ensures Shorten(doc, excess).None? <==>
      forall at: seq<nat> :: at != [] && Has(doc.root, at) ==>
        !LongString(Get(doc.root, at)) && !NonEmptyList(Get(doc.root, at))
  {
    var slots := Slots(doc.root, [], "");
    VisitorFindsTheExtremes(slots);
    if Shorten(doc, excess).None? {
      forall at: seq<nat> | at != [] && Has(doc.root, at)
        ensures !LongString(Get(doc.root, at)) && !NonEmptyList(Get(doc.root, at))
      {
        EveryValueHasASlot(doc.root, [], "", at);
        assert Slot([] + at, PathOf(doc.root, "", at), Get(doc.root, at)) in slots;
      }
    } else {
      var slot := Choose(doc.root).value;
      assert LongString(Get(doc.root, slot.at)) || NonEmptyList(Get(doc.root, slot.at));
    }
  }

  /** A cut of the longest string removes at least excess encoded bytes unless it stops at the floor. */
  lemma StringCutRemovesEnough(root: Value, excess: nat)
    requires excess > 0 && Choose(root).Some? && Choose(root).value.value.Str?
    requires TextSize(Choose(root).value.value.text) - excess >= MIN_CUT_STRING
    ensures Size(Shorten(Document(root, []), excess).value.root) + excess <= Size(root)
  {
    var slot := Choose(root).value;
    var text := slot.value.text;
    var w := CutDown(slot.value, excess);
    PutSize(root, slot.at, w);
    assert text == w.text + text[|w.text|..];
    TextSizeSplit(w.text, text[|w.text|..]);
    EscapedTextSplit(w.text, text[|w.text|..]);
  }

  /** A cut of the largest list removes exactly the bytes it counted, but one byte less when it
      empties the list, because the last entry has no comma. */
  lemma ListCutRemovesWhatItCounted(root: Value, excess: nat)
    requires excess > 0 && Choose(root).Some? && Choose(root).value.value.Arr?
    ensures var items := Choose(root).value.value.kids;
      var keep := KeptItems(items, excess);
      var removed := Size(root) - Size(Shorten(Document(root, []), excess).value.root);
      && removed == Counted(items, keep) - (if keep == 0 then 1 else 0)
      && (removed >= excess <==> keep > 0 || Counted(items, 0) > excess)
  {
    var slot := Choose(root).value;
    var items := slot.value.kids;
    var keep := KeptItems(items, excess);
    PutSize(root, slot.at, Arr(items[..keep]));
    assert items == items[..keep] + items[keep..];
    TotalAllSplit(Shell, items[..keep], items[keep..]);
  }

  // ---------------------------------------------------------------- the result limit

  /** Bytes of the last resort around the value of ok. */
  function Overhead(bytes: nat, limit: nat): nat {
    58 + |Decimal(bytes)| + |Decimal(limit)|
  }

  /** A character that is encoded as itself in one byte. */
  predicate Plain(c: char) {
    var r := c as int;
    0x20 <= r < 0x7F && c != '\"' && c != '\\' && c != '<' && c != '>' && c != '&'
  }

  lemma {:induction false} PlainText(s: string)
    requires forall i :: 0 <= i < |s| ==> Plain(s[i])
    ensures EscapedText(s) == |s|
  {
    if s != "" { PlainText(s[1..]); }
  }

  ghost predicate PlainString(s: string) {
    forall i :: 0 <= i < |s| ==> Plain(s[i])
  }

  lemma PlainNames(a: string, b: string, c: string)
    requires PlainString(a) && PlainString(b) && PlainString(c)
    ensures NamesSize([a]) == |a| + 3
    ensures NamesSize([a, b]) == |a| + |b| + 6
    ensures NamesSize([a, b, c]) == |a| + |b| + |c| + 9
  {
    PlainText(a);
    PlainText(b);
    PlainText(c);
    assert [a][1..] == [] && [b][1..] == [] && [c][1..] == [] && [a, b][1..] == [b] && [b, c][1..] == [c];
    assert NamesSize([c]) == |c| + 3;
    assert NamesSize([b, c]) == |b| + |c| + 6;
    assert [a, b, c][1..] == [b, c];
  }

  lemma TotalAllOf(own: Value -> nat, a: Value, b: Value, c: Value)
    ensures TotalAll(own, [a]) == Total(own, a)
    ensures TotalAll(own, [a, b]) == Total(own, a) + Total(own, b)
    ensures TotalAll(own, [a, b, c]) == Total(own, a) + Total(own, b) + Total(own, c)
  {
    assert [a, b][1..] == [b] && [a][1..] == [] && [b][1..] == [] && [c][1..] == [];
    assert [a, b, c] == [a, b] + [c];
    TotalAllSplit(own, [a, b], [c]);
  }

  lemma ObjectSize(names: seq<string>, a: Value, b: Value, c: Value)
    ensures Size(Obj(names, [a])) == 2 + NamesSize(names) + Size(a)
    ensures Size(Obj(names, [a, b])) == 3 + NamesSize(names) + Size(a) + Size(b)
    ensures Size(Obj(names, [a, b, c])) == 4 + NamesSize(names) + Size(a) + Size(b) + Size(c)
  {
    TotalAllOf(Shell, a, b, c);
  }

  lemma NoteSizeOf(bytes: nat, limit: nat, cut: seq<string>)
    ensures Size(Note(bytes, limit, cut)) == 26 + |Decimal(bytes)| + |Decimal(limit)| + Size(Arr(Strings(cut)))
  {
    var b, c, l := Number(Decimal(bytes)), Arr(Strings(cut)), Number(Decimal(limit));
    PlainNames("bytes", "cut", "limit");
    ObjectSize(["bytes", "cut", "limit"], b, c, l);
    assert Note(bytes, limit, cut).kids == [b, c, l];
  }

  lemma NoteSize(bytes: nat, limit: nat, star: string)
    requires star == "*"
    ensures Size(Note(bytes, limit, [star])) == 31 + |Decimal(bytes)| + |Decimal(limit)|
  {
    PlainText(star);
    TotalAllOf(Shell, Str(star), Null, Null);
    assert Strings([star]) == [Str(star)] && Size(Arr(Strings([star]))) == 5;
    NoteSizeOf(bytes, limit, [star]);
    hide Note;
  }

  lemma FallbackSize(root: Value, bytes: nat, limit: nat)
    requires MapLike(root)
    ensures Size(Fallback(root, bytes, limit))
         == Overhead(bytes, limit) + if Lookup(root, "ok").Some? then Size(Lookup(root, "ok").value) else 4
  {
    var ok := Lookup(root, "ok");
    var okValue := if ok.Some? then ok.value else Null;
    var note := Note(bytes, limit, ["*"]);
    NullSize();
    FallbackParts(okValue, note, "ok", NOTE_KEY);
    NoteSize(bytes, limit, "*");
    hide Note, Lookup, Size, NamesSize;
  }

  lemma NullSize()
    ensures Size(Null) == 4
  {
  }

  lemma FallbackParts(ok: Value, note: Value, okKey: string, noteKey: string)
    requires okKey == "ok" && noteKey == NOTE_KEY
    ensures Size(Obj([okKey, noteKey], [ok, note])) == 27 + Size(ok) + Size(note)
  {
    assert |okKey| == 2 && |noteKey| == 16;
    PlainNames(okKey, noteKey, okKey);
    ObjectSize([okKey, noteKey], ok, note, Null);
    hide *;
  }

  /** The value of ok that a last resort for orig can hold. */
  function OkSize(orig: Value): nat
    requires orig.Obj? && |orig.names| == |orig.kids|
  {
    if Lookup(orig, "ok").Some? then Size(Lookup(orig, "ok").value) else 4
  }

  lemma OkOnlyShrinks(orig: Value, root: Value, cut: seq<string>)
    requires MapLike(orig) && MapLike(root) && root.names == orig.names && Trimmed(orig, root, "", cut)
    ensures OkSize(root) <= OkSize(orig)
    ensures Lookup(orig, "ok").Some? && !Branch(Lookup(orig, "ok").value) && !LongString(Lookup(orig, "ok").value) ==>
      Lookup(root, "ok") == Lookup(orig, "ok")
  {
    var i := IndexOf(orig.names, "ok");
    if i < |orig.names| {
      TrimmedSize(orig.kids[i], root.kids[i], ChildPath(orig, "", i), cut);
    }
  }

  /** Every result fits the limit when the original's ok leaves room for the note. */
  lemma ResultFits(decoded: Option<Value>, bytes: nat, limit: nat)
    requires Decodes(decoded)
    requires OkSize(Without(Start(decoded), NOTE_KEY)) + Overhead(bytes, limit) <= limit
    ensures Size(FitFrom(Document(Start(decoded), []), bytes, limit, 0)) <= limit
  {
    var orig := Without(Start(decoded), NOTE_KEY);
    var r := FitFrom(Document(Start(decoded), []), bytes, limit, 0);
    ResultIsExplained(decoded, bytes, limit);
    if r_root: Value, cut: seq<string> :| GaveUp(orig, r, bytes, limit, r_root, cut) {
      FallbackSize(r_root, bytes, limit);
      OkOnlyShrinks(orig, r_root, cut);
    }
  }

  lemma {:induction false} DecimalLength(n: nat, digits: nat, bound: nat)
    requires digits > 0 && n < bound && bound == Power10(digits)
    ensures |Decimal(n)| <= digits
    decreases digits
  {
    if n >= 10 {
      DecimalLength(n / 10, digits - 1, Power10(digits - 1));
    }
  }

  function Power10(k: nat): nat {
    if k == 0 then 1 else 10 * Power10(k - 1)
  }

  /** With the limits newMCPServer accepts, every result with the ok of a server answer fits. */
  lemma ServerResultFits(decoded: Option<Value>, bytes: nat, limit: nat)
    requires Decodes(decoded) && 4096 <= limit <= 4194304 && bytes < 0x8000_0000_0000_0000
    requires var ok := Lookup(Without(Start(decoded), NOTE_KEY), "ok"); ok.None? || ok.value.Null? || ok.value.Bool?
    ensures Size(FitFrom(Document(Start(decoded), []), bytes, limit, 0)) <= limit
  {
    assert Power10(19) == 10_000_000_000_000_000_000 by { PowersOfTen(); }
    assert Power10(7) == 10_000_000 by { PowersOfTen(); }
    DecimalLength(bytes, 19, Power10(19));
    DecimalLength(limit, 7, Power10(7));
    ResultFits(decoded, bytes, limit);
  }

  lemma PowersOfTen()
    ensures Power10(7) == 10_000_000 && Power10(19) == 10_000_000_000_000_000_000
  {
    assert Power10(4) == 10_000;
    assert Power10(7) == 10_000_000;
    assert Power10(10) == 10_000_000_000;
    assert Power10(13) == 10_000_000_000_000;
    assert Power10(16) == 10_000_000_000_000_000;
  }

  /** The original has an ok that no cut changes. */
  predicate HasFixedOk(orig: Value)
    requires orig.Obj? && |orig.names| == |orig.kids|
  {
    var ok := Lookup(orig, "ok");
    ok.Some? && !Branch(ok.value) && !LongString(ok.value)
  }

  lemma EntryTakesRoom(v: Value)
    requires MapLike(v)
    ensures if v.names == [] then Size(v) == 2 else Size(v) >= 5
  {
    assert Size(v) == Shell(v) + TotalAll(Shell, v.kids);
    assert v.names == [] ==> v.kids == [] && NamesSize(v.names) == 0;
    assert v.names != [] ==> NamesSize(v.names) >= 3;
  }

  lemma FixedOkStays(orig: Value, now: Value, cut: seq<string>)
    requires MapLike(orig) && MapLike(now) && HasFixedOk(orig) && Trimmed(orig, now, "", cut)
    ensures now.names == orig.names && Lookup(now, "ok") == Lookup(orig, "ok")
  {
    var i := IndexOf(orig.names, "ok");
    assert Trimmed(orig.kids[i], now.kids[i], ChildPath(orig, "", i), cut);
  }

  lemma KeysArePlain()
    ensures |"ok"| == 2 && PlainString("ok") && |NOTE_KEY| == 16 && PlainString(NOTE_KEY)
  {
  }

  lemma OkEntries(now: Value, r: Value, note: Value, okKey: string, noteKey: string)
    requires |okKey| == 2 && PlainString(okKey) && |noteKey| == 16 && PlainString(noteKey)
    requires MapLike(now) && MapLike(r) && Lookup(now, okKey).Some? && Lookup(r, noteKey) == Some(note)
      && Without(r, noteKey) == now
    ensures |now.names| == 1 ==> Size(r) == 27 + Size(Lookup(now, okKey).value) + Size(note)
    ensures |now.names| > 1 ==> Size(r) >= 30 + Size(Lookup(now, okKey).value) + Size(note)
  {
    hide *;
    KeySizes(now, r, note, okKey, noteKey);
    PlainQuoted(okKey);
    PlainQuoted(noteKey);
  }

  lemma PlainQuoted(s: string)
    requires PlainString(s)
    ensures Quoted(s) == |s| + 2
  {
    PlainText(s);
  }

  /** A note and another key add their entries to what else there is. */
  lemma KeySizes(now: Value, r: Value, note: Value, key: string, noteKey: string)
    requires MapLike(now) && MapLike(r) && Lookup(now, key).Some? && Lookup(r, noteKey) == Some(note)
      && Without(r, noteKey) == now
    ensures var value := Lookup(now, key).value;
      var around := Quoted(key) + Quoted(noteKey) + 3 + Size(value) + Size(note);
      && (|now.names| == 1 ==> Size(r) == around + 2)
      && (|now.names| > 1 ==> Size(r) >= around + 5)
  {
    DeleteKey(r, noteKey);
    DeleteKey(now, key);
    KeySize(r, noteKey);
    KeySize(now, key);
    EntryTakesRoom(Without(now, key));
    assert |r.names| == |now.names| + 1 && |Without(now, key).names| == |now.names| - 1;
    hide Size, Lookup, Without, MapLike, Quoted;
  }

  lemma NothingCutInOk(orig: Value, now: Value, at: seq<nat>, path: string)
    requires MapLike(orig) && MapLike(now) && |orig.names| == 1 && now.kids == orig.kids
    requires !Branch(orig.kids[0])
    ensures !ReallyCut(orig, now, at, path)
  {
    if at != [] && Has(orig, at) {
      assert at[0] == 0 && Has(orig.kids[0], at[1..]) && Kids(orig.kids[0]) == [];
      assert at[1..] == [];
    }
  }

  /** Nothing is listed as cut in a document with nothing but a fixed ok. */
  lemma OnlyOkIsUncut(orig: Value, now: Value, cut: seq<string>)
    requires MapLike(orig) && MapLike(now) && HasFixedOk(orig) && |orig.names| == 1
    requires Trimmed(orig, now, "", cut) && Accurate(orig, now, cut)
    ensures cut == []
  {
    FixedOkStays(orig, now, cut);
    assert IndexOf(orig.names, "ok") == 0 && now.kids == orig.kids;
    forall at: seq<nat>, path | ReallyCut(orig, now, at, path) ensures false {
      NothingCutInOk(orig, now, at, path);
    }
    var p := if cut == [] then "" else cut[0];
    assert cut == [] || p in cut;
  }

  lemma CutListSize(cut: seq<string>)
    ensures Size(Arr(Strings(cut))) >= 2 && (cut == [] ==> Size(Arr(Strings(cut))) == 2)
  {
    var list := Arr(Strings(cut));
    assert Size(list) == Shell(list) + TotalAll(Shell, list.kids);
    assert cut == [] ==> list.kids == [];
  }

  /** The bytes of a noted result with a fixed ok. */
  lemma NotedResultSize(orig: Value, r: Value, bytes: nat, limit: nat, cut: seq<string>)
    requires MapLike(orig) && HasFixedOk(orig) && CutWhereNoted(orig, r, bytes, limit, cut)
    ensures if |orig.names| == 1 then Size(r) + 3 == OkSize(orig) + Overhead(bytes, limit)
            else Size(r) >= OkSize(orig) + Overhead(bytes, limit)
  {
    assert |orig.names| >= 1 && OkSize(orig) == Size(Lookup(orig, "ok").value);
    hide Size, Trimmed, Accurate, Note, Lookup, Without;
    var now := Without(r, NOTE_KEY);
    DeleteKey(r, NOTE_KEY);
    FixedOkStays(orig, now, cut);
    KeysArePlain();
    OkEntries(now, r, Note(bytes, limit, cut), "ok", NOTE_KEY);
    NoteSizeOf(bytes, limit, cut);
    CutListSize(cut);
    if |orig.names| == 1 {
      OnlyOkIsUncut(orig, now, cut);
    }
  }

  /** A document with nothing but a fixed ok fits at once with a note that lists no cut. */
  lemma OnlyOkFitsAtOnce(decoded: Option<Value>, bytes: nat, limit: nat)
    requires Decodes(decoded)
    requires var orig := Without(Start(decoded), NOTE_KEY);
      |orig.names| == 1 && HasFixedOk(orig) && OkSize(orig) + Overhead(bytes, limit) <= limit + 3
    ensures Size(FitFrom(Document(Start(decoded), []), bytes, limit, 0)) <= limit
  {
    var start, note := Start(decoded), Note(bytes, limit, []);
    var orig, noted := Without(start, NOTE_KEY), WithKey(start, NOTE_KEY, note);
    SetThenDelete(start, NOTE_KEY, note);
    assert OkSize(orig) == Size(Lookup(orig, "ok").value);
    assert MapLike(start);
    FirstAttemptFits(start, noted, note, bytes, limit);
    hide *;
    KeysArePlain();
    OkEntries(orig, noted, note, "ok", NOTE_KEY);
    NoteSizeOf(bytes, limit, []);
    CutListSize([]);
    OverheadIs(bytes, limit);
  }

  lemma OverheadIs(bytes: nat, limit: nat)
    ensures Overhead(bytes, limit) == 58 + |Decimal(bytes)| + |Decimal(limit)|
  {
  }

  lemma FirstAttemptFits(start: Value, noted: Value, note: Value, bytes: nat, limit: nat)
    requires MapLike(start) && note == Note(bytes, limit, []) && noted == WithKey(start, NOTE_KEY, note)
    ensures Size(noted) <= limit ==> FitFrom(Document(start, []), bytes, limit, 0) == noted
  {
    FitUnfolds(Document(start, []), bytes, limit, 0);
    hide Size, Note, WithKey;
  }

  /** With an ok that no cut changes, every result fits if and only if ok and the note of the last resort
      do, or nothing but ok is there and it fits with a note that lists no cut, which is three bytes less. */
  lemma ResultFitsExactly(decoded: Option<Value>, bytes: nat, limit: nat)
    requires Decodes(decoded) && HasFixedOk(Without(Start(decoded), NOTE_KEY))
    ensures var orig := Without(Start(decoded), NOTE_KEY);
      Size(FitFrom(Document(Start(decoded), []), bytes, limit, 0)) <= limit <==>
        OkSize(orig) + Overhead(bytes, limit) <= limit + if |orig.names| == 1 then 3 else 0
  {
    var orig := Without(Start(decoded), NOTE_KEY);
    var r := FitFrom(Document(Start(decoded), []), bytes, limit, 0);
    ResultIsExplained(decoded, bytes, limit);
    DeleteKey(Start(decoded), NOTE_KEY);
    hide FitFrom, CutWhereNoted, GaveUp, Size, Without, Start, Overhead, OkSize;
    if OkSize(orig) + Overhead(bytes, limit) <= limit {
      ResultFits(decoded, bytes, limit);
    } else if |orig.names| == 1 && OkSize(orig) + Overhead(bytes, limit) <= limit + 3 {
      OnlyOkFitsAtOnce(decoded, bytes, limit);
    } else if cut: seq<string> :| CutWhereNoted(orig, r, bytes, limit, cut) {
      NotedResultSize(orig, r, bytes, limit, cut);
    } else {
      var root: Value, cut: seq<string> :| GaveUp(orig, r, bytes, limit, root, cut);
      LastResortSize(orig, r, bytes, limit, root, cut);
    }
  }

  lemma LastResortSize(orig: Value, r: Value, bytes: nat, limit: nat, root: Value, cut: seq<string>)
    requires MapLike(orig) && HasFixedOk(orig) && GaveUp(orig, r, bytes, limit, root, cut)
    ensures Size(r) == OkSize(orig) + Overhead(bytes, limit)
  {
    FallbackSize(root, bytes, limit);
    OkOnlyShrinks(orig, root, cut);
  }

  /** A scalar ok is not enough: whatever else the document holds, a number longer than the limit makes
      every result longer. */
  lemma LongOkDoesNotFit(decoded: Option<Value>, bytes: nat, limit: nat)
    requires Decodes(decoded)
    requires var ok := Lookup(Without(Start(decoded), NOTE_KEY), "ok");
      ok.Some? && ok.value.Number? && |ok.value.literal| > limit
    ensures Size(FitFrom(Document(Start(decoded), []), bytes, limit, 0)) > limit
  {
    var orig := Without(Start(decoded), NOTE_KEY);
    assert HasFixedOk(orig);
    assert OkSize(orig) == |Lookup(orig, "ok").value.literal|;
    OverheadIs(bytes, limit);
    hide *;
    ResultFitsExactly(decoded, bytes, limit);
  }
}
