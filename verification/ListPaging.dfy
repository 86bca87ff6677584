/** Cutting a list page to the result limit (fitList), what a tool call then shows (callTool), and
    following the next cursors of the shown pages. */
module ListPaging {
  import opened Basics
  import opened Json
  import opened FitResult
  import opened FitTheorems

  // ---------------------------------------------------------------- fitList

  /** A server answer: its length, its length after bidi.EscapeJSON, and what it decodes to; and, if it
      can be decoded with every number as a float64, the root that fitList overwrites. Raw list entries
      are written back as they are, so they count like the values they decode to. */
  datatype Content = Content(bytes: nat, escaped: nat, document: Value, root: Option<Value>)

  ghost predicate Decoded(c: Content) {
    (c.document.Obj? ==> MapLike(c.document)) && (c.root.Some? ==> MapLike(c.root.value))
  }

  datatype Listed = Unchanged | Page(document: Value) | TooSmall

  function PageOf(root: Value, listKey: string, items: seq<Value>, next: Value, note: Value): (page: Value)
    requires MapLike(root)
    ensures MapLike(page)
  {
    var listed := WithKey(root, listKey, Arr(items));
    SetThenDelete(root, listKey, Arr(items));
    var continued := WithKey(listed, "next", next);
    SetThenDelete(listed, "next", next);
    SetThenDelete(continued, NOTE_KEY, note);
    WithKey(continued, NOTE_KEY, note)
  }

  /** The raw list of a document, when it has one with an entry. */
  function ListOf(document: Value, listKey: string): seq<Value> {
    if document.Obj? && |document.names| == |document.kids| then
      var list := Lookup(document, listKey);
      if list.Some? && list.value.Arr? then list.value.kids else []
    else []
  }

  /** The countdown of fitList from keep entries on. */
  function CutPage(c: Content, listKey: string, cursorOf: Value -> Option<Value>, limit: nat, keep: nat): (r: Listed)
    requires c.root.Some? && MapLike(c.root.value) && keep <= |ListOf(c.document, listKey)|
    ensures r.Page? ==> MapLike(r.document) && Size(r.document) <= limit
    decreases keep
  {
    if keep == 0 then TooSmall else
      var items := ListOf(c.document, listKey);
      var next := cursorOf(items[keep - 1]);
      if next.None? then Unchanged else
        var page := PageOf(c.root.value, listKey, items[..keep], next.value, Note(c.bytes, limit, [listKey]));
        if Size(page) <= limit then Page(page) else CutPage(c, listKey, cursorOf, limit, keep - 1)
  }

  function FitListOf(c: Content, listKey: string, cursorOf: Value -> Option<Value>, limit: nat): (r: Listed)
    requires Decoded(c)
    ensures r.Page? ==> MapLike(r.document) && Size(r.document) <= limit
  {
    if c.bytes <= limit || c.root.None? || ListOf(c.document, listKey) == [] then Unchanged
    else CutPage(c, listKey, cursorOf, limit, |ListOf(c.document, listKey)| - 1)
  }

  lemma InsertedIndex(names: seq<string>, key: string, p: nat, other: string)
    requires p <= |names| && key != other
    ensures var k := IndexOf(names, other);
      IndexOf(Insert(names, p, key), other) == if k < p then k else k + 1
  {
    InsertThenDrop(names, p, key);
    var more := Insert(names, p, key);
    var k := IndexOf(names, other);
    if k < |names| {
      IndexIsFirst(more, other, if k < p then k else k + 1);
    } else {
      assert forall j :: 0 <= j < |more| ==> more[j] != other;
      assert IndexOf(more, other) == |more|;
    }
  }

  lemma LookupOther(v: Value, key: string, w: Value, other: string)
    requires v.Obj? && |v.names| == |v.kids| && key != other
    ensures var more := WithKey(v, key, w);
      more.Obj? && |more.names| == |more.kids| && Lookup(more, other) == Lookup(v, other)
  {
    hide Insert, Place;
    if IndexOf(v.names, key) == |v.names| {
      LookupInserted(v, key, w, Place(v.names, key), other);
    }
  }

  lemma LookupInserted(v: Value, key: string, w: Value, p: nat, other: string)
    requires v.Obj? && |v.names| == |v.kids| && p <= |v.names| && key != other
    ensures var more := Obj(Insert(v.names, p, key), Insert(v.kids, p, w));
      |more.names| == |more.kids| && Lookup(more, other) == Lookup(v, other)
  {
    hide Insert;
    InsertedIndex(v.names, key, p, other);
    InsertThenDrop(v.names, p, key);
    InsertThenDrop(v.kids, p, w);
  }

  /** Maps with the same names in the same order and the same values are the same. */
  lemma SameByLookup(v: Value, w: Value)
    requires MapLike(v) && MapLike(w) && v.names == w.names
    requires forall key :: Lookup(v, key) == Lookup(w, key)
    ensures v == w
  {
    forall i | 0 <= i < |v.kids| ensures v.kids[i] == w.kids[i] {
      IndexIsFirst(v.names, v.names[i], i);
      assert Lookup(v, v.names[i]) == Lookup(w, v.names[i]);
    }
    assert v.kids == w.kids;
  }

  /** The names of a page depend only on the names of the root, and a page has them all. */
  lemma PageNames(v: Value, w: Value, listKey: string, a: seq<Value>, b: seq<Value>, next: Value, later: Value,
                  note: Value)
    requires MapLike(v) && MapLike(w) && v.names == w.names
    ensures PageOf(v, listKey, a, next, note).names == PageOf(w, listKey, b, later, note).names
  {
  }

  lemma PageKeepsNames(v: Value, listKey: string, a: seq<Value>, next: Value, note: Value)
    requires MapLike(v) && listKey in v.names && "next" in v.names && NOTE_KEY in v.names
    ensures PageOf(v, listKey, a, next, note).names == v.names
  {
    hide Note, Place;
  }

  lemma PageHasKeys(v: Value, listKey: string, a: seq<Value>, next: Value, note: Value)
    requires MapLike(v)
    ensures var names := PageOf(v, listKey, a, next, note).names;
      listKey in names && "next" in names && NOTE_KEY in names
  {
    var listed := WithKey(v, listKey, Arr(a));
    SetHasKey(v, listKey, Arr(a), listKey);
    SetThenDelete(v, listKey, Arr(a));
    SetHasKey(listed, "next", next, listKey);
    SetHasKey(listed, "next", next, "next");
    SetThenDelete(listed, "next", next);
    var continued := WithKey(listed, "next", next);
    SetHasKey(continued, NOTE_KEY, note, listKey);
    SetHasKey(continued, NOTE_KEY, note, "next");
    SetHasKey(continued, NOTE_KEY, note, NOTE_KEY);
    hide WithKey, MapLike;
  }

  lemma SetHasKey(v: Value, key: string, w: Value, other: string)
    requires MapLike(v) && (other == key || other in v.names)
    ensures other in WithKey(v, key, w).names
  {
    if IndexOf(v.names, key) == |v.names| {
      InsertHas(v.names, Place(v.names, key), key, other);
    } else {
      assert key in v.names;
    }
    hide Insert, Place, MapLike;
  }

  lemma InsertHas(names: seq<string>, p: nat, key: string, other: string)
    requires p <= |names| && (other == key || other in names)
    ensures other in Insert(names, p, key)
  {
    var more := Insert(names, p, key);
    assert more[p] == key;
    if other in names {
      var k :| 0 <= k < |names| && names[k] == other;
      assert more[if k < p then k else k + 1] == other;
    }
  }

  /** What a page holds under a key. */
  lemma PageLookup(v: Value, listKey: string, a: seq<Value>, next: Value, note: Value, key: string)
    requires MapLike(v)
    ensures Lookup(PageOf(v, listKey, a, next, note), key) ==
      if key == NOTE_KEY then Some(note) else if key == "next" then Some(next)
      else if key == listKey then Some(Arr(a)) else Lookup(v, key)
  {
    var listed := WithKey(v, listKey, Arr(a));
    SetThenDelete(v, listKey, Arr(a));
    SetThenDelete(listed, "next", next);
    var continued := WithKey(listed, "next", next);
    SetThenDelete(continued, NOTE_KEY, note);
    if key != NOTE_KEY {
      LookupOther(continued, NOTE_KEY, note, key);
      if key != "next" {
        LookupOther(listed, "next", next, key);
        if key != listKey {
          LookupOther(v, listKey, Arr(a), key);
        }
      }
    }
    hide WithKey, Without, Lookup;
  }

  /** Writing the keys of a page over those of an earlier one leaves what writing them over the root does. */
  lemma PageOverwrites(v: Value, listKey: string, a: seq<Value>, b: seq<Value>, next: Value, later: Value, note: Value)
    requires MapLike(v)
    ensures PageOf(PageOf(v, listKey, a, next, note), listKey, b, later, note) == PageOf(v, listKey, b, later, note)
  {
    var first := PageOf(v, listKey, a, next, note);
    PageHasKeys(v, listKey, a, next, note);
    PageKeepsNames(first, listKey, b, later, note);
    PageNames(v, v, listKey, a, b, next, later, note);
    hide PageOf;
    forall key
      ensures Lookup(PageOf(first, listKey, b, later, note), key) == Lookup(PageOf(v, listKey, b, later, note), key)
    {
      PageLookup(v, listKey, a, next, note, key);
      PageLookup(first, listKey, b, later, note, key);
      PageLookup(v, listKey, b, later, note, key);
    }
    SameByLookup(PageOf(first, listKey, b, later, note), PageOf(v, listKey, b, later, note));
  }

  /** fitList, whose loop overwrites the same three keys of the root at each length. */
  method FitList(c: Content, listKey: string, cursorOf: Value -> Option<Value>, limit: nat) returns (r: Listed)
    requires Decoded(c)
    ensures r == FitListOf(c, listKey, cursorOf, limit)
  {
    hide Note, Size, WithKey;
    if c.bytes <= limit {
      return Unchanged;
    }
    if c.root.None? {
      return Unchanged;
    }
    var items := ListOf(c.document, listKey);
    if items == [] {
      return Unchanged;
    }
    var root, note := c.root.value, Note(c.bytes, limit, [listKey]);
    ghost var written, wroteList, wroteNext := false, items, note;
    var keep := |items| - 1;
    while keep > 0
      invariant 0 <= keep < |items| && MapLike(c.root.value)
      invariant root == if written then PageOf(c.root.value, listKey, wroteList, wroteNext, note) else c.root.value
      invariant CutPage(c, listKey, cursorOf, limit, keep) == FitListOf(c, listKey, cursorOf, limit)
    {
      var next := cursorOf(items[keep - 1]);
      if next.None? {
        return Unchanged;
      }
      ghost var page := PageOf(root, listKey, items[..keep], next.value, note);
      assert page == PageOf(c.root.value, listKey, items[..keep], next.value, note) by {
        if written {
          PageOverwrites(c.root.value, listKey, wroteList, items[..keep], wroteNext, next.value, note);
        }
      }
      SetThenDelete(root, listKey, Arr(items[..keep]));
      root := WithKey(root, listKey, Arr(items[..keep]));
      SetThenDelete(root, "next", next.value);
      root := WithKey(root, "next", next.value);
      root := WithKey(root, NOTE_KEY, note);
      assert root == page;
      written, wroteList, wroteNext := true, items[..keep], next.value;
      if Size(root) <= limit {
        return Page(root);
      }
      keep := keep - 1;
    }
    return TooSmall;
  }

  /** What a cut page holds. */
  lemma PageHolds(root: Value, listKey: string, items: seq<Value>, next: Value, note: Value)
    requires MapLike(root) && listKey != "next" && listKey != NOTE_KEY
    ensures var page := PageOf(root, listKey, items, next, note);
      && MapLike(page) && ListOf(page, listKey) == items
      && Lookup(page, "next") == Some(next) && Lookup(page, NOTE_KEY) == Some(note)
      && (forall key :: key != listKey && key != "next" && key != NOTE_KEY ==> Lookup(page, key) == Lookup(root, key))
  {
    var listed := WithKey(root, listKey, Arr(items));
    SetThenDelete(root, listKey, Arr(items));
    var continued := WithKey(listed, "next", next);
    SetThenDelete(listed, "next", next);
    SetThenDelete(continued, NOTE_KEY, note);
    LookupOther(listed, "next", next, listKey);
    LookupOther(continued, NOTE_KEY, note, listKey);
    LookupOther(continued, NOTE_KEY, note, "next");
    forall key | key != listKey && key != "next" && key != NOTE_KEY
      ensures Lookup(PageOf(root, listKey, items, next, note), key) == Lookup(root, key)
    {
      LookupOther(root, listKey, Arr(items), key);
      LookupOther(listed, "next", next, key);
      LookupOther(continued, NOTE_KEY, note, key);
    }
  }

  /** A cut page keeps the longest proper prefix that fits, points right after it, and changes
      nothing else; no prefix fits exactly when the result is an error. */
  ghost predicate LongestPrefix(c: Content, listKey: string, cursorOf: Value -> Option<Value>, limit: nat, keep: nat,
                                page: Value) {
    var items := ListOf(c.document, listKey);
    && c.root.Some? && MapLike(c.root.value) && 0 < keep < |items| && cursorOf(items[keep - 1]).Some?
    && page ==
         PageOf(c.root.value, listKey, items[..keep], cursorOf(items[keep - 1]).value, Note(c.bytes, limit, [listKey]))
    && Size(page) <= limit
    && (forall k :: keep < k < |items| ==> TooLong(c, listKey, cursorOf, limit, k))
  }

  /** The page of the first keep entries does not fit. */
  ghost predicate TooLong(c: Content, listKey: string, cursorOf: Value -> Option<Value>, limit: nat, keep: nat) {
    var items := ListOf(c.document, listKey);
    && c.root.Some? && MapLike(c.root.value) && 0 < keep <= |items| && cursorOf(items[keep - 1]).Some?
    && Size(PageOf(c.root.value, listKey, items[..keep], cursorOf(items[keep - 1]).value,
                   Note(c.bytes, limit, [listKey]))) > limit
  }

  /** The entry before keep has no cursor, and no longer prefix fits. */
  ghost predicate NoCursor(c: Content, listKey: string, cursorOf: Value -> Option<Value>, limit: nat, keep: nat) {
    var items := ListOf(c.document, listKey);
    && 0 < keep < |items| && cursorOf(items[keep - 1]).None?
    && (forall k :: keep < k < |items| ==> TooLong(c, listKey, cursorOf, limit, k))
  }

  lemma {:induction false} CutPageIsLongest(c: Content, listKey: string, cursorOf: Value -> Option<Value>, limit: nat,
                                            from: nat)
    requires c.root.Some? && MapLike(c.root.value) && from < |ListOf(c.document, listKey)|
    requires forall k :: from < k < |ListOf(c.document, listKey)| ==> TooLong(c, listKey, cursorOf, limit, k)
    ensures match CutPage(c, listKey, cursorOf, limit, from)
      case Page(page) => exists keep: nat :: LongestPrefix(c, listKey, cursorOf, limit, keep, page)
      case TooSmall => forall k :: 0 < k < |ListOf(c.document, listKey)| ==> TooLong(c, listKey, cursorOf, limit, k)
      case Unchanged => exists keep: nat :: NoCursor(c, listKey, cursorOf, limit, keep)
    decreases from
  {
    hide CutPage, PageOf, LongestPrefix, TooLong, Size, Note, MapLike;
    CutPageUnfolds(c, listKey, cursorOf, limit, from);
    if from > 0 && cursorOf(ListOf(c.document, listKey)[from - 1]).Some? && TooLong(c, listKey, cursorOf, limit, from) {
      CutPageIsLongest(c, listKey, cursorOf, limit, from - 1);
    }
  }

  lemma CutPageUnfolds(c: Content, listKey: string, cursorOf: Value -> Option<Value>, limit: nat, from: nat)
    requires c.root.Some? && MapLike(c.root.value) && from < |ListOf(c.document, listKey)|
    requires forall k :: from < k < |ListOf(c.document, listKey)| ==> TooLong(c, listKey, cursorOf, limit, k)
    ensures var r := CutPage(c, listKey, cursorOf, limit, from);
      if from == 0 then r == TooSmall
      else if cursorOf(ListOf(c.document, listKey)[from - 1]).None?
      then r == Unchanged && NoCursor(c, listKey, cursorOf, limit, from)
      else if TooLong(c, listKey, cursorOf, limit, from) then r == CutPage(c, listKey, cursorOf, limit, from - 1)
      else r.Page? && LongestPrefix(c, listKey, cursorOf, limit, from, r.document)
  {
  }

  /** An answer that fitList cuts or refuses: too long, readable, and with an entry. */
  ghost predicate IsCut(c: Content, listKey: string, limit: nat) {
    c.bytes > limit && c.root.Some? && ListOf(c.document, listKey) != []
  }

  ghost predicate NothingFits(c: Content, listKey: string, cursorOf: Value -> Option<Value>, limit: nat) {
    forall k :: 0 < k < |ListOf(c.document, listKey)| ==> TooLong(c, listKey, cursorOf, limit, k)
  }

  /** fitList refuses an answer if and only if it is to be cut and no proper prefix of its list fits; it
      shows the longest one that fits if and only if there is one, every longer one has a cursor and does
      not fit; and it leaves all other answers to the general cut. */
  lemma FitListExactly(c: Content, listKey: string, cursorOf: Value -> Option<Value>, limit: nat)
    requires Decoded(c)
    ensures var r := FitListOf(c, listKey, cursorOf, limit);
      && (r.TooSmall? <==> IsCut(c, listKey, limit) && NothingFits(c, listKey, cursorOf, limit))
      && (r.Unchanged? <==>
           !IsCut(c, listKey, limit) || exists keep: nat :: NoCursor(c, listKey, cursorOf, limit, keep))
      && (forall page :: r == Page(page) <==>
           IsCut(c, listKey, limit) && exists keep: nat :: LongestPrefix(c, listKey, cursorOf, limit, keep, page))
  {
    hide ListOf, CutPage, PageOf, Size, MapLike, Note, LongestPrefix, NoCursor, TooLong;
    forall a: nat, b: nat, page, other
      | LongestPrefix(c, listKey, cursorOf, limit, a, page) && LongestPrefix(c, listKey, cursorOf, limit, b, other)
      ensures page == other
    {
      LongestIsUnique(c, listKey, cursorOf, limit, a, b, page, other);
    }
    forall a: nat, b: nat, page | LongestPrefix(c, listKey, cursorOf, limit, a, page)
      ensures !NoCursor(c, listKey, cursorOf, limit, b)
    {
      LongestIsIt(c, listKey, cursorOf, limit, a, b, page);
    }
    forall a: nat, page | LongestPrefix(c, listKey, cursorOf, limit, a, page)
      ensures !NothingFits(c, listKey, cursorOf, limit)
    {
      LongestIsIt(c, listKey, cursorOf, limit, a, a, page);
    }
    forall b: nat | NoCursor(c, listKey, cursorOf, limit, b)
      ensures !NothingFits(c, listKey, cursorOf, limit)
    {
      NoCursorEnds(c, listKey, cursorOf, limit, b);
    }
    if IsCut(c, listKey, limit) {
      CutPageIsLongest(c, listKey, cursorOf, limit, |ListOf(c.document, listKey)| - 1);
    }
  }

  lemma LongestIsUnique(c: Content, listKey: string, cursorOf: Value -> Option<Value>, limit: nat, a: nat, b: nat,
                        page: Value, other: Value)
    requires LongestPrefix(c, listKey, cursorOf, limit, a, page)
    requires LongestPrefix(c, listKey, cursorOf, limit, b, other)
    ensures page == other
  {
    hide ListOf, PageOf, Size, Note, MapLike;
    assert a < b ==> TooLong(c, listKey, cursorOf, limit, b);
    assert b < a ==> TooLong(c, listKey, cursorOf, limit, a);
  }

  lemma LongestIsIt(c: Content, listKey: string, cursorOf: Value -> Option<Value>, limit: nat, a: nat, b: nat,
                    page: Value)
    requires LongestPrefix(c, listKey, cursorOf, limit, a, page)
    ensures !NoCursor(c, listKey, cursorOf, limit, b) && !NothingFits(c, listKey, cursorOf, limit)
  {
    hide ListOf, PageOf, Size, Note, MapLike;
    assert !TooLong(c, listKey, cursorOf, limit, a);
    assert b < a && NoCursor(c, listKey, cursorOf, limit, b) ==> TooLong(c, listKey, cursorOf, limit, a);
    assert a < b && NoCursor(c, listKey, cursorOf, limit, b) ==> TooLong(c, listKey, cursorOf, limit, b);
  }

  lemma NoCursorEnds(c: Content, listKey: string, cursorOf: Value -> Option<Value>, limit: nat, keep: nat)
    requires NoCursor(c, listKey, cursorOf, limit, keep)
    ensures !NothingFits(c, listKey, cursorOf, limit)
  {
    hide ListOf, PageOf, Size, Note, MapLike;
    assert !TooLong(c, listKey, cursorOf, limit, keep);
  }

  /** A list whose entries all have cursors is cut to its longest fitting prefix, or refused. */
  lemma LongListIsCut(c: Content, listKey: string, cursorOf: Value -> Option<Value>, limit: nat)
    requires Decoded(c) && IsCut(c, listKey, limit)
    requires forall item :: item in ListOf(c.document, listKey) ==> cursorOf(item).Some?
    ensures var r := FitListOf(c, listKey, cursorOf, limit);
      || r.TooSmall?
      || (r.Page? && exists keep: nat :: LongestPrefix(c, listKey, cursorOf, limit, keep, r.document))
  {
    hide FitListOf, ListOf, LongestPrefix, TooLong;
    FitListExactly(c, listKey, cursorOf, limit);
  }

  // ---------------------------------------------------------------- callTool

  datatype Reply = Shown(document: Value) | Refused

  /** What the call of a list tool shows: fitList, then bidi.EscapeJSON and fitResult. A cut page is
      already escaped when fitList measures it. */
  function CallTool(c: Content, listKey: string, cursorOf: Value -> Option<Value>, limit: nat): Reply
    requires Decoded(c)
  {
    match FitListOf(c, listKey, cursorOf, limit)
    case TooSmall => Refused
    case Page(page) => Shown(FitContent(Size(page), page, limit))
    case Unchanged => Shown(FitContent(c.escaped, c.document, limit))
  }

  /** fitResult of an escaped content. */
  function FitContent(bytes: nat, document: Value, limit: nat): Value
    requires document.Obj? ==> MapLike(document)
  {
    if bytes <= limit then document else FitFrom(Document(Start(Some(document)), []), bytes, limit, 0)
  }
}
