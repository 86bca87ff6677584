/** Following next from page to page of a list tool: nothing is skipped or repeated, as long as every
    answer that fits still fits once its direction controls are escaped. */
module FollowingPages {
  import opened Basics
  import opened Json
  import opened FitResult
  import opened FitTheorems
  import opened ListPaging

  // ---------------------------------------------------------------- the server

  /** A list on the server, newest first, and its pages: server(before) is the answer below a
      position, server(None) the first page. token is how a position is written as a cursor. */
  datatype Catalogue = Catalogue(all: seq<Value>, listKey: string, position: Value -> Option<nat>,
                                 token: nat -> Value, server: Option<nat> -> Content, limit: nat)

  function Cursor(cat: Catalogue): Value -> Option<Value> {
    (item: Value) => if cat.position(item).Some? then Some(cat.token(cat.position(item).value)) else None
  }

  ghost predicate Descending(cat: Catalogue) {
    && (forall i :: 0 <= i < |cat.all| ==> cat.position(cat.all[i]).Some?)
    && (forall i, j :: 0 <= i < j < |cat.all| ==> cat.position(cat.all[i]).value > cat.position(cat.all[j]).value)
  }

  /** The items below before are those from n on. */
  ghost predicate StartsAt(cat: Catalogue, before: Option<nat>, n: nat)
    requires Descending(cat)
  {
    && n <= |cat.all|
    && (before.None? ==> n == 0)
    && (before.Some? ==> forall i :: 0 <= i < |cat.all| ==> (i < n <==> cat.position(cat.all[i]).value >= before.value))
  }

  /** A document that shows m items from n on, at least one when there is one, and the position of
      the last of them as next exactly when more remain. */
  ghost predicate ShowsFrom(cat: Catalogue, document: Value, n: nat, m: nat)
    requires Descending(cat)
  {
    && MapLike(document) && n + m <= |cat.all| && (n < |cat.all| ==> m > 0)
    && ListOf(document, cat.listKey) == cat.all[n..n + m]
    && Lookup(document, "next") ==
         if n + m < |cat.all| then Some(cat.token(cat.position(cat.all[n + m - 1]).value)) else None
  }

  /** fitList can read the answer: its root decodes, and it has the list. */
  ghost predicate HasList(c: Content, listKey: string) {
    Decoded(c) && c.root.Some? && MapLike(c.document) && Lookup(c.document, listKey).Some?
  }

  ghost predicate ServesPages(cat: Catalogue) {
    && cat.listKey !in ["ok", "next", NOTE_KEY]
    && Descending(cat)
    && (forall a, b :: cat.token(a) == cat.token(b) ==> a == b)
    && (forall before, n :: StartsAt(cat, before, n) ==>
          exists m: nat :: ShowsFrom(cat, cat.server(before).document, n, m))
    && (forall before :: HasList(cat.server(before), cat.listKey))
  }

  /** bidi.EscapeJSON, which never makes an answer shorter, makes none longer than the limit that fits. */
  ghost predicate FitsEscaped(cat: Catalogue) {
    forall before :: var c := cat.server(before);
      c.bytes <= c.escaped && (c.bytes <= cat.limit ==> c.escaped <= cat.limit)
  }

  // ---------------------------------------------------------------- one page

  function Call(cat: Catalogue, before: Option<nat>): Reply
    requires Decoded(cat.server(before))
  {
    CallTool(cat.server(before), cat.listKey, Cursor(cat), cat.limit)
  }

  /** A key that is not in the original is not in a cut result either. */
  lemma MissingStaysMissing(orig: Value, r: Value, bytes: nat, limit: nat, key: string)
    requires Explained(orig, r, bytes, limit) && MapLike(orig)
    requires key != "ok" && key != NOTE_KEY && Lookup(orig, key) == None
    ensures MapLike(r) && Lookup(r, key) == None
  {
    if cut: seq<string> :| CutWhereNoted(orig, r, bytes, limit, cut) {
      LookupWithout(r, NOTE_KEY, key);
    }
  }

  lemma LookupWithout(v: Value, key: string, other: string)
    requires MapLike(v) && other != key
    ensures MapLike(Without(v, key)) && Lookup(Without(v, key), other) == Lookup(v, other)
  {
    DeleteKey(v, key);
    var i, k := IndexOf(v.names, key), IndexOf(v.names, other);
    if i < |v.names| {
      var fewer := Without(v, key);
      if k < |v.names| {
        IndexIsFirst(fewer.names, other, if k < i then k else k - 1);
      } else {
        assert forall j :: 0 <= j < |fewer.names| ==> fewer.names[j] != other;
        assert IndexOf(fewer.names, other) == |fewer.names|;
      }
    }
  }

  /** The entries of the list now are the first ones of the list in orig, each trimmed only where cut says. */
  ghost predicate TrimmedEntries(orig: Value, now: Value, listKey: string, cut: seq<string>) {
    && |ListOf(now, listKey)| <= |ListOf(orig, listKey)|
    && forall i: nat :: i < |ListOf(now, listKey)| ==>
         Trimmed(ListOf(orig, listKey)[i], ListOf(now, listKey)[i], listKey + "[" + Decimal(i) + "]", cut)
  }

  /** The list of a cut result is empty, or holds first entries of the original list, each of them trimmed
      only where the note says. */
  lemma ListIsTrimmed(orig: Value, r: Value, bytes: nat, limit: nat, listKey: string)
    requires Explained(orig, r, bytes, limit) && MapLike(orig)
    requires listKey != "ok" && listKey != NOTE_KEY
    ensures MapLike(r)
    ensures ListOf(r, listKey) == [] || exists cut: seq<string> ::
      Lookup(r, NOTE_KEY) == Some(Note(bytes, limit, cut)) && TrimmedEntries(orig, r, listKey, cut)
    ensures |ListOf(r, listKey)| <= |ListOf(orig, listKey)|
  {
    if cut: seq<string> :| CutWhereNoted(orig, r, bytes, limit, cut) {
      LookupWithout(r, NOTE_KEY, listKey);
      DeleteKey(r, NOTE_KEY);
      TrimmedList(orig, Without(r, NOTE_KEY), cut, listKey);
      assert TrimmedEntries(orig, r, listKey, cut);
    } else {
      assert ListOf(r, listKey) == [];
    }
  }

  lemma TrimmedList(orig: Value, now: Value, cut: seq<string>, listKey: string)
    requires MapLike(orig) && MapLike(now) && Trimmed(orig, now, "", cut)
    ensures TrimmedEntries(orig, now, listKey, cut)
  {
    var i := IndexOf(orig.names, listKey);
    if i < |orig.names| {
      assert ChildPath(orig, "", i) == listKey;
      assert Trimmed(orig.kids[i], now.kids[i], listKey, cut);
      if orig.kids[i].Arr? {
        var list, left := orig.kids[i], now.kids[i];
        forall j: nat | j < |left.kids|
          ensures Trimmed(list.kids[j], left.kids[j], listKey + "[" + Decimal(j) + "]", cut)
        {
          assert ChildPath(list, listKey, j) == listKey + "[" + Decimal(j) + "]";
        }
      }
    }
  }

  lemma PageItems(cat: Catalogue, document: Value, n: nat, k: nat)
    requires ServesPages(cat) && ShowsFrom(cat, document, n, k)
    ensures var items := ListOf(document, cat.listKey);
      && |items| == k && (items != [] ==> n < |cat.all|)
      && forall item :: item in items ==> Cursor(cat)(item).Some?
  {
    var items := ListOf(document, cat.listKey);
    assert items == cat.all[n..n + k];
    hide ListOf, ShowsFrom, Lookup;
    forall item | item in items ensures Cursor(cat)(item).Some? {
      var j :| 0 <= j < |items| && items[j] == item;
      assert cat.all[n..n + k][j] == cat.all[n + j];
    }
  }

  /** A page that is cut shows the longest fitting part of it and points right after that. */
  lemma CutPageShows(cat: Catalogue, c: Content, n: nat, k: nat)
    requires ServesPages(cat) && ShowsFrom(cat, c.document, n, k)
    requires Decoded(c) && IsCut(c, cat.listKey, cat.limit)
    ensures var r := FitListOf(c, cat.listKey, Cursor(cat), cat.limit);
      || (r.TooSmall? && n < |cat.all|)
      || (r.Page? && Size(r.document) <= cat.limit && exists m: nat :: ShowsFrom(cat, r.document, n, m))
  {
    PageItems(cat, c.document, n, k);
    assert Descending(cat) && MapLike(c.document);
    hide *;
    LongListIsCut(c, cat.listKey, Cursor(cat), cat.limit);
    var r := FitListOf(c, cat.listKey, Cursor(cat), cat.limit);
    if r.Page? {
      var kept: nat :| LongestPrefix(c, cat.listKey, Cursor(cat), cat.limit, kept, r.document);
      LongestPrefixShows(cat, c, n, k, kept, r.document);
    }
  }

  lemma LongestPrefixShows(cat: Catalogue, c: Content, n: nat, k: nat, keep: nat, page: Value)
    requires ServesPages(cat) && ShowsFrom(cat, c.document, n, k)
    requires LongestPrefix(c, cat.listKey, Cursor(cat), cat.limit, keep, page)
    ensures ShowsFrom(cat, page, n, keep)
  {
    hide PageOf, Size, Note, Lookup;
    var items := ListOf(c.document, cat.listKey);
    PageHolds(c.root.value, cat.listKey, items[..keep], Cursor(cat)(items[keep - 1]).value,
              Note(c.bytes, cat.limit, [cat.listKey]));
    assert items[..keep] == cat.all[n..n + keep];
    assert items[keep - 1] == cat.all[n + keep - 1];
  }

  /** The answer is too long, and so is a page of any proper prefix of its list that has an entry. */
  ghost predicate CannotShow(cat: Catalogue, before: Option<nat>) {
    var c := cat.server(before);
    IsCut(c, cat.listKey, cat.limit) && NothingFits(c, cat.listKey, Cursor(cat), cat.limit)
  }

  /** A call is refused if and only if no part of its page fits. */
  lemma RefusedExactly(cat: Catalogue, before: Option<nat>)
    requires Decoded(cat.server(before))
    ensures Call(cat, before).Refused? <==> CannotShow(cat, before)
  {
    hide FitListOf, FitContent, IsCut, NothingFits;
    FitListExactly(cat.server(before), cat.listKey, Cursor(cat), cat.limit);
  }

  /** Each call shows the next items, at least one, and points right after them; or it is refused, while
      items are left and no part of the page fits. */
  lemma CallShowsTheNextItems(cat: Catalogue, before: Option<nat>, n: nat)
    requires ServesPages(cat) && FitsEscaped(cat) && StartsAt(cat, before, n)
    ensures Call(cat, before).Shown? ==> exists m: nat :: ShowsFrom(cat, Call(cat, before).document, n, m)
    ensures Call(cat, before).Refused? ==> n < |cat.all|
    ensures Call(cat, before).Refused? <==> CannotShow(cat, before)
  {
    hide CutPage, PageOf, Size, Note, FitFrom;
    var c := cat.server(before);
    RefusedExactly(cat, before);
    var k: nat :| ShowsFrom(cat, c.document, n, k);
    if c.bytes > cat.limit {
      if ListOf(c.document, cat.listKey) == [] {
        assert k == 0;
        EmptyPage(cat, c, n);
      } else {
        CutPageShows(cat, c, n, k);
      }
    }
  }

  lemma EmptyPage(cat: Catalogue, c: Content, n: nat)
    requires ServesPages(cat) && Decoded(c) && c.bytes > cat.limit && c.escaped > cat.limit
    requires ShowsFrom(cat, c.document, n, 0)
    ensures var reply := CallTool(c, cat.listKey, Cursor(cat), cat.limit);
      reply.Shown? && ShowsFrom(cat, reply.document, n, 0)
  {
    var orig := Without(c.document, NOTE_KEY);
    var r := FitFrom(Document(Start(Some(c.document)), []), c.escaped, cat.limit, 0);
    ResultIsExplained(Some(c.document), c.escaped, cat.limit);
    DeleteKey(c.document, NOTE_KEY);
    LookupWithout(c.document, NOTE_KEY, "next");
    LookupWithout(c.document, NOTE_KEY, cat.listKey);
    MissingStaysMissing(orig, r, c.escaped, cat.limit, "next");
    ListIsTrimmed(orig, r, c.escaped, cat.limit, cat.listKey);
  }

  // ---------------------------------------------------------------- following next

  datatype Turn = Turn(before: Option<nat>, reply: Reply)

  /** A client's calls: the first without a cursor, each later one with the next of the page before. */
  ghost predicate Following(cat: Catalogue, turns: seq<Turn>)
    requires ServesPages(cat)
  {
    && (forall i :: 0 <= i < |turns| ==> turns[i].reply == Call(cat, turns[i].before))
    && (turns != [] ==> turns[0].before.None?)
    && (forall i :: 0 < i < |turns| ==> ContinuesAfter(cat, turns[i - 1].reply, turns[i].before))
  }

  ghost predicate ContinuesAfter(cat: Catalogue, reply: Reply, before: Option<nat>) {
    && reply.Shown? && MapLike(reply.document) && before.Some?
    && Lookup(reply.document, "next") == Some(cat.token(before.value))
  }

  /** The items of all pages, one after the other. */
  function AllShown(cat: Catalogue, turns: seq<Turn>): seq<Value> {
    if turns == [] then [] else
      var last := turns[|turns| - 1].reply;
      AllShown(cat, turns[..|turns| - 1]) + if last.Shown? then ListOf(last.document, cat.listKey) else []
  }

  /** The pages so far show the first n items; the next cursor points right after them. */
  ghost predicate ShownSoFar(cat: Catalogue, turns: seq<Turn>, n: nat)
    requires Descending(cat)
  {
    && n <= |cat.all| && AllShown(cat, turns) == cat.all[..n]
    && |turns| <= n + 1 && (turns != [] && (turns[|turns| - 1].reply.Shown? && cat.all != []) ==> |turns| <= n)
    && (turns != [] ==>
          var last := turns[|turns| - 1].reply;
          && (last.Refused? ==> n < |cat.all|)
          && (last.Shown? && n == 0 ==> cat.all == [])
          && (last.Shown? ==> PointsAfter(cat, last.document, n)))
  }

  ghost predicate PointsAfter(cat: Catalogue, document: Value, n: nat)
    requires Descending(cat) && n <= |cat.all| && (n == 0 ==> cat.all == [])
  {
    && MapLike(document)
    && Lookup(document, "next") == if n < |cat.all| then Some(cat.token(cat.position(cat.all[n - 1]).value)) else None
  }

  lemma OneMorePage(cat: Catalogue, turns: seq<Turn>, n: nat, m: nat)
    requires Descending(cat) && turns != [] && turns[|turns| - 1].reply.Shown?
    requires ShowsFrom(cat, turns[|turns| - 1].reply.document, n, m)
    requires |turns| - 1 <= n && AllShown(cat, turns[..|turns| - 1]) == cat.all[..n]
    requires n < |cat.all| || cat.all == []
    ensures ShownSoFar(cat, turns, n + m)
  {
    hide ListOf;
    assert cat.all[..n] + cat.all[n..n + m] == cat.all[..n + m];
  }

  lemma OneMoreTurn(cat: Catalogue, turns: seq<Turn>, n: nat)
    requires ServesPages(cat) && FitsEscaped(cat) && turns != []
    requires turns[|turns| - 1].reply == Call(cat, turns[|turns| - 1].before)
    requires StartsAt(cat, turns[|turns| - 1].before, n)
    requires |turns| - 1 <= n && AllShown(cat, turns[..|turns| - 1]) == cat.all[..n]
    requires n < |cat.all| || cat.all == []
    ensures exists n: nat :: ShownSoFar(cat, turns, n)
  {
    assert Descending(cat);
    var last := turns[|turns| - 1];
    CallShowsTheNextItems(cat, last.before, n);
    hide *;
    if last.reply.Shown? {
      var m: nat :| ShowsFrom(cat, last.reply.document, n, m);
      OneMorePage(cat, turns, n, m);
    } else {
      NoMorePage(cat, turns, n);
    }
  }

  lemma NoMorePage(cat: Catalogue, turns: seq<Turn>, n: nat)
    requires Descending(cat) && turns != [] && turns[|turns| - 1].reply.Refused? && n < |cat.all|
    requires |turns| - 1 <= n && AllShown(cat, turns[..|turns| - 1]) == cat.all[..n]
    ensures ShownSoFar(cat, turns, n)
  {
  }

  lemma NextStart(cat: Catalogue, shown: seq<Turn>, before: Option<nat>, n: nat)
    requires ServesPages(cat) && shown != [] && ShownSoFar(cat, shown, n)
    requires ContinuesAfter(cat, shown[|shown| - 1].reply, before)
    ensures StartsAt(cat, before, n) && n < |cat.all| && |shown| <= n
  {
    hide AllShown, Lookup;
    assert before == Some(cat.position(cat.all[n - 1]).value);
  }

  lemma {:induction false} PagesShowAPrefix(cat: Catalogue, turns: seq<Turn>)
    requires ServesPages(cat) && FitsEscaped(cat) && Following(cat, turns)
    ensures exists n: nat :: ShownSoFar(cat, turns, n)
    decreases |turns|
  {
    if turns == [] {
      assert ShownSoFar(cat, turns, 0);
    } else {
      var earlier, last := turns[..|turns| - 1], turns[|turns| - 1];
      EarlierTurns(cat, turns);
      PagesShowAPrefix(cat, earlier);
      var n: nat :| ShownSoFar(cat, earlier, n);
      if earlier != [] {
        NextStart(cat, earlier, last.before, n);
      } else {
        FirstStart(cat, n);
      }
      hide ServesPages, AllShown, Call, StartsAt;
      OneMoreTurn(cat, turns, n);
    }
  }

  lemma EarlierTurns(cat: Catalogue, turns: seq<Turn>)
    requires ServesPages(cat) && Following(cat, turns) && turns != []
    ensures var earlier, last := turns[..|turns| - 1], turns[|turns| - 1];
      && Following(cat, earlier) && last.reply == Call(cat, last.before)
      && if earlier == [] then last.before.None?
         else ContinuesAfter(cat, earlier[|earlier| - 1].reply, last.before)
  {
    hide Call, ContinuesAfter;
  }

  lemma FirstStart(cat: Catalogue, n: nat)
    requires Descending(cat) && ShownSoFar(cat, [], n)
    ensures StartsAt(cat, None, n) && (n < |cat.all| || cat.all == [])
  {
  }

  /** Following next shows a prefix of the list, each item once and in order, and at least one item a
      page; when the last page has no next, it was the whole list; a refusal comes only while items
      are left, and exactly at a page of which nothing fits; and there are never more calls than items. */
  lemma FollowingSkipsNothing(cat: Catalogue, turns: seq<Turn>)
    requires ServesPages(cat) && FitsEscaped(cat) && Following(cat, turns) && turns != []
    ensures AllShown(cat, turns) <= cat.all
    ensures |turns| <= |cat.all| || |turns| == 1
    ensures var last := turns[|turns| - 1].reply;
      && (last.Refused? <==> CannotShow(cat, turns[|turns| - 1].before))
      && if last.Refused? then AllShown(cat, turns) < cat.all
         else MapLike(last.document) && (Lookup(last.document, "next").None? <==> AllShown(cat, turns) == cat.all)
  {
    PagesShowAPrefix(cat, turns);
    RefusedExactly(cat, turns[|turns| - 1].before);
    var n: nat :| ShownSoFar(cat, turns, n);
    hide ServesPages, FitsEscaped, CannotShow, Call;
    if n == |cat.all| { assert cat.all[..n] == cat.all; }
  }
}
