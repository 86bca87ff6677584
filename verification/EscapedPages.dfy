/** Why following next needs answers that fit once they are escaped: fitList measures an answer before
    bidi.EscapeJSON makes it longer, so an answer that just fits is cut later without a new next. This
    server escapes what it sends, so only a server that does not, such as an older one, sends such answers. */
module EscapedPages {
  import opened Basics
  import opened Json
  import opened FitResult
  import opened FitSizes
  import opened FitTheorems
  import opened FitBounds
  import opened ListPaging
  import opened FollowingPages

  /** Nothing at or inside v can be cut. */
  ghost predicate Uncuttable(v: Value)
    decreases v
  {
    !LongString(v) && !NonEmptyList(v) && (Branch(v) ==> forall i :: 0 <= i < |v.kids| ==> Uncuttable(v.kids[i]))
  }

  /** The list, and only the list, can be cut. */
  ghost predicate OnlyTheListCanBeCut(document: Value, listKey: string)
    requires MapLike(document)
  {
    forall i :: 0 <= i < |document.kids| ==>
      if document.names[i] == listKey
      then document.kids[i].Arr? && forall item :: item in document.kids[i].kids ==> Uncuttable(item)
      else Uncuttable(document.kids[i])
  }

  lemma {:induction false} UncuttableStays(orig: Value, now: Value, path: string, cut: seq<string>)
    requires Trimmed(orig, now, path, cut) && Uncuttable(orig)
    ensures now == orig
    decreases orig
  {
    if Branch(orig) {
      forall i: nat | i < |now.kids| ensures now.kids[i] == orig.kids[i] {
        UncuttableStays(orig.kids[i], now.kids[i], ChildPath(orig, path, i), cut);
      }
      assert now.kids == orig.kids;
    }
  }

  lemma UncutListMeansUncut(orig: Value, now: Value, cut: seq<string>, listKey: string)
    requires MapLike(orig) && MapLike(now) && Trimmed(orig, now, "", cut) && OnlyTheListCanBeCut(orig, listKey)
    requires |ListOf(now, listKey)| == |ListOf(orig, listKey)|
    ensures now == orig
  {
    forall i: nat | i < |orig.kids| ensures now.kids[i] == orig.kids[i] {
      var path := ChildPath(orig, "", i);
      if orig.names[i] == listKey {
        assert IndexOf(orig.names, listKey) == i;
        var list, left := orig.kids[i], now.kids[i];
        assert Trimmed(list, left, path, cut);
        forall j: nat | j < |left.kids| ensures left.kids[j] == list.kids[j] {
          UncuttableStays(list.kids[j], left.kids[j], ChildPath(list, path, j), cut);
        }
        assert left.kids == list.kids;
      } else {
        UncuttableStays(orig.kids[i], now.kids[i], path, cut);
      }
    }
    assert now.kids == orig.kids;
  }

  /** An answer that fits only before it is escaped loses entries from the end of its list, and next
      does not go back to them: it is the server's own, or gone. */
  lemma EscapedPageLosesEntries(c: Content, listKey: string, cursorOf: Value -> Option<Value>, limit: nat)
    requires Decoded(c) && MapLike(c.document) && NOTE_KEY !in c.document.names && listKey !in ["ok", "next", NOTE_KEY]
    requires c.bytes <= limit < c.escaped && c.escaped == Size(c.document)
    requires OnlyTheListCanBeCut(c.document, listKey) && ListOf(c.document, listKey) != []
    ensures var reply := CallTool(c, listKey, cursorOf, limit);
      && reply.Shown? && MapLike(reply.document)
      && |ListOf(reply.document, listKey)| < |ListOf(c.document, listKey)|
      && (Lookup(reply.document, "next") == Lookup(c.document, "next") || Lookup(reply.document, "next").None?)
  {
    var orig := c.document;
    var r := FitFrom(Document(Start(Some(orig)), []), c.escaped, limit, 0);
    ResultIsExplained(Some(orig), c.escaped, limit);
    DeleteMissing(orig, NOTE_KEY);
    ListIsTrimmed(orig, r, c.escaped, limit, listKey);
    assert CallTool(c, listKey, cursorOf, limit) == Shown(r);
    hide FitFrom, Size, CutWhereNoted, CallTool, ListOf;
    if cut: seq<string> :| CutWhereNoted(orig, r, c.escaped, limit, cut) {
      NotedResultLosesEntries(orig, r, c.escaped, limit, listKey, cut);
    } else {
      var root: Value, cut: seq<string> :| GaveUp(orig, r, c.escaped, limit, root, cut);
      LastResortShowsNoList(root, c.escaped, limit, listKey);
    }
  }

  /** For an answer that fits before it is escaped and whose list is all that can be cut, no entry is
      lost if and only if it fits once it is escaped. */
  lemma EscapedPageKeepsItsEntries(c: Content, listKey: string, cursorOf: Value -> Option<Value>, limit: nat)
    requires Decoded(c) && MapLike(c.document) && NOTE_KEY !in c.document.names && listKey !in ["ok", "next", NOTE_KEY]
    requires c.bytes <= limit && c.escaped == Size(c.document)
    requires OnlyTheListCanBeCut(c.document, listKey) && ListOf(c.document, listKey) != []
    ensures var reply := CallTool(c, listKey, cursorOf, limit);
      reply.Shown? && (|ListOf(reply.document, listKey)| == |ListOf(c.document, listKey)| <==> c.escaped <= limit)
  {
    if c.escaped > limit {
      EscapedPageLosesEntries(c, listKey, cursorOf, limit);
    }
    hide Size, FitFrom, ListOf;
  }

  lemma LastResortShowsNoList(root: Value, bytes: nat, limit: nat, listKey: string)
    requires MapLike(root) && listKey !in ["ok", "next", NOTE_KEY]
    ensures var r := Fallback(root, bytes, limit); ListOf(r, listKey) == [] && Lookup(r, "next").None?
  {
  }

  lemma NotedResultLosesEntries(orig: Value, r: Value, bytes: nat, limit: nat, listKey: string, cut: seq<string>)
    requires MapLike(orig) && listKey !in ["ok", "next", NOTE_KEY] && CutWhereNoted(orig, r, bytes, limit, cut)
    requires limit < Size(orig) && OnlyTheListCanBeCut(orig, listKey)
    requires |ListOf(r, listKey)| <= |ListOf(orig, listKey)|
    ensures |ListOf(r, listKey)| < |ListOf(orig, listKey)|
    ensures Lookup(r, "next") == Lookup(orig, "next")
  {
    var now := Without(r, NOTE_KEY);
    DeleteKey(r, NOTE_KEY);
    LookupWithout(r, NOTE_KEY, listKey);
    LookupWithout(r, NOTE_KEY, "next");
    assert ListOf(now, listKey) == ListOf(r, listKey);
    WithoutSize(r, NOTE_KEY);
    hide Size, Without;
    var i := IndexOf(orig.names, "next");
    if i < |orig.names| {
      UncuttableStays(orig.kids[i], now.kids[i], ChildPath(orig, "", i), cut);
    }
    if |ListOf(now, listKey)| == |ListOf(orig, listKey)| {
      UncutListMeansUncut(orig, now, cut, listKey);
      assert false;
    }
  }

  // ---------------------------------------------------------------- an example

  function MarshalShell(v: Value): nat {
    if v.Str? then 2 + MarshaledText(v.text) else Shell(v)
  }

  /** len(json.Marshal(v)) of a document whose names hold no direction control. */
  function Marshaled(v: Value): nat {
    Total(MarshalShell, v)
  }

  lemma {:induction false} RepeatedControl(s: string)
    requires forall i :: 0 <= i < |s| ==> s[i] == '\U{202E}'
    ensures TextSize(s) == 3 * |s| && EscapedText(s) == 6 * |s| && MarshaledText(s) == 3 * |s|
  {
    if s != "" { RepeatedControl(s[1..]); }
  }

  lemma MarshaledObject(names: seq<string>, a: Value, b: Value)
    ensures Marshaled(Obj(names, [a])) == 2 + NamesSize(names) + Marshaled(a)
    ensures Marshaled(Obj(names, [a, b])) == 3 + NamesSize(names) + Marshaled(a) + Marshaled(b)
  {
    TotalAllOf(MarshalShell, a, b, Null);
  }

  function Request(number: string, title: string): Value {
    Obj(["number", "title"], [Number(number), Str(title)])
  }

  function Requests(title: string): seq<Value> {
    [Request("4", title), Request("3", title), Request("2", title), Request("1", title)]
  }

  function Answer(requests: seq<Value>): Value {
    Obj(["ok", "pull_requests"], [Bool(true), Arr(requests)])
  }

  lemma RequestSize(number: string, title: string)
    requires |number| == 1
    ensures Size(Request(number, title)) == 23 + EscapedText(title)
      && Marshaled(Request(number, title)) == 23 + MarshaledText(title)
  {
    hide EscapedText, MarshaledText;
    PlainNames("number", "title", "");
    ObjectSize(["number", "title"], Number(number), Str(title), Null);
    MarshaledObject(["number", "title"], Number(number), Str(title));
    hide NamesSize;
  }

  lemma AnswerSize(requests: seq<Value>, size: nat, marshaled: nat)
    requires |requests| == 4 && forall i :: 0 <= i < 4 ==>
      Size(requests[i]) == size && Marshaled(requests[i]) == marshaled
    ensures Size(Answer(requests)) == 33 + 4 * size && Marshaled(Answer(requests)) == 33 + 4 * marshaled
  {
    assert |"ok"| == 2 && |"pull_requests"| == 13;
    hide Size, Marshaled, NamesSize, Total;
    AnswerParts(requests, size, marshaled, "ok", "pull_requests");
  }

  lemma ListSize(own: Value -> nat, requests: seq<Value>, size: nat)
    requires |requests| == 4 && forall i :: 0 <= i < 4 ==> Total(own, requests[i]) == size
    ensures TotalAll(own, requests) == 4 * size
  {
    var first, rest := requests[..2], requests[2..];
    assert requests == first + rest && first == [requests[0], requests[1]] && rest == [requests[2], requests[3]];
    TotalAllSplit(own, first, rest);
    TotalAllOf(own, requests[0], requests[1], Null);
    TotalAllOf(own, requests[2], requests[3], Null);
  }

  lemma AnswerParts(requests: seq<Value>, size: nat, marshaled: nat, okKey: string, key: string)
    requires |requests| == 4 && forall i :: 0 <= i < 4 ==>
      Size(requests[i]) == size && Marshaled(requests[i]) == marshaled
    requires |okKey| == 2 && |key| == 13 && PlainString(okKey) && PlainString(key)
    ensures Size(Obj([okKey, key], [Bool(true), Arr(requests)])) == 33 + 4 * size
    ensures Marshaled(Obj([okKey, key], [Bool(true), Arr(requests)])) == 33 + 4 * marshaled
  {
    var list, ok := Arr(requests), Bool(true);
    PlainNames(okKey, key, key);
    ListSize(Shell, requests, size);
    ListSize(MarshalShell, requests, marshaled);
    assert Size(list) == 5 + 4 * size && Marshaled(list) == 5 + 4 * marshaled;
    assert Size(ok) == 4 && Marshaled(ok) == 4;
    ObjectSize([okKey, key], ok, list, Null);
    MarshaledObject([okKey, key], ok, list);
  }

  /** A title of right-to-left overrides, as long as a title can be. */
  ghost predicate ControlTitle(title: string) {
    |title| == 166 && forall i :: 0 <= i < |title| ==> title[i] == '\U{202E}'
  }

  lemma ControlRequest(number: string, title: string)
    requires |number| == 1 && ControlTitle(title)
    ensures Uncuttable(Request(number, title)) && Size(Request(number, title)) == 1019
      && Marshaled(Request(number, title)) == 521
    ensures TextSize(title) <= 500
  {
    assert |title| == 166;
    RepeatedControl(title);
    hide *;
    RequestSize(number, title);
    SmallRequest(number, title);
  }

  lemma SmallRequest(number: string, title: string)
    requires TextSize(title) <= MIN_CUT_STRING
    ensures Uncuttable(Request(number, title))
  {
    hide TextSize;
    assert Request(number, title).kids == [Number(number), Str(title)];
  }

  lemma AnswerShape(requests: seq<Value>)
    requires forall request :: request in requests ==> Uncuttable(request)
    ensures MapLike(Answer(requests)) && ListOf(Answer(requests), "pull_requests") == requests
    ensures Lookup(Answer(requests), "next") == None && NOTE_KEY !in Answer(requests).names
    ensures OnlyTheListCanBeCut(Answer(requests), "pull_requests")
  {
    assert |"pull_requests"| == 13 && |"next"| == 4 && |NOTE_KEY| == 16 && |"ok"| == 2;
    assert ["ok", "pull_requests"][1..] == ["pull_requests"] && ["pull_requests"][1..] == [];
    assert Uncuttable(Bool(true));
    assert Answer(requests).kids[1].kids == requests;
  }

  lemma RequestsAre(title: string)
    requires ControlTitle(title)
    ensures var requests := Requests(title);
      && |requests| == 4 && (forall request :: request in requests ==> Uncuttable(request))
      && forall i :: 0 <= i < 4 ==> Size(requests[i]) == 1019 && Marshaled(requests[i]) == 521
  {
    hide Uncuttable, Size, Marshaled, Request, ControlTitle, TextSize;
    ControlRequest("4", title);
    ControlRequest("3", title);
    ControlRequest("2", title);
    ControlRequest("1", title);
    var requests := Requests(title);
    assert requests[0] == Request("4", title) && requests[1] == Request("3", title);
    assert requests[2] == Request("2", title) && requests[3] == Request("1", title);
  }

  /** The last page of four pull requests with titles of right-to-left overrides, each of at most 500
      bytes: 2117 bytes as json.Marshal writes it, 4109 once escaped. With the smallest result limit it
      shows fewer of them and no next. */
  lemma LastPageLosesAPullRequest(title: string, cursorOf: Value -> Option<Value>)
    requires ControlTitle(title)
    ensures TextSize(title) <= 500
    ensures Marshaled(Answer(Requests(title))) == 2117 && Size(Answer(Requests(title))) == 4109
    ensures MapLike(Answer(Requests(title)))
    ensures var answer := Answer(Requests(title));
      var reply := CallTool(Content(2117, 4109, answer, Some(answer)), "pull_requests", cursorOf, 4096);
      reply.Shown? && MapLike(reply.document) && |ListOf(reply.document, "pull_requests")| < 4
        && Lookup(reply.document, "next").None?
  {
    ControlRequest("1", title);
    RequestsAre(title);
    hide *;
    AnswerSize(Requests(title), 1019, 521);
    AnswerLoses(Requests(title), cursorOf, 2117, 4096);
  }

  lemma AnswerLoses(requests: seq<Value>, cursorOf: Value -> Option<Value>, bytes: nat, limit: nat)
    requires requests != [] && (forall request :: request in requests ==> Uncuttable(request))
    requires bytes <= limit < Size(Answer(requests))
    ensures MapLike(Answer(requests))
    ensures var content := Content(bytes, Size(Answer(requests)), Answer(requests), Some(Answer(requests)));
      var reply := CallTool(content, "pull_requests", cursorOf, limit);
      reply.Shown? && MapLike(reply.document) && |ListOf(reply.document, "pull_requests")| < |requests|
        && Lookup(reply.document, "next").None?
  {
    AnswerShape(requests);
    ListKey();
    hide *;
    var content := Content(bytes, Size(Answer(requests)), Answer(requests), Some(Answer(requests)));
    EscapedPageLosesEntries(content, "pull_requests", cursorOf, limit);
  }

  lemma ListKey()
    ensures "pull_requests" !in ["ok", "next", NOTE_KEY]
  {
    assert |"pull_requests"| == 13 && |NOTE_KEY| == 16;
  }
}
