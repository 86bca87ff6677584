/** fitResult and what every result of it keeps. */
module FitTheorems {
  import opened Basics
  import opened Json
  import opened FitResult

  // ---------------------------------------------------------------- keys of the root

  /** A decoded map: one value for each name, and no name twice. */
  ghost predicate MapLike(v: Value) {
    && v.Obj? && |v.names| == |v.kids|
    && (forall i, j :: 0 <= i < j < |v.names| ==> v.names[i] != v.names[j])
  }

  function IndexOf(names: seq<string>, key: string): (i: nat)
    ensures i <= |names|
    ensures forall j :: 0 <= j < i ==> names[j] != key
    ensures i < |names| ==> names[i] == key
  {
    if names == [] || names[0] == key then 0 else
      var i := IndexOf(names[1..], key);
      assert forall j :: 1 <= j < i + 1 ==> names[j] == names[1..][j - 1];
      i + 1
  }

  /** root[key], and None for a missing key. */
  function Lookup(v: Value, key: string): Option<Value>
    requires v.Obj? && |v.names| == |v.kids|
  {
    var i := IndexOf(v.names, key);
    if i < |v.names| then Some(v.kids[i]) else None
  }

  /** delete(root, key). */
  function Without(v: Value, key: string): Value
    requires v.Obj? && |v.names| == |v.kids|
  {
    var i := IndexOf(v.names, key);
    if i < |v.names| then Obj(v.names[..i] + v.names[i + 1..], v.kids[..i] + v.kids[i + 1..]) else v
  }

  /** root[key] = w. */
  function WithKey(v: Value, key: string, w: Value): Value
    requires v.Obj? && |v.names| == |v.kids|
  {
    var i := IndexOf(v.names, key);
    if i < |v.names| then v.(kids := v.kids[i := w]) else
      var p := Place(v.names, key);
      Obj(Insert(v.names, p, key), Insert(v.kids, p, w))
  }

  lemma InsertThenDrop<T>(s: seq<T>, p: nat, x: T)
    requires p <= |s|
    ensures |Insert(s, p, x)| == |s| + 1 && Insert(s, p, x)[p] == x
    ensures forall j :: 0 <= j < p ==> Insert(s, p, x)[j] == s[j]
    ensures forall j :: p < j <= |s| ==> Insert(s, p, x)[j] == s[j - 1]
    ensures Insert(s, p, x)[..p] + Insert(s, p, x)[p + 1..] == s
  {
  }

  lemma InsertKey(v: Value, key: string, w: Value, p: nat)
    requires MapLike(v) && key !in v.names && p <= |v.names|
    ensures var more := Obj(Insert(v.names, p, key), Insert(v.kids, p, w));
      && MapLike(more) && IndexOf(more.names, key) == p && more.kids[p] == w
      && more.names[..p] + more.names[p + 1..] == v.names && more.kids[..p] + more.kids[p + 1..] == v.kids
  {
    InsertThenDrop(v.names, p, key);
    InsertThenDrop(v.kids, p, w);
    var names := Insert(v.names, p, key);
    forall i, j | 0 <= i < j < |names| ensures names[i] != names[j] {
      var a, b := if i > p then i - 1 else i, if j > p then j - 1 else j;
      if i != p && j != p { assert v.names[a] != v.names[b]; }
    }
    assert forall j :: 0 <= j < p ==> names[j] in v.names;
    assert IndexOf(names, key) == p;
  }

  lemma DeleteKey(v: Value, key: string)
    requires MapLike(v)
    ensures MapLike(Without(v, key)) && key !in Without(v, key).names
  {
    var i := IndexOf(v.names, key);
    if i < |v.names| {
      var fewer := v.names[..i] + v.names[i + 1..];
      assert forall j :: 0 <= j < i ==> fewer[j] == v.names[j];
      assert forall j :: i <= j < |fewer| ==> fewer[j] == v.names[j + 1];
    } else {
      assert forall j :: 0 <= j < |v.names| ==> v.names[j] != key;
    }
  }

  /** Setting a key keeps a map a map, can be read back, and is undone by deleting the key. */
  lemma SetThenDelete(v: Value, key: string, w: Value)
    requires MapLike(v)
    ensures MapLike(WithKey(v, key, w)) && MapLike(Without(v, key))
    ensures Lookup(WithKey(v, key, w), key) == Some(w)
    ensures Without(WithKey(v, key, w), key) == Without(v, key)
    ensures key !in Without(v, key).names
  {
    DeleteKey(v, key);
    var i := IndexOf(v.names, key);
    if i == |v.names| {
      InsertKey(v, key, w, Place(v.names, key));
    } else {
      var kids := v.kids[i := w];
      assert kids[..i] + kids[i + 1..] == v.kids[..i] + v.kids[i + 1..];
    }
  }

  /** Deleting a missing key does nothing. */
  lemma DeleteMissing(v: Value, key: string)
    requires MapLike(v) && key !in v.names
    ensures Without(v, key) == v && Lookup(v, key) == None
  {
  }

  // ---------------------------------------------------------------- fitResult

  function Strings(paths: seq<string>): (vs: seq<Value>)
    ensures |vs| == |paths| && forall i :: 0 <= i < |vs| ==> vs[i] == Str(paths[i])
  {
    seq(|paths|, i requires 0 <= i < |paths| => Str(paths[i]))
  }

  function Note(bytes: nat, limit: nat, cut: seq<string>): Value {
    Obj(["bytes", "cut", "limit"], [Number(Decimal(bytes)), Arr(Strings(cut)), Number(Decimal(limit))])
  }

  /** What the note says: the size before the cut, the limit, and the paths. */
  lemma NoteHolds(bytes: nat, limit: nat, cut: seq<string>)
    ensures var note := Note(bytes, limit, cut);
      && MapLike(note)
      && Lookup(note, "bytes") == Some(Number(Decimal(bytes)))
      && Lookup(note, "limit") == Some(Number(Decimal(limit)))
      && Lookup(note, "cut") == Some(Arr(Strings(cut)))
  {
    var names := ["bytes", "cut", "limit"];
    assert |names[0]| == 5 && |names[1]| == 3 && names[0][0] == 'b' && names[2][0] == 'l';
    assert names[1..] == ["cut", "limit"] && names[1..][1..] == ["limit"];
    assert IndexOf(["limit"], "limit") == 0;
    assert IndexOf(["cut", "limit"], "limit") == 1;
    assert IndexOf(names, "limit") == 2;
    assert IndexOf(["cut", "limit"], "cut") == 0;
    assert IndexOf(names, "cut") == 1;
  }

  /** The last resort: only the root's ok and a note that everything else was cut. */
  function Fallback(root: Value, bytes: nat, limit: nat): Value
    requires root.Obj? && |root.names| == |root.kids|
  {
    var ok := Lookup(root, "ok");
    Obj(["ok", NOTE_KEY], [if ok.Some? then ok.value else Null, Note(bytes, limit, ["*"])])
  }

  lemma ShortenKeepsTheRoot(doc: Document, excess: nat)
    requires MapLike(doc.root) && excess > 0 && Shorten(doc, excess).Some?
    ensures var root := Shorten(doc, excess).value.root; MapLike(root) && root.names == doc.root.names
  {
  }

  datatype Turn = Done(document: Value) | Again(next: Document)

  /** One attempt of fitResult: the document with its note when that fits, else one more cut. */
  function Attempt(doc: Document, bytes: nat, limit: nat): (turn: Turn)
    requires MapLike(doc.root)
    ensures turn.Again? ==> MapLike(turn.next.root)
  {
    var noted := WithKey(doc.root, NOTE_KEY, Note(bytes, limit, doc.cut));
    if Size(noted) <= limit then Done(noted) else
      SetThenDelete(doc.root, NOTE_KEY, Note(bytes, limit, doc.cut));
      var bare := Document(Without(noted, NOTE_KEY), doc.cut);
      match Shorten(bare, Size(noted) - limit)
      case None => Done(Fallback(bare.root, bytes, limit))
      case Some(next) =>
        ShortenKeepsTheRoot(bare, Size(noted) - limit);
        Again(next)
  }

  /** The attempts of fitResult from one attempt on. */
  function FitFrom(doc: Document, bytes: nat, limit: nat, attempt: nat): Value
    requires MapLike(doc.root)
    decreases MAX_ATTEMPTS - attempt, bytes
  {
    if attempt >= MAX_ATTEMPTS then Fallback(doc.root, bytes, limit) else
      match Attempt(doc, bytes, limit)
      case Done(document) => document
      case Again(next) => FitFrom(next, bytes, limit, attempt + 1)
  }

  /** What fitResult starts from: the decoded object, or an empty one. */
  function Start(decoded: Option<Value>): Value {
    if decoded.Some? && decoded.value.Obj? then decoded.value else Obj([], [])
  }

  ghost predicate Decodes(decoded: Option<Value>) {
    decoded.Some? && decoded.value.Obj? ==> MapLike(decoded.value)
  }

  datatype Fitted = Whole(content: seq<byte>) | Cut(document: Value)

  /** The body of the loop in fitResult. */
  method TryOnce(cutter: Cutter, bytes: nat, limit: nat) returns (done: Option<Value>)
    requires MapLike(cutter.root)
    modifies cutter
    ensures var turn := Attempt(old(cutter.State()), bytes, limit);
      if turn.Done? then done == Some(turn.document) else done == None && cutter.State() == turn.next
  {
    hide Shorten, WithKey, Without, Note, Size, Fallback;
    ghost var doc := cutter.State();
    var note := Note(bytes, limit, cutter.cut);
    SetThenDelete(cutter.root, NOTE_KEY, note);
    cutter.root := WithKey(cutter.root, NOTE_KEY, note);
    var encoded := Size(cutter.root);
    if encoded <= limit {
      return Some(cutter.root);
    }
    cutter.root := Without(cutter.root, NOTE_KEY);
    var shortened := cutter.ShortenLargest(encoded - limit);
    return if shortened then None else Some(Fallback(cutter.root, bytes, limit));
  }

  lemma FitUnfolds(doc: Document, bytes: nat, limit: nat, attempt: nat)
    requires MapLike(doc.root) && attempt < MAX_ATTEMPTS
    ensures FitFrom(doc, bytes, limit, attempt) ==
      match Attempt(doc, bytes, limit)
      case Done(document) => document
      case Again(next) => FitFrom(next, bytes, limit, attempt + 1)
  {
  }

  /** fitResult of content, whose first JSON value decodes to decoded. */
  method Fit(content: seq<byte>, decoded: Option<Value>, limit: nat) returns (r: Fitted)
    requires Decodes(decoded)
    ensures r == if |content| <= limit then Whole(content)
                 else Cut(FitFrom(Document(Start(decoded), []), |content|, limit, 0))
  {
    if |content| <= limit {
      return Whole(content);
    }
    var document := CutToFit(Start(decoded), |content|, limit);
    return Cut(document);
  }

  method CutToFit(start: Value, bytes: nat, limit: nat) returns (r: Value)
    requires MapLike(start)
    ensures r == FitFrom(Document(start, []), bytes, limit, 0)
  {
    hide Attempt, Shorten, Fallback;
    var cutter := new Cutter(start);
    var attempt := 0;
    while attempt < MAX_ATTEMPTS
      invariant attempt <= MAX_ATTEMPTS && fresh(cutter) && MapLike(cutter.root)
      invariant FitFrom(cutter.State(), bytes, limit, attempt) == FitFrom(Document(start, []), bytes, limit, 0)
    {
      ghost var doc := cutter.State();
      FitUnfolds(doc, bytes, limit, attempt);
      var done := TryOnce(cutter, bytes, limit);
      if done.Some? {
        return done.value;
      }
      attempt := attempt + 1;
    }
    return Fallback(cutter.root, bytes, limit);
  }

  // ---------------------------------------------------------------- only listed prefixes

  ghost predicate SameShape(v: Value, w: Value) {
    || (v.Arr? && w.Arr?)
    || (v.Obj? && w.Obj? && v.names == w.names && |v.kids| == |w.kids|)
  }

  /** now is orig, at path, with some strings and lists replaced by prefixes whose paths are all in
      cut. A string is only ever cut when it is long, and keeps its first 1021 bytes. */
  ghost predicate Trimmed(orig: Value, now: Value, path: string, cut: seq<string>)
    decreases orig
  {
    if orig.Str? then
      && now.Str? && now.text <= orig.text
      && (now != orig ==> path in cut && LongString(orig) && TextSize(now.text) + 3 >= MIN_CUT_STRING)
    else if Branch(orig) then
      && SameShape(orig, now) && |now.kids| <= |orig.kids|
      && (|now.kids| < |orig.kids| ==> path in cut)
      && (forall i: nat :: i < |now.kids| ==> Trimmed(orig.kids[i], now.kids[i], ChildPath(orig, path, i), cut))
    else now == orig
  }

  lemma {:induction false} TrimmedSelf(v: Value, path: string)
    ensures Trimmed(v, v, path, [])
  {
    if Branch(v) {
      forall i: nat | i < |v.kids| ensures Trimmed(v.kids[i], v.kids[i], ChildPath(v, path, i), []) {
        TrimmedSelf(v.kids[i], ChildPath(v, path, i));
      }
    }
  }

  lemma {:induction false} TrimmedMore(orig: Value, now: Value, path: string, cut: seq<string>, more: seq<string>)
    requires Trimmed(orig, now, path, cut) && forall p :: p in cut ==> p in more
    ensures Trimmed(orig, now, path, more)
    decreases orig
  {
    if Branch(orig) {
      forall i: nat | i < |now.kids| ensures Trimmed(orig.kids[i], now.kids[i], ChildPath(orig, path, i), more) {
        TrimmedMore(orig.kids[i], now.kids[i], ChildPath(orig, path, i), cut, more);
      }
    }
  }

  /** A cut at a position whose path is recorded leaves a trimmed document. */
  lemma {:induction false} CutKeepsTrimmed(orig: Value, now: Value, path: string, at: seq<nat>, w: Value,
                                           cut: seq<string>, more: seq<string>)
    requires Trimmed(orig, now, path, cut) && Has(now, at) && LocalCut(Get(now, at), w)
    requires PathOf(now, path, at) in more && forall p :: p in cut ==> p in more
    ensures Trimmed(orig, Put(now, at, w), path, more)
    decreases orig
  {
    if at == [] {
      TrimmedMore(orig, now, path, cut, more);
    } else {
      var later := Put(now, at, w);
      forall i: nat | i < |later.kids| ensures Trimmed(orig.kids[i], later.kids[i], ChildPath(orig, path, i), more) {
        if i == at[0] {
          CutKeepsTrimmed(orig.kids[i], now.kids[i], ChildPath(orig, path, i), at[1..], w, cut, more);
        } else {
          TrimmedMore(orig.kids[i], now.kids[i], ChildPath(orig, path, i), cut, more);
        }
      }
    }
  }

  /** Every position of a trimmed document is one of the original, at the same path. */
  lemma {:induction false} TrimmedAt(orig: Value, now: Value, path: string, cut: seq<string>, at: seq<nat>)
    requires Trimmed(orig, now, path, cut) && Has(now, at)
    ensures Has(orig, at) && PathOf(now, path, at) == PathOf(orig, path, at)
    ensures Trimmed(Get(orig, at), Get(now, at), PathOf(orig, path, at), cut)
    decreases at
  {
    if at != [] {
      TrimmedAt(orig.kids[at[0]], now.kids[at[0]], ChildPath(orig, path, at[0]), cut, at[1..]);
    }
  }

  /** Trimming never makes the encoding longer. */
  lemma {:induction false} TrimmedSize(orig: Value, now: Value, path: string, cut: seq<string>)
    requires Trimmed(orig, now, path, cut)
    ensures Size(now) <= Size(orig)
    decreases orig, 1
  {
    if orig.Str? {
      assert orig.text == now.text + orig.text[|now.text|..];
      EscapedTextSplit(now.text, orig.text[|now.text|..]);
    } else if Branch(orig) {
      TrimmedSizes(orig, now, path, cut, 0);
    }
  }

  lemma {:induction false} TrimmedSizes(orig: Value, now: Value, path: string, cut: seq<string>, i: nat)
    requires Branch(orig) && Trimmed(orig, now, path, cut) && i <= |now.kids|
    ensures TotalAll(Shell, now.kids[i..]) <= TotalAll(Shell, orig.kids[i..])
    decreases orig, 0, |now.kids| - i
  {
    if i < |now.kids| {
      TrimmedSize(orig.kids[i], now.kids[i], ChildPath(orig, path, i), cut);
      TrimmedSizes(orig, now, path, cut, i + 1);
      assert now.kids[i..][1..] == now.kids[i + 1..] && orig.kids[i..][1..] == orig.kids[i + 1..];
    }
  }

  // ---------------------------------------------------------------- the list of cuts

  ghost predicate Shorter(now: Value, orig: Value) {
    || (now.Str? && orig.Str? && |now.text| < |orig.text|)
    || (now.Arr? && orig.Arr? && |now.kids| < |orig.kids|)
  }

  /** Every path in cut is the path of a string or a list of the original that is shorter now, or
      is gone with the end of a list around it. */
  ghost predicate Accurate(orig: Value, now: Value, cut: seq<string>) {
    forall p :: p in cut ==> exists at: seq<nat> :: ReallyCut(orig, now, at, p)
  }

  ghost predicate ReallyCut(orig: Value, now: Value, at: seq<nat>, path: string) {
    && at != [] && Has(orig, at) && PathOf(orig, "", at) == path
    && (Has(now, at) ==> Shorter(Get(now, at), Get(orig, at)))
  }

  lemma CutStaysCut(orig: Value, now: Value, later: Value, cut: seq<string>, more: seq<string>, at: seq<nat>,
                    path: string)
    requires Trimmed(orig, now, "", cut) && Trimmed(now, later, "", more) && ReallyCut(orig, now, at, path)
    ensures ReallyCut(orig, later, at, path)
  {
    if Has(later, at) {
      TrimmedAt(now, later, "", more, at);
    }
  }

  lemma {:induction false} PutThenGet(v: Value, at: seq<nat>, w: Value)
    requires Has(v, at)
    ensures Has(Put(v, at, w), at) && Get(Put(v, at, w), at) == w
    decreases at
  {
    if at != [] { PutThenGet(v.kids[at[0]], at[1..], w); }
  }

  lemma CutIsShorter(orig: Value, v: Value, w: Value, path: string, cut: seq<string>)
    requires Trimmed(orig, v, path, cut) && LocalCut(v, w)
    ensures Shorter(w, orig)
  {
  }

  /** One cut of shortenLargest changes the document before it only at the place it chose, and keeps it a
      trimmed original with an accurate list of cuts. */
  lemma CutIsListed(orig: Value, doc: Document, excess: nat)
    requires excess > 0 && Shorten(doc, excess).Some?
    requires Trimmed(orig, doc.root, "", doc.cut) && Accurate(orig, doc.root, doc.cut)
    ensures var next := Shorten(doc, excess).value;
      && Trimmed(orig, next.root, "", next.cut) && Accurate(orig, next.root, next.cut)
      && Choose(doc.root).Some? && Trimmed(doc.root, next.root, "", [Choose(doc.root).value.path])
      && Choose(doc.root).value.path in next.cut
  {
    var slot := Choose(doc.root).value;
    var w := CutDown(slot.value, excess);
    var next := Shorten(doc, excess).value;
    hide Choose, CutDown, Shorten, LongString, NonEmptyList, Trimmed, Put, Get, PathOf;
    CutKeepsTrimmed(orig, doc.root, "", slot.at, w, doc.cut, next.cut);
    TrimmedSelf(doc.root, "");
    CutKeepsTrimmed(doc.root, doc.root, "", slot.at, w, [], [slot.path]);
    TrimmedMore(doc.root, next.root, "", [slot.path], next.cut);
    forall p | p in next.cut ensures exists at: seq<nat> :: ReallyCut(orig, next.root, at, p) {
      if p in doc.cut {
        var at: seq<nat> :| ReallyCut(orig, doc.root, at, p);
        CutStaysCut(orig, doc.root, next.root, doc.cut, next.cut, at, p);
      } else {
        TrimmedAt(orig, doc.root, "", doc.cut, slot.at);
        PutThenGet(doc.root, slot.at, w);
        CutIsShorter(Get(orig, slot.at), slot.value, w, p, doc.cut);
        assert ReallyCut(orig, next.root, slot.at, p);
      }
    }
  }

  // ---------------------------------------------------------------- every result

  /** r is the document now, which is orig cut only where the note says, with that note. */
  ghost predicate CutWhereNoted(orig: Value, r: Value, bytes: nat, limit: nat, cut: seq<string>) {
    && MapLike(r) && Size(r) <= limit
    && Lookup(r, NOTE_KEY) == Some(Note(bytes, limit, cut))
    && Trimmed(orig, Without(r, NOTE_KEY), "", cut)
    && Accurate(orig, Without(r, NOTE_KEY), cut)
  }

  /** r is the last resort for some trimmed form of orig. */
  ghost predicate GaveUp(orig: Value, r: Value, bytes: nat, limit: nat, root: Value, cut: seq<string>) {
    && MapLike(orig) && MapLike(root) && root.names == orig.names
    && Trimmed(orig, root, "", cut)
    && r == Fallback(root, bytes, limit)
  }

  /** The result of fitResult, without its note, differs from the decoded original only at places
      listed in the note and below them, and every listed place really was cut. */
  ghost predicate Explained(orig: Value, r: Value, bytes: nat, limit: nat) {
    || (exists cut: seq<string> :: CutWhereNoted(orig, r, bytes, limit, cut))
    || (exists root: Value, cut: seq<string> :: GaveUp(orig, r, bytes, limit, root, cut))
  }

  /** What an attempt starts from: the original without a result_truncated of its own, cut only where
      cut says. In the first attempt that key may still be there. */
  ghost predicate OnCourse(orig: Value, doc: Document) {
    && MapLike(orig) && NOTE_KEY !in orig.names
    && MapLike(doc.root)
    && Without(doc.root, NOTE_KEY).names == orig.names
    && Trimmed(orig, Without(doc.root, NOTE_KEY), "", doc.cut)
    && Accurate(orig, Without(doc.root, NOTE_KEY), doc.cut)
  }

  lemma AttemptKeepsCourse(orig: Value, doc: Document, bytes: nat, limit: nat)
    requires OnCourse(orig, doc)
    ensures match Attempt(doc, bytes, limit)
      case Done(r) => Explained(orig, r, bytes, limit)
      case Again(next) => OnCourse(orig, next)
  {
    hide Shorten, Trimmed, Accurate, Fallback, Note, Size, WithKey, Without;
    var note := Note(bytes, limit, doc.cut);
    var noted := WithKey(doc.root, NOTE_KEY, note);
    SetThenDelete(doc.root, NOTE_KEY, note);
    var bare := Document(Without(noted, NOTE_KEY), doc.cut);
    if Size(noted) <= limit {
      assert CutWhereNoted(orig, noted, bytes, limit, doc.cut);
    } else {
      var excess := Size(noted) - limit;
      if Shorten(bare, excess).None? {
        assert GaveUp(orig, Fallback(bare.root, bytes, limit), bytes, limit, bare.root, doc.cut);
      } else {
        ShortenKeepsTheRoot(bare, excess);
        CutIsListed(orig, bare, excess);
        DeleteMissing(Shorten(bare, excess).value.root, NOTE_KEY);
      }
    }
  }

  lemma {:induction false} FitFromIsExplained(orig: Value, doc: Document, bytes: nat, limit: nat, attempt: nat)
    requires OnCourse(orig, doc)
    ensures Explained(orig, FitFrom(doc, bytes, limit, attempt), bytes, limit)
    decreases MAX_ATTEMPTS - attempt
  {
    hide Attempt, Fallback, Trimmed, Accurate, Without;
    if attempt < MAX_ATTEMPTS {
      AttemptKeepsCourse(orig, doc, bytes, limit);
      match Attempt(doc, bytes, limit)
      case Done(r) =>
      case Again(next) => FitFromIsExplained(orig, next, bytes, limit, attempt + 1);
    } else {
      FallbackIgnoresTheNote(doc.root, bytes, limit);
      DeleteKey(doc.root, NOTE_KEY);
      assert GaveUp(orig, FitFrom(doc, bytes, limit, attempt), bytes, limit, Without(doc.root, NOTE_KEY), doc.cut);
    }
  }

  lemma FallbackIgnoresTheNote(root: Value, bytes: nat, limit: nat)
    requires MapLike(root)
    ensures MapLike(Without(root, NOTE_KEY))
      && Fallback(Without(root, NOTE_KEY), bytes, limit) == Fallback(root, bytes, limit)
  {
    DeleteKey(root, NOTE_KEY);
    var i, k := IndexOf(root.names, NOTE_KEY), IndexOf(root.names, "ok");
    if i < |root.names| {
      var fewer := Without(root, NOTE_KEY);
      if k < i {
        IndexIsFirst(fewer.names, "ok", k);
      } else if k < |root.names| {
        IndexIsFirst(fewer.names, "ok", k - 1);
      } else {
        assert forall j :: 0 <= j < |fewer.names| ==> fewer.names[j] != "ok";
        assert IndexOf(fewer.names, "ok") == |fewer.names|;
      }
    }
  }

  lemma IndexIsFirst(names: seq<string>, key: string, i: nat)
    requires i < |names| && names[i] == key && forall j :: 0 <= j < i ==> names[j] != key
    ensures IndexOf(names, key) == i
  {
    assert !(forall j :: 0 <= j < |names| ==> names[j] != key);
  }

  /** Over any number of cuts, fitResult keeps every key, turns strings and lists only into prefixes,
      and lists exactly what it cut. */
  lemma ResultIsExplained(decoded: Option<Value>, bytes: nat, limit: nat)
    requires Decodes(decoded)
    ensures Explained(Without(Start(decoded), NOTE_KEY), FitFrom(Document(Start(decoded), []), bytes, limit, 0),
                      bytes, limit)
  {
    var start := Start(decoded);
    var orig := Without(start, NOTE_KEY);
    DeleteKey(start, NOTE_KEY);
    TrimmedSelf(orig, "");
    FitFromIsExplained(orig, Document(start, []), bytes, limit, 0);
  }

  /** Whether the value at a position is there unchanged but for what is inside it. */
  ghost predicate SameAt(orig: Value, now: Value, at: seq<nat>)
    requires Has(orig, at)
  {
    Has(now, at) &&
    var v, w := Get(orig, at), Get(now, at);
    if Branch(v) then SameShape(v, w) && |v.kids| == |w.kids| else v == w
  }

  /** Each place that differs lies at or below a listed path. */
  lemma {:induction false} DifferenceIsListed(orig: Value, now: Value, path: string, cut: seq<string>, at: seq<nat>)
    requires Trimmed(orig, now, path, cut) && Has(orig, at) && !SameAt(orig, now, at)
    ensures exists j: nat :: j <= |at| && HasPrefix(orig, at, j) && PathOf(orig, path, at[..j]) in cut
    decreases at
  {
    if at == [] || at[0] >= |now.kids| {
      assert at[..0] == [] && HasPrefix(orig, at, 0) && PathOf(orig, path, at[..0]) in cut;
    } else {
      var child := ChildPath(orig, path, at[0]);
      DifferenceIsListed(orig.kids[at[0]], now.kids[at[0]], child, cut, at[1..]);
      var j: nat :| j <= |at[1..]| && HasPrefix(orig.kids[at[0]], at[1..], j)
        && PathOf(orig.kids[at[0]], child, at[1..][..j]) in cut;
      PrefixBelow(orig, path, at, j);
    }
  }

  lemma PrefixBelow(v: Value, path: string, at: seq<nat>, j: nat)
    requires at != [] && at[0] < |Kids(v)| && j <= |at| - 1 && HasPrefix(Kids(v)[at[0]], at[1..], j)
    ensures HasPrefix(v, at, j + 1)
    ensures PathOf(v, path, at[..j + 1]) == PathOf(Kids(v)[at[0]], ChildPath(v, path, at[0]), at[1..][..j])
  {
    assert at[..j + 1][1..] == at[1..][..j];
  }

  ghost predicate HasPrefix(v: Value, at: seq<nat>, j: nat) {
    j <= |at| && Has(v, at[..j])
  }
}
