/** What one key of the root adds to the encoding. */
module FitSizes {
  import opened Json
  import opened FitResult
  import opened FitTheorems

  lemma {:induction false} NamesSizeSplit(a: seq<string>, b: seq<string>)
    ensures NamesSize(a + b) == NamesSize(a) + NamesSize(b)
  {
    if a == [] {
      assert a + b == b;
    } else {
      assert (a + b)[1..] == a[1..] + b;
      NamesSizeSplit(a[1..], b);
    }
  }

  lemma NamesWithout(names: seq<string>, i: nat)
    requires i < |names|
    ensures NamesSize(names) == NamesSize(names[..i] + names[i + 1..]) + Quoted(names[i]) + 1
  {
    assert [names[i]][1..] == [];
    assert NamesSize([names[i]]) == Quoted(names[i]) + 1;
    hide *;
    assert names == names[..i] + ([names[i]] + names[i + 1..]);
    NamesSizeSplit(names[..i], [names[i]] + names[i + 1..]);
    NamesSizeSplit([names[i]], names[i + 1..]);
    NamesSizeSplit(names[..i], names[i + 1..]);
  }

  lemma KidsWithout(kids: seq<Value>, i: nat)
    requires i < |kids|
    ensures TotalAll(Shell, kids) == TotalAll(Shell, kids[..i] + kids[i + 1..]) + Size(kids[i])
  {
    assert [kids[i]][1..] == [];
    assert TotalAll(Shell, [kids[i]]) == Size(kids[i]);
    hide *;
    assert kids == kids[..i] + ([kids[i]] + kids[i + 1..]);
    TotalAllSplit(Shell, kids[..i], [kids[i]] + kids[i + 1..]);
    TotalAllSplit(Shell, [kids[i]], kids[i + 1..]);
    TotalAllSplit(Shell, kids[..i], kids[i + 1..]);
  }

  /** Bytes of a key with its value, and of the comma that it needs beside others. */
  function EntrySize(key: string, w: Value, others: nat): nat {
    Quoted(key) + 1 + Size(w) + if others > 0 then 1 else 0
  }

  /** A key adds exactly its entry to the encoding of the other keys. */
  lemma KeySize(v: Value, key: string)
    requires MapLike(v) && Lookup(v, key).Some?
    ensures Size(v) == Size(Without(v, key)) + EntrySize(key, Lookup(v, key).value, |v.names| - 1)
  {
    var i := IndexOf(v.names, key);
    KidsWithout(v.kids, i);
    NamesWithout(v.names, i);
    hide NamesSize, TotalAll;
  }

  lemma SetKeySize(v: Value, key: string, w: Value)
    requires MapLike(v)
    ensures Size(WithKey(v, key, w)) == Size(Without(v, key)) + EntrySize(key, w, |Without(v, key).names|)
  {
    SetThenDelete(v, key, w);
    var more := WithKey(v, key, w);
    KeySize(more, key);
    assert |Without(more, key).names| == |more.names| - 1;
    hide Size, EntrySize;
  }

  lemma WithoutSize(v: Value, key: string)
    requires MapLike(v)
    ensures Size(Without(v, key)) <= Size(v)
  {
    if IndexOf(v.names, key) < |v.names| {
      KeySize(v, key);
    }
  }
}
