/** JSON documents as encoding/json decodes them, the size of their encoding by
    bidi.MarshalJSON, and updates at a position inside a document.

    A string is a sequence of Unicode scalar values, which is what the decoder always
    produces: it replaces anything else by U+FFFD. */
module Json {
  import opened Basics

  // ---------------------------------------------------------------- UTF-8

  /** Bytes of one character in UTF-8 (section 3 of RFC 3629). */
  function CharSize(c: char): (n: nat)
    ensures 1 <= n <= 4
  {
    var r := c as int;
    if r < 0x80 then 1 else if r < 0x800 then 2 else if r < 0x1_0000 then 3 else 4
  }

  function Continuation(r: nat): (b: byte)
    ensures !RuneStart(b)
  {
    0x80 + r % 0x40
  }

  /** utf8.RuneStart: every byte but a continuation byte. */
  predicate RuneStart(b: byte) {
    b < 0x80 || b >= 0xC0
  }

  function Utf8(c: char): (bytes: seq<byte>)
    ensures |bytes| == CharSize(c)
    ensures forall i :: 0 <= i < |bytes| ==> (RuneStart(bytes[i]) <==> i == 0)
  {
    var r := c as int;
    if r < 0x80 then [r]
    else if r < 0x800 then [0xC0 + r / 0x40, Continuation(r)]
    else if r < 0x1_0000 then [0xE0 + r / 0x1000, Continuation(r / 0x40), Continuation(r)]
    else [0xF0 + r / 0x4_0000, Continuation(r / 0x1000), Continuation(r / 0x40), Continuation(r)]
  }

  function ContinuedBy(high: nat, b: byte): Option<nat> {
    if 0x80 <= b < 0xC0 then Some(0x40 * high + b - 0x80) else None
  }

  /** The scalar value of a UTF-8 sequence of the shortest length. */
  function Utf8Value(bytes: seq<byte>): Option<nat> {
    if |bytes| == 1 && bytes[0] < 0x80 then Some(bytes[0])
    else if |bytes| == 2 && 0xC2 <= bytes[0] < 0xE0 then ContinuedBy(bytes[0] - 0xC0, bytes[1])
    else if |bytes| == 3 && 0xE0 <= bytes[0] < 0xF0 then
      match ContinuedBy(bytes[0] - 0xE0, bytes[1])
      case None => None
      case Some(high) => if high < 0x20 then None else ContinuedBy(high, bytes[2])
    else if |bytes| == 4 && 0xF0 <= bytes[0] < 0xF5 then
      match ContinuedBy(bytes[0] - 0xF0, bytes[1])
      case None => None
      case Some(high) =>
        if high < 0x10 then None else
          match ContinuedBy(high, bytes[2]) case None => None case Some(more) => ContinuedBy(more, bytes[3])
    else None
  }

  /** Each character is written in the shortest form, which reads back. */
  lemma Utf8ReadsBack(c: char)
    ensures Utf8Value(Utf8(c)) == Some(c as int)
  {
    var r := c as int;
    assert r / 0x40 / 0x40 == r / 0x1000 && r / 0x1000 / 0x40 == r / 0x4_0000;
    assert r == 0x40 * (r / 0x40) + r % 0x40;
    assert r / 0x40 == 0x40 * (r / 0x1000) + r / 0x40 % 0x40;
    assert r / 0x1000 == 0x40 * (r / 0x4_0000) + r / 0x1000 % 0x40;
  }

  function TextBytes(s: string): (bytes: seq<byte>)
    ensures |bytes| == TextSize(s)
  {
    if s == "" then [] else Utf8(s[0]) + TextBytes(s[1..])
  }

  /** len(s) of a Go string. */
  function TextSize(s: string): nat {
    if s == "" then 0 else CharSize(s[0]) + TextSize(s[1..])
  }

  lemma {:induction false} TextSizeSplit(a: string, b: string)
    ensures TextSize(a + b) == TextSize(a) + TextSize(b)
  {
    if a == "" {
      assert a + b == b;
    } else {
      assert (a + b)[1..] == a[1..] + b;
      TextSizeSplit(a[1..], b);
    }
  }

  // ---------------------------------------------------------------- encoded size

  /** A direction control, which bidi.EscapeJSON writes as a six byte escape. */
  predicate Control(c: char) {
    var r := c as int;
    r == 0x061C || r == 0x200E || r == 0x200F || 0x202A <= r <= 0x202E || 0x2066 <= r <= 0x2069
  }

  /** Bytes of one character inside a string of json.Marshal (section 7 of RFC 8259), before
      direction controls are escaped. json.Marshal also escapes the characters HTML reads. */
  function MarshalSize(c: char): (n: nat)
    ensures n >= CharSize(c)
  {
    var r := c as int;
    if c == '\"' || c == '\\' || r == 8 || r == 9 || r == 10 || r == 12 || r == 13 then 2
    else if r < 0x20 || c == '<' || c == '>' || c == '&' || r == 0x2028 || r == 0x2029 then 6
    else CharSize(c)
  }

  function MarshaledText(s: string): nat {
    if s == "" then 0 else MarshalSize(s[0]) + MarshaledText(s[1..])
  }

  /** Bytes of one character inside a string of bidi.MarshalJSON. */
  function EscapedSize(c: char): (n: nat)
    ensures n >= CharSize(c)
    ensures !Control(c) ==> n == MarshalSize(c)
  {
    if Control(c) then 6 else MarshalSize(c)
  }

  function EscapedText(s: string): (n: nat)
    ensures n >= TextSize(s)
  {
    if s == "" then 0 else EscapedSize(s[0]) + EscapedText(s[1..])
  }

  lemma {:induction false} EscapedTextSplit(a: string, b: string)
    ensures EscapedText(a + b) == EscapedText(a) + EscapedText(b)
  {
    if a == "" {
      assert a + b == b;
    } else {
      assert (a + b)[1..] == a[1..] + b;
      EscapedTextSplit(a[1..], b);
    }
  }

  function Quoted(s: string): nat {
    2 + EscapedText(s)
  }

  function Decimal(n: nat): (s: string)
    ensures s != ""
  {
    var digit := ['0' + (n % 10) as char];
    if n < 10 then digit else Decimal(n / 10) + digit
  }

  function DecimalValue(digits: string): int {
    if digits == "" then 0
    else 10 * DecimalValue(digits[..|digits| - 1]) + (digits[|digits| - 1] as int - '0' as int)
  }

  /** Decimal digits, without a leading zero, that read back as the number. */
  lemma {:induction false} DecimalReadsBack(n: nat)
    ensures DecimalValue(Decimal(n)) == n
    ensures forall i :: 0 <= i < |Decimal(n)| ==> '0' <= Decimal(n)[i] <= '9'
    ensures n > 0 ==> Decimal(n)[0] != '0'
  {
    var s := Decimal(n);
    if n >= 10 {
      DecimalReadsBack(n / 10);
      assert s[..|s| - 1] == Decimal(n / 10);
    } else {
      assert s[..0] == "";
    }
  }

  // ---------------------------------------------------------------- documents

  /** A decoded document. A number keeps its literal (json.Decoder.UseNumber). The value of
      names[i] is kids[i]; the names of a decoded map are in sorted order. */
  datatype Value =
    | Null
    | Bool(truth: bool)
    | Number(literal: string)
    | Str(text: string)
    | Arr(kids: seq<Value>)
    | Obj(names: seq<string>, kids: seq<Value>)

  predicate Branch(v: Value) {
    v.Arr? || v.Obj?
  }

  function Kids(v: Value): seq<Value> {
    if Branch(v) then v.kids else []
  }

  /** The sum of a measure over a document and everything in it. */
  function Total(own: Value -> nat, v: Value): nat
    decreases v
  {
    if Branch(v) then own(v) + TotalAll(own, v.kids) else own(v)
  }

  function TotalAll(own: Value -> nat, vs: seq<Value>): nat
    decreases vs
  {
    if vs == [] then 0 else Total(own, vs[0]) + TotalAll(own, vs[1..])
  }

  function Commas(n: nat): nat {
    if n == 0 then 0 else n - 1
  }

  function NamesSize(names: seq<string>): nat {
    if names == [] then 0 else Quoted(names[0]) + 1 + NamesSize(names[1..])
  }

  /** Encoded bytes of a value without the values inside it. */
  function Shell(v: Value): nat {
    match v
    case Null => 4
    case Bool(truth) => if truth then 4 else 5
    case Number(literal) => |literal|
    case Str(text) => Quoted(text)
    case Arr(kids) => 2 + Commas(|kids|)
    case Obj(names, kids) => 2 + Commas(|kids|) + NamesSize(names)
  }

  /** len(bidi.MarshalJSON(v)). */
  function Size(v: Value): nat {
    Total(Shell, v)
  }

  /** The bytes of all strings and the entries of all lists. */
  function OwnBulk(v: Value): nat {
    match v
    case Str(text) => TextSize(text)
    case Arr(kids) => |kids|
    case _ => 0
  }

  function Bulk(v: Value): nat {
    Total(OwnBulk, v)
  }

  lemma {:induction false} TotalAllSplit(own: Value -> nat, a: seq<Value>, b: seq<Value>)
    ensures TotalAll(own, a + b) == TotalAll(own, a) + TotalAll(own, b)
  {
    if a == [] {
      assert a + b == b;
    } else {
      assert (a + b)[1..] == a[1..] + b;
      TotalAllSplit(own, a[1..], b);
    }
  }

  lemma TotalAllPut(own: Value -> nat, vs: seq<Value>, i: nat, w: Value)
    requires i < |vs|
    ensures TotalAll(own, vs[i := w]) + Total(own, vs[i]) == TotalAll(own, vs) + Total(own, w)
  {
    var rest := vs[i + 1..];
    assert vs == vs[..i] + ([vs[i]] + rest);
    assert vs[i := w] == vs[..i] + ([w] + rest);
    TotalAllSplit(own, vs[..i], [vs[i]] + rest);
    TotalAllSplit(own, vs[..i], [w] + rest);
    assert ([vs[i]] + rest)[1..] == rest && ([w] + rest)[1..] == rest;
  }

  // ---------------------------------------------------------------- positions

  /** Whether position at, a list of child indices, is in the document. */
  predicate Has(v: Value, at: seq<nat>) {
    at == [] || (at[0] < |Kids(v)| && Has(Kids(v)[at[0]], at[1..]))
  }

  function Get(v: Value, at: seq<nat>): Value
    requires Has(v, at)
  {
    if at == [] then v else Get(Kids(v)[at[0]], at[1..])
  }

  /** The document with the value at one position replaced, as the set closure of a jsonSlot
      does in place. */
  function Put(v: Value, at: seq<nat>, w: Value): Value
    requires Has(v, at)
  {
    if at == [] then w else v.(kids := v.kids[at[0] := Put(v.kids[at[0]], at[1..], w)])
  }

  /** The measure of a list or an object depends only on its names and its number of values. */
  ghost predicate ShapeOnly(own: Value -> nat) {
    forall v: Value, kids: seq<Value> ::
      Branch(v) && |kids| == |v.kids| ==> own(v.(kids := kids)) == own(v)
  }

  lemma {:induction false} PutTotal(own: Value -> nat, v: Value, at: seq<nat>, w: Value)
    requires Has(v, at) && ShapeOnly(own)
    ensures Total(own, Put(v, at, w)) + Total(own, Get(v, at)) == Total(own, v) + Total(own, w)
    decreases at
  {
    if at != [] {
      var kid := v.kids[at[0]];
      PutTotal(own, kid, at[1..], w);
      TotalAllPut(own, v.kids, at[0], Put(kid, at[1..], w));
      assert own(v.(kids := v.kids[at[0] := Put(kid, at[1..], w)])) == own(v);
    }
  }

  /** Replacing a value changes the encoded size, and the bulk, by exactly the difference. */
  lemma PutSize(v: Value, at: seq<nat>, w: Value)
    requires Has(v, at)
    ensures Size(Put(v, at, w)) + Size(Get(v, at)) == Size(v) + Size(w)
    ensures Bulk(Put(v, at, w)) + Bulk(Get(v, at)) == Bulk(v) + Bulk(w)
  {
    PutTotal(Shell, v, at, w);
    PutTotal(OwnBulk, v, at, w);
  }
}
