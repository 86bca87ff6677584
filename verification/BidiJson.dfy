/** The bodies of JSON strings as json.Marshal writes them, and bidi.EscapeJSON, which takes the direction
    controls out of an encoding without changing what it means. An encoding is a sequence of characters. */
module BidiJson {
  import opened Basics
  import opened Json

  const QUOTE: char := '\"'
  const BACKSLASH: char := '\\'

  // ---------------------------------------------------------------- writing

  function HexDigit(n: nat): char
    requires n < 16
  {
    if n < 10 then '0' + n as char else 'a' + (n - 10) as char
  }

  /** The escape of a character of the basic plane: backslash, u and four digits. */
  function Escape(c: char): (s: string)
    requires (c as int) < 0x1_0000
    ensures |s| == 6
  {
    var r := c as int;
    [BACKSLASH, 'u', HexDigit(r / 0x1000), HexDigit(r / 0x100 % 16), HexDigit(r / 16 % 16), HexDigit(r % 16)]
  }

  /** One character inside a string of json.Marshal. */
  function Marshal(c: char): string {
    var r := c as int;
    if c == QUOTE || c == BACKSLASH then [BACKSLASH, c]
    else if r == 8 then "\\b"
    else if r == 9 then "\\t"
    else if r == 10 then "\\n"
    else if r == 12 then "\\f"
    else if r == 13 then "\\r"
    else if r < 0x20 || c == '<' || c == '>' || c == '&' || r == 0x2028 || r == 0x2029 then Escape(c)
    else [c]
  }

  function MarshalText(s: string): string {
    if s == "" then "" else Marshal(s[0]) + MarshalText(s[1..])
  }

  /** The encoding with every direction control escaped. */
  function Escaped(encoded: string): string {
    if encoded == "" then ""
    else (if Control(encoded[0]) then Escape(encoded[0]) else [encoded[0]]) + Escaped(encoded[1..])
  }

  /** What is copied later and the rest, one character on. */
  lemma OneMoreCharacter(encoded: string, copied: nat, index: nat)
    requires copied <= index < |encoded|
    ensures encoded[copied..index] + Escaped(encoded[index..]) ==
      if Control(encoded[index]) then encoded[copied..index] + Escape(encoded[index]) + Escaped(encoded[index + 1..])
      else encoded[copied..index + 1] + Escaped(encoded[index + 1..])
  {
    assert encoded[index..][1..] == encoded[index + 1..];
    assert encoded[copied..index + 1] == encoded[copied..index] + [encoded[index]];
    hide Escape, Control;
  }

  /** bidi.EscapeJSON, which copies what lies between the controls. */
  method EscapeJSON(encoded: string) returns (escaped: string)
    ensures escaped == Escaped(encoded)
  {
    hide Escaped, Escape, Control;
    var out, copied, index := "", 0, 0;
    WholeAndNothing(encoded);
    while index < |encoded|
      invariant 0 <= copied <= index <= |encoded|
      invariant out == "" ==> copied == 0
      invariant out + (encoded[copied..index] + Escaped(encoded[index..])) == Escaped(encoded)
    {
      OneMoreCharacter(encoded, copied, index);
      ControlIsInPlane(encoded[index]);
      if Control(encoded[index]) {
        out := out + encoded[copied..index] + Escape(encoded[index]);
        copied := index + 1;
      }
      index := index + 1;
    }
    if out == "" {
      return encoded;
    }
    return out + encoded[copied..];
  }

  lemma ControlIsInPlane(c: char)
    ensures Control(c) ==> (c as int) < 0xD800
  {
  }

  lemma WholeAndNothing(encoded: string)
    ensures encoded[0..] == encoded && encoded[..|encoded|] == encoded && Escaped(encoded[|encoded|..]) == ""
    ensures encoded[0..0] + Escaped(encoded[0..]) == Escaped(encoded)
  {
  }

  // ---------------------------------------------------------------- reading

  function HexValue(c: char): Option<nat> {
    if '0' <= c <= '9' then Some(c as int - '0' as int)
    else if 'a' <= c <= 'f' then Some(c as int - 'a' as int + 10)
    else if 'A' <= c <= 'F' then Some(c as int - 'A' as int + 10)
    else None
  }

  /** The character of four hexadecimal digits; surrogates are not read here. */
  function FourDigits(s: string): Option<char>
    requires |s| >= 4
  {
    var a, b, c, d := HexValue(s[0]), HexValue(s[1]), HexValue(s[2]), HexValue(s[3]);
    if a.None? || b.None? || c.None? || d.None? then None else
      var r := 0x1000 * a.value + 0x100 * b.value + 16 * c.value + d.value;
      if r < 0xD800 then Some(r as char) else None
  }

  /** The character that an escape of section 7 of RFC 8259 stands for, and what follows it. */
  function ReadEscape(s: string): Option<(char, string)> {
    if |s| < 2 || s[0] != BACKSLASH then None
    else match s[1]
      case '\"' => Some((QUOTE, s[2..]))
      case '\\' => Some((BACKSLASH, s[2..]))
      case '/' => Some(('/', s[2..]))
      case 'b' => Some((8 as char, s[2..]))
      case 't' => Some((9 as char, s[2..]))
      case 'n' => Some((10 as char, s[2..]))
      case 'f' => Some((12 as char, s[2..]))
      case 'r' => Some((13 as char, s[2..]))
      case 'u' =>
        if |s| < 6 || FourDigits(s[2..]).None? then None else Some((FourDigits(s[2..]).value, s[6..]))
      case _ => None
  }

  /** The text of a JSON string after its opening quote, and what follows its end. */
  function ReadText(s: string): Option<(string, string)>
    decreases |s|
  {
    if s == "" || (s[0] as int) < 0x20 then None
    else if s[0] == QUOTE then Some(("", s[1..]))
    else if s[0] == BACKSLASH then
      match ReadEscape(s)
      case None => None
      case Some(e) =>
        if |e.1| >= |s| then None else
          match ReadText(e.1) case None => None case Some(r) => Some(([e.0] + r.0, r.1))
    else match ReadText(s[1..]) case None => None case Some(r) => Some(([s[0]] + r.0, r.1))
  }

  // ---------------------------------------------------------------- what is kept

  lemma HexReadsBack(n: nat)
    requires n < 16
    ensures HexValue(HexDigit(n)) == Some(n)
  {
  }

  lemma DigitsOf(r: nat)
    requires r < 0x1_0000
    ensures r == 0x1000 * (r / 0x1000) + 0x100 * (r / 0x100 % 16) + 16 * (r / 16 % 16) + r % 16
  {
    SixteensOf(r);
    SixteensOf(r / 16);
    SixteensOf(r / 16 / 16);
    assert r / 16 / 16 == r / 0x100 && r / 0x100 / 16 == r / 0x1000;
  }

  lemma SixteensOf(n: nat)
    ensures n == 16 * (n / 16) + n % 16
  {
  }

  lemma FourDigitsReadBack(c: char, s: string)
    requires (c as int) < 0xD800 && |s| >= 4
    requires s[..4] == Escape(c)[2..]
    ensures FourDigits(s) == Some(c)
  {
    var r := c as int;
    HexReadsBack(r / 0x1000);
    HexReadsBack(r / 0x100 % 16);
    HexReadsBack(r / 16 % 16);
    HexReadsBack(r % 16);
    DigitsOf(r);
    assert s[0] == s[..4][0] && s[1] == s[..4][1] && s[2] == s[..4][2] && s[3] == s[..4][3];
    hide HexValue, HexDigit;
  }

  lemma EscapeReadsBack(c: char, rest: string)
    requires (c as int) < 0xD800
    ensures ReadEscape(Escape(c) + rest) == Some((c, rest))
  {
    var s := Escape(c) + rest;
    assert s[2..][..4] == Escape(c)[2..] && s[6..] == rest;
    FourDigitsReadBack(c, s[2..]);
    hide FourDigits, HexDigit;
  }

  lemma MarshalReadsBack(c: char, rest: string)
    ensures if Marshal(c)[0] == BACKSLASH then ReadEscape(Marshal(c) + rest) == Some((c, rest))
      else Marshal(c) == [c] && c != QUOTE && (c as int) >= 0x20
  {
    var s := Marshal(c) + rest;
    if |Marshal(c)| == 6 {
      EscapeReadsBack(c, rest);
    } else if |Marshal(c)| == 2 {
      assert s[2..] == rest;
    }
    hide ReadEscape;
  }

  /** What json.Marshal writes is read back, up to the closing quote. */
  lemma {:induction false} MarshalTextReadsBack(s: string, rest: string)
    ensures ReadText(MarshalText(s) + [QUOTE] + rest) == Some((s, rest))
  {
    var t := MarshalText(s) + [QUOTE] + rest;
    if s == "" {
      assert t[0] == QUOTE && t[1..] == rest;
    } else {
      var more := MarshalText(s[1..]) + [QUOTE] + rest;
      assert t == Marshal(s[0]) + more;
      MarshalTextReadsBack(s[1..], rest);
      MarshalReadsBack(s[0], more);
      hide Marshal, ReadEscape, MarshalText;
      assert Marshal(s[0])[0] != BACKSLASH ==> t[1..] == more;
      assert [s[0]] + s[1..] == s;
    }
  }

  lemma EscapedSplit(a: string, b: string)
    ensures Escaped(a + b) == Escaped(a) + Escaped(b)
    decreases |a|
  {
    if a == "" {
      assert a + b == b;
    } else {
      assert (a + b)[1..] == a[1..] + b;
      EscapedSplit(a[1..], b);
    }
  }

  /** Characters without a direction control stay as they are. */
  lemma {:induction false} PlainStays(s: string)
    requires forall i :: 0 <= i < |s| ==> !Control(s[i])
    ensures Escaped(s) == s
  {
    if s != "" {
      PlainStays(s[1..]);
      assert [s[0]] + s[1..] == s;
    }
  }

  /** An escape has no direction control, and is the same with what follows it escaped. */
  lemma EscapeStays(s: string)
    requires ReadEscape(s).Some?
    ensures var (c, rest) := ReadEscape(s).value;
      && |rest| < |s| && ReadEscape(Escaped(s)) == Some((c, Escaped(rest))) && Escaped(s)[0] == BACKSLASH
  {
    var (c, rest) := ReadEscape(s).value;
    var head := s[..|s| - |rest|];
    EscapeHead(s, head, rest);
    PlainStays(head);
    EscapedSplit(head, rest);
    hide ReadEscape, Control, Escaped;
    OtherRest(head, rest, Escaped(rest));
  }

  /** The characters of an escape. */
  lemma EscapeHead(s: string, head: string, rest: string)
    requires ReadEscape(s).Some? && rest == ReadEscape(s).value.1 && head == s[..|s| - |rest|]
    ensures s == head + rest && (|head| == 2 || |head| == 6) && head[0] == BACKSLASH
    ensures forall i :: 0 <= i < |head| ==> !Control(head[i])
  {
    if s[1] == 'u' {
      assert rest == s[6..];
      FourDigitsArePlain(s[2..]);
      assert head[2] == s[2..][0] && head[3] == s[2..][1] && head[4] == s[2..][2] && head[5] == s[2..][3];
    } else {
      assert rest == s[2..];
    }
    hide FourDigits;
  }

  lemma FourDigitsArePlain(s: string)
    requires |s| >= 4 && FourDigits(s).Some?
    ensures !Control(s[0]) && !Control(s[1]) && !Control(s[2]) && !Control(s[3])
  {
  }

  /** An escape means the same before another rest. */
  lemma OtherRest(head: string, rest: string, other: string)
    requires (|head| == 2 || |head| == 6) && ReadEscape(head + rest).Some?
    requires ReadEscape(head + rest).value.1 == rest
    ensures ReadEscape(head + other) == Some((ReadEscape(head + rest).value.0, other))
  {
    var s, t := head + rest, head + other;
    assert s[0] == t[0] == head[0] && s[1] == t[1] == head[1];
    if |head| == 6 {
      assert s[2..][0] == t[2..][0] == head[2] && s[2..][1] == t[2..][1] == head[3];
      assert s[2..][2] == t[2..][2] == head[4] && s[2..][3] == t[2..][3] == head[5];
      assert t[6..] == other && s[6..] == rest;
    } else {
      assert t[2..] == other && s[2..] == rest;
    }
  }

  /** EscapeJSON keeps the meaning of every string: whatever its body is read as, it is read as afterwards,
      and what follows it is what followed it, escaped. */
  lemma {:induction false} EscapedReadsTheSame(s: string)
    requires ReadText(s).Some?
    ensures ReadText(Escaped(s)) == Some((ReadText(s).value.0, Escaped(ReadText(s).value.1)))
    decreases |s|
  {
    var t := Escaped(s);
    if s[0] == QUOTE {
      assert t == [s[0]] + Escaped(s[1..]) && t[1..] == Escaped(s[1..]);
    } else if s[0] == BACKSLASH {
      EscapeStays(s);
      EscapedReadsTheSame(ReadEscape(s).value.1);
    } else {
      EscapedReadsTheSame(s[1..]);
      if Control(s[0]) {
        EscapeReadsBack(s[0], Escaped(s[1..]));
        assert t == Escape(s[0]) + Escaped(s[1..]) && t[0] == BACKSLASH;
      } else {
        assert t == [s[0]] + Escaped(s[1..]) && t[1..] == Escaped(s[1..]);
      }
    }
  }

  const DIRECTION_CONTROLS :=
    "\U{061C}\U{200E}\U{200F}\U{202A}\U{202B}\U{202C}\U{202D}\U{202E}\U{2066}\U{2067}\U{2068}\U{2069}"

  /** The controls are the directional marks, the embeddings and overrides, and the isolates. */
  lemma ControlsAre(c: char)
    ensures Control(c) <==> c in DIRECTION_CONTROLS
  {
  }

  /** No direction control is left, and a second time nothing changes. */
  lemma {:induction false} NoControlIsLeft(s: string)
    ensures forall i :: 0 <= i < |Escaped(s)| ==> !Control(Escaped(s)[i])
    ensures Escaped(Escaped(s)) == Escaped(s)
  {
    if s != "" {
      NoControlIsLeft(s[1..]);
      HeadHasNoControl(s[0]);
    }
    PlainStays(Escaped(s));
  }

  lemma HeadHasNoControl(c: char)
    ensures var head := if Control(c) then Escape(c) else [c]; forall i :: 0 <= i < |head| ==> !Control(head[i])
  {
  }

  // ---------------------------------------------------------------- sizes

  lemma AsciiSize(s: string)
    requires forall i :: 0 <= i < |s| ==> (s[i] as int) < 0x80
    ensures TextSize(s) == |s|
    decreases |s|
  {
    if s != "" { AsciiSize(s[1..]); }
  }

  lemma MarshalTakes(c: char)
    ensures TextSize(Marshal(c)) == MarshalSize(c)
    ensures TextSize(Escaped(Marshal(c))) == EscapedSize(c)
    ensures TextSize(Escaped([c])) >= TextSize([c])
  {
    if Control(c) {
      AsciiSize(Escape(c));
      assert Escaped([c]) == Escape(c);
    } else if |Marshal(c)| > 1 {
      AsciiSize(Marshal(c));
      PlainStays(Marshal(c));
    }
  }

  /** The sizes that fitResult and its callers count are those of the encoding in UTF-8. */
  lemma {:induction false} MarshalTextTakes(s: string)
    ensures TextSize(MarshalText(s)) == MarshaledText(s)
    ensures TextSize(Escaped(MarshalText(s))) == EscapedText(s)
  {
    if s != "" {
      MarshalTextTakes(s[1..]);
      MarshalTakes(s[0]);
      TextSizeSplit(Marshal(s[0]), MarshalText(s[1..]));
      EscapedSplit(Marshal(s[0]), MarshalText(s[1..]));
      TextSizeSplit(Escaped(Marshal(s[0])), Escaped(MarshalText(s[1..])));
      hide Marshal, Escaped, Escape, MarshalSize, EscapedSize;
    }
  }

  /** EscapeJSON never shortens an encoding. */
  lemma {:induction false} EscapedIsNoShorter(s: string)
    ensures TextSize(Escaped(s)) >= TextSize(s)
  {
    if s != "" {
      EscapedIsNoShorter(s[1..]);
      MarshalTakes(s[0]);
      assert [s[0]] + s[1..] == s;
      EscapedSplit([s[0]], s[1..]);
      TextSizeSplit([s[0]], s[1..]);
      TextSizeSplit(Escaped([s[0]]), Escaped(s[1..]));
      hide Marshal, Escaped, Escape, MarshalSize, EscapedSize;
    }
  }
}
