/** A word quoted for the shell that a command is shown for (shellWord, ShellQuote), and the shells'
    reading of it. A word is a sequence of valid code points. */
module Quoting {
  import opened Basics

  // ---------------------------------------------------------------- PowerShell

  /** The apostrophe and the single quotation marks that PowerShell takes for it. */
  predicate SingleQuote(c: char) {
    c == '\'' || c == '\U{2018}' || c == '\U{2019}' || c == '\U{201A}' || c == '\U{201B}'
  }

  function Doubled(word: string): string {
    if word == "" then ""
    else (if SingleQuote(word[0]) then [word[0], word[0]] else [word[0]]) + Doubled(word[1..])
  }

  function PowerShellWord(word: string): string {
    "'" + Doubled(word) + "'"
  }

  method QuoteForPowerShell(word: string) returns (quoted: string)
    ensures quoted == PowerShellWord(word)
  {
    quoted := "'";
    var i := 0;
    assert word[0..] == word;
    while i < |word|
      invariant 0 <= i <= |word|
      invariant quoted + Doubled(word[i..]) == "'" + Doubled(word)
    {
      assert word[i..][1..] == word[i + 1..];
      if SingleQuote(word[i]) {
        quoted := quoted + [word[i]];
      }
      quoted := quoted + [word[i]];
      i := i + 1;
    }
    quoted := quoted + "'";
  }

  /** What PowerShell ends a literal string at: U+0027 and U+2018 to U+201B. */
  predicate QuotationMark(c: char) {
    c as int == 0x27 || 0x2018 <= c as int <= 0x201B
  }

  /** The rest of a literal string after its opening quote: its text and what follows its end. Two
      quotes are the second one, and one alone ends the string. */
  function LiteralRest(s: string): Option<(string, string)> {
    if s == "" then None
    else if QuotationMark(s[0]) then
      if |s| > 1 && QuotationMark(s[1]) then
        match LiteralRest(s[2..]) case None => None case Some(r) => Some(([s[1]] + r.0, r.1))
      else Some(("", s[1..]))
    else match LiteralRest(s[1..]) case None => None case Some(r) => Some(([s[0]] + r.0, r.1))
  }

  function Literal(s: string): Option<(string, string)> {
    if s == "" || !QuotationMark(s[0]) then None else LiteralRest(s[1..])
  }

  lemma {:induction false} DoubledIsRead(word: string, rest: string)
    requires rest == "" || !QuotationMark(rest[0])
    ensures LiteralRest(Doubled(word) + "'" + rest) == Some((word, rest))
  {
    var s := Doubled(word) + "'" + rest;
    if word == "" {
      assert s[1..] == rest;
    } else {
      DoubledIsRead(word[1..], rest);
      var more := Doubled(word[1..]) + "'" + rest;
      var step := if SingleQuote(word[0]) then 2 else 1;
      assert s[step..] == more;
      assert [word[0]] + word[1..] == word;
    }
  }

  /** PowerShell reads the quoted word back, and all of it, exactly when no quote follows at once. */
  lemma PowerShellReadsBack(word: string, rest: string)
    ensures Literal(PowerShellWord(word) + rest) == Some((word, rest)) <==> rest == "" || !QuotationMark(rest[0])
  {
    var s := PowerShellWord(word) + rest;
    assert s[1..] == Doubled(word) + "'" + rest;
    if rest == "" || !QuotationMark(rest[0]) {
      DoubledIsRead(word, rest);
    } else {
      QuoteAfterGoesOn(word, rest);
    }
  }

  lemma {:induction false} QuoteAfterGoesOn(word: string, rest: string)
    requires rest != "" && QuotationMark(rest[0])
    ensures LiteralRest(Doubled(word) + "'" + rest) != Some((word, rest))
  {
    var s := Doubled(word) + "'" + rest;
    if word == "" {
      assert s[0] == '\'' && s[1] == rest[0];
    } else {
      QuoteAfterGoesOn(word[1..], rest);
      var step := if SingleQuote(word[0]) then 2 else 1;
      assert s[step..] == Doubled(word[1..]) + "'" + rest;
      var more := LiteralRest(s[step..]);
      if more.Some? && [word[0]] + more.value.0 == word {
        assert more.value.0 == word[1..];
      }
    }
  }

  // ---------------------------------------------------------------- POSIX

  /** strings.ReplaceAll of an apostrophe by the end of the quotes, an escaped apostrophe and new quotes. */
  function Escaped(word: string): string {
    if word == "" then ""
    else (if word[0] == '\'' then "'\\''" else [word[0]]) + Escaped(word[1..])
  }

  function PosixWord(word: string): string {
    "'" + Escaped(word) + "'"
  }

  predicate EndsWord(c: char) {
    c == ' ' || c == '\t' || c == '\n' || c == ';' || c == '&' || c == '|' || c == '<' || c == '>' || c == '('
      || c == ')'
  }

  /** Whether a character stands for itself outside quotes and does not expand. */
  predicate Plain(c: char) {
    !EndsWord(c) && c != '\'' && c != '"' && c != '\\' && c != '$' && c != '`' && c != '*' && c != '?' && c != '['
      && c != '#' && c != '~' && c != '='
  }

  /** One shell word without expansions: its text and what follows it. */
  function ShellWord(s: string, quoted: bool): Option<(string, string)> {
    if quoted then
      if s == "" then None
      else if s[0] == '\'' then ShellWord(s[1..], false)
      else match ShellWord(s[1..], true) case None => None case Some(r) => Some(([s[0]] + r.0, r.1))
    else if s == "" || EndsWord(s[0]) then Some(("", s))
    else if s[0] == '\'' then ShellWord(s[1..], true)
    else if s[0] == '\\' && |s| > 1 && s[1] != '\n' then
      match ShellWord(s[2..], false) case None => None case Some(r) => Some(([s[1]] + r.0, r.1))
    else if Plain(s[0]) then
      match ShellWord(s[1..], false) case None => None case Some(r) => Some(([s[0]] + r.0, r.1))
    else None
  }

  /** What stands for an apostrophe, inside quotes. */
  lemma EscapedApostrophe(more: string)
    ensures ShellWord(['\'', '\\', '\'', '\''] + more, true) ==
      match ShellWord(more, true) case None => None case Some(r) => Some((['\''] + r.0, r.1))
  {
    var s := ['\'', '\\', '\'', '\''] + more;
    var escape := ['\\', '\'', '\''] + more;
    var open := ['\''] + more;
    assert s[1..] == escape && escape[2..] == open && open[1..] == more;
    assert ShellWord(s, true) == ShellWord(escape, false);
    assert ShellWord(open, false) == ShellWord(more, true);
  }

  lemma {:induction false} EscapedIsRead(word: string, rest: string)
    requires rest == "" || EndsWord(rest[0])
    ensures ShellWord(Escaped(word) + "'" + rest, true) == Some((word, rest))
  {
    var s := Escaped(word) + "'" + rest;
    if word == "" {
      assert s[1..] == rest;
    } else {
      EscapedIsRead(word[1..], rest);
      var more := Escaped(word[1..]) + "'" + rest;
      if word[0] == '\'' {
        assert s == ['\'', '\\', '\'', '\''] + more;
        EscapedApostrophe(more);
      } else {
        assert s[1..] == more;
      }
      assert [word[0]] + word[1..] == word;
    }
  }

  /** A POSIX shell reads the quoted word back, and all of it, before a blank, an operator or the end. */
  lemma PosixReadsBack(word: string, rest: string)
    requires rest == "" || EndsWord(rest[0])
    ensures ShellWord(PosixWord(word) + rest, false) == Some((word, rest))
  {
    assert (PosixWord(word) + rest)[1..] == Escaped(word) + "'" + rest;
    EscapedIsRead(word, rest);
  }
}
