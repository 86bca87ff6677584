/** Files that hold one secret, bound to a server by their first line or not (splitOriginLine,
    readTokenFile, secretFor), and the files that the issuing commands write. */
module SecretFile {
  import opened Basics
  import opened Origin

  const PREFIX := "owngit-server:"
  const NAME := "owngit-server"
  const MAXIMUM_LINE: nat := 2048
  const MAXIMUM_FILE: nat := 0x10_0000

  datatype Error = InvalidOrigin | InvalidFile

  datatype Result<T> = Ok(value: T) | Err(error: Error)

  /** The secret, and the canonical origin of the server line or "". */
  datatype Secret = Secret(secret: string, origin: string)

  // ---------------------------------------------------------------- text

  predicate Blank(c: char) {
    c == ' ' || c == '\t' || c == '\r' || c == '\n'
  }

  predicate Space(c: char) {
    Blank(c) || c == 11 as char || c == 12 as char
  }

  /** How many of the first characters are blank. */
  function Blanks(s: string): (n: nat)
    ensures n <= |s| && (forall i :: 0 <= i < n ==> Blank(s[i])) && (n < |s| ==> !Blank(s[n]))
  {
    if s == "" || !Blank(s[0]) then 0 else 1 + Blanks(s[1..])
  }

  function TrimmedLeft(s: string): string {
    if s == "" || !Space(s[0]) then s else TrimmedLeft(s[1..])
  }

  function TrimmedRight(s: string): string {
    if s == "" || !Space(s[|s| - 1]) then s else TrimmedRight(s[..|s| - 1])
  }

  function Trimmed(s: string): string {
    TrimmedRight(TrimmedLeft(s))
  }

  function FirstBreak(s: string): (i: nat)
    ensures i <= |s| && (i < |s| ==> s[i] == '\n') && forall j :: 0 <= j < i ==> s[j] != '\n'
  {
    if s == "" || s[0] == '\n' then 0 else 1 + FirstBreak(s[1..])
  }

  predicate HasBreak(s: string) {
    exists i :: 0 <= i < |s| && (s[i] == '\r' || s[i] == '\n')
  }

  predicate HasBlank(s: string) {
    exists i :: 0 <= i < |s| && (s[i] == ' ' || s[i] == '\t' || s[i] == '\r')
  }

  // ---------------------------------------------------------------- reading

  function WithoutMark(s: string): string {
    if |s| >= 3 && s[0] == 0xEF as char && s[1] == 0xBB as char && s[2] == 0xBF as char then s[3..] else s
  }

  predicate LooksLikeOriginLine(content: string) {
    var plain := WithoutMark(content);
    var text := plain[Blanks(plain)..];
    |text| >= |NAME| && Lower(text[..|NAME|]) == NAME
  }

  /** The server line's origin and the rest of the file. */
  function SplitOriginLine(content: string): Result<(string, string)> {
    if !StartsWith(content, PREFIX) then
      if LooksLikeOriginLine(content) then Err(InvalidOrigin) else Ok(("", content))
    else if FirstBreak(content) == |content| then Err(InvalidOrigin)
    else SplitAt(content[..FirstBreak(content)], content[FirstBreak(content) + 1..])
  }

  function WithoutReturn(s: string): string {
    if s != "" && s[|s| - 1] == '\r' then s[..|s| - 1] else s
  }

  function SplitAt(line: string, rest: string): Result<(string, string)> {
    var text := WithoutReturn(line);
    if !StartsWith(text, PREFIX + " ") then Err(InvalidOrigin) else
      var value := text[|PREFIX| + 1..];
      if value == "" || |line| > MAXIMUM_LINE || HasBlank(value) then Err(InvalidOrigin) else
        match Validated(value)
        case None => Err(InvalidOrigin)
        case Some(u) => if Trimmed(rest) == "" then Err(InvalidOrigin) else Ok((Canonical(u), rest))
  }

  function ReadToken(content: string): Result<Secret> {
    if |content| > MAXIMUM_FILE then Err(InvalidFile) else
      match SplitOriginLine(content)
      case Err(e) => Err(e)
      case Ok(parts) =>
        var token := Trimmed(parts.1);
        if HasBreak(token) then Err(if parts.0 != "" then InvalidOrigin else InvalidFile)
        else if token == "" then Err(InvalidFile)
        else Ok(Secret(token, parts.0))
  }

  function SecretFor(file: Secret, server: Url, inferred: bool): Option<string> {
    if file.origin != "" && file.origin != Canonical(server) then None
    else if inferred && file.origin == "" then None
    else Some(file.secret)
  }

  /** What the issuing commands write. */
  function Printed(origin: string, token: string): string {
    PREFIX + " " + origin + "\n" + token + "\n"
  }

  predicate IsWhite(c: char) {
    9 <= c as int <= 13 || c as int == 32
  }

  lemma SpaceIsWhite(c: char)
    ensures Space(c) <==> IsWhite(c)
  {
  }

  lemma LeftStep(s: string)
    ensures s != "" && Space(s[0]) ==> TrimmedLeft(s) == TrimmedLeft(s[1..]) && IsWhite(s[0])
    ensures s == "" || !Space(s[0]) ==> TrimmedLeft(s) == s && (s != "" ==> !IsWhite(s[0]))
  {
    hide Space, IsWhite;
    if s != "" { SpaceIsWhite(s[0]); }
  }

  /** What is before position i is white, and nothing at i. */
  ghost predicate IsLeftEnd(s: string, i: int) {
    0 <= i <= |s| && (forall k :: 0 <= k < i ==> IsWhite(s[k])) && (i < |s| ==> !IsWhite(s[i]))
  }

  lemma OneMoreIsWhite(s: string, i: int)
    requires s != "" && IsWhite(s[0]) && IsLeftEnd(s[1..], i)
    ensures IsLeftEnd(s, i + 1) && s[1..][i..] == s[i + 1..]
  {
    forall k | 0 <= k < i + 1 ensures IsWhite(s[k]) {
      if k > 0 { assert s[k] == s[1..][k - 1]; }
    }
  }

  lemma {:induction false} LeftIsTrimmed(s: string)
    ensures var i := |s| - |TrimmedLeft(s)|; IsLeftEnd(s, i) && TrimmedLeft(s) == s[i..]
  {
    hide TrimmedLeft;
    LeftStep(s);
    if s != "" && Space(s[0]) {
      LeftIsTrimmed(s[1..]);
      OneMoreIsWhite(s, |s[1..]| - |TrimmedLeft(s)|);
    } else {
      assert s[0..] == s;
    }
  }

  lemma RightStep(s: string)
    ensures s != "" && Space(s[|s| - 1]) ==> TrimmedRight(s) == TrimmedRight(s[..|s| - 1]) && IsWhite(s[|s| - 1])
    ensures s == "" || !Space(s[|s| - 1]) ==> TrimmedRight(s) == s && (s != "" ==> !IsWhite(s[|s| - 1]))
  {
    hide Space, IsWhite;
    if s != "" { SpaceIsWhite(s[|s| - 1]); }
  }

  /** What is from position j on is white, and nothing just before it. */
  ghost predicate IsRightEnd(s: string, j: int) {
    0 <= j <= |s| && (forall k :: j <= k < |s| ==> IsWhite(s[k])) && (j > 0 ==> !IsWhite(s[j - 1]))
  }

  lemma LastIsWhite(s: string, j: int)
    requires s != "" && IsWhite(s[|s| - 1]) && IsRightEnd(s[..|s| - 1], j)
    ensures IsRightEnd(s, j) && s[..|s| - 1][..j] == s[..j]
  {
    forall k | j <= k < |s| ensures IsWhite(s[k]) {
      if k < |s| - 1 { assert s[k] == s[..|s| - 1][k]; }
    }
  }

  lemma {:induction false} RightIsTrimmed(s: string)
    ensures IsRightEnd(s, |TrimmedRight(s)|) && TrimmedRight(s) == s[..|TrimmedRight(s)|]
  {
    hide TrimmedRight;
    RightStep(s);
    if s != "" && Space(s[|s| - 1]) {
      RightIsTrimmed(s[..|s| - 1]);
      LastIsWhite(s, |TrimmedRight(s)|);
    } else {
      assert s[..|s|] == s;
    }
  }

  /** What is between i and j, with all white space before and after it taken off. */
  ghost predicate IsTrimmed(s: string, i: nat, j: nat) {
    && i <= j <= |s|
    && (forall k :: 0 <= k < i || j <= k < |s| ==> IsWhite(s[k]))
    && (i < j ==> !IsWhite(s[i]) && !IsWhite(s[j - 1]))
  }

  /** Both ends of a text together. */
  lemma BothEnds(s: string, i: nat, j: nat)
    requires IsLeftEnd(s, i) && i <= j <= |s| && IsRightEnd(s[i..], j - i)
    ensures IsTrimmed(s, i, j) && s[i..][..j - i] == s[i..j]
  {
    forall k | j <= k < |s| ensures IsWhite(s[k]) {
      assert s[k] == s[i..][k - i];
    }
    assert i < j ==> s[j - 1] == s[i..][j - i - 1];
  }

  /** Trimming takes white space off both ends, and all of it. */
  lemma TrimmedMeans(s: string)
    ensures exists i: nat, j: nat :: IsTrimmed(s, i, j) && Trimmed(s) == s[i..j]
  {
    hide TrimmedLeft, TrimmedRight, IsTrimmed, IsWhite;
    LeftIsTrimmed(s);
    var i := |s| - |TrimmedLeft(s)|;
    RightIsTrimmed(s[i..]);
    BothEnds(s, i, i + |Trimmed(s)|);
  }

  // ---------------------------------------------------------------- round trip

  /** A token on one line without space around it. */
  ghost predicate IsToken(token: string) {
    token != "" && !HasBreak(token) && !Space(token[0]) && !Space(token[|token| - 1])
  }

  lemma TokenIsTrimmed(token: string)
    requires IsToken(token)
    ensures Trimmed(token + "\n") == token
  {
    var s := token + "\n";
    assert TrimmedLeft(s) == s;
    assert s[..|s| - 1] == token;
    assert Space('\n');
    assert TrimmedRight(token) == token;
    assert TrimmedRight(s) == TrimmedRight(s[..|s| - 1]);
  }

  lemma FirstBreakIs(s: string, i: nat)
    requires i < |s| && s[i] == '\n' && forall j :: 0 <= j < i ==> s[j] != '\n'
    ensures FirstBreak(s) == i
  {
  }

  ghost predicate Unbroken(s: string) {
    forall i :: 0 <= i < |s| ==> !Blank(s[i])
  }

  lemma HostTextIsUnbroken(host: string)
    requires HostText(host)
    ensures Unbroken(host)
  {
  }

  lemma TogetherUnbroken(s: string, t: string)
    requires Unbroken(s) && Unbroken(t)
    ensures Unbroken(s + t)
  {
    hide Blank;
  }

  /** A canonical origin has only characters of a host, so no blank and no line break. */
  lemma CanonicalHasNoBlank(u: Url)
    requires WellFormed(u)
    ensures Unbroken(Canonical(u)) && Canonical(u) != ""
  {
    LowerKeeps(u.host);
    var host, port, start := Lower(u.host), NamedPort(u), u.scheme + "://";
    HostTextIsUnbroken(host);
    assert Unbroken(Tail(port)) && Unbroken(start) && Unbroken("[") && Unbroken("]");
    hide HostText, Lower, Digits, NamedPort, Tail, Unbroken, Blank;
    TogetherUnbroken("[", host);
    TogetherUnbroken("[" + host, "]");
    assert Unbroken(Shown(host));
    TogetherUnbroken(Shown(host), Tail(port));
    TogetherUnbroken(start, Joined(host, port));
  }

  /** The server line that the commands print, split again. */
  lemma PrintedLineIsSplit(origin: string, token: string)
    requires origin != "" && Unbroken(origin)
    requires IsToken(token)
    ensures SplitOriginLine(Printed(origin, token)) ==
      if |PREFIX| + 1 + |origin| > MAXIMUM_LINE then Err(InvalidOrigin) else
        match Validated(origin) case None => Err(InvalidOrigin) case Some(u) => Ok((Canonical(u), token + "\n"))
  {
    var content := Printed(origin, token);
    var line, rest := PREFIX + " " + origin, token + "\n";
    assert content == line + "\n" + rest;
    assert StartsWith(content, PREFIX);
    FirstBreakIs(content, |line|);
    assert content[..|line|] == line && content[|line| + 1..] == rest;
    TokenIsTrimmed(token);
    hide Validated, Canonical, Trimmed, LooksLikeOriginLine, IsToken;
    LineIsSplit(origin, rest);
  }

  lemma LineIsSplit(origin: string, rest: string)
    requires origin != "" && Unbroken(origin)
    requires Trimmed(rest) != ""
    ensures SplitAt(PREFIX + " " + origin, rest) ==
      if |PREFIX| + 1 + |origin| > MAXIMUM_LINE then Err(InvalidOrigin) else
        match Validated(origin) case None => Err(InvalidOrigin) case Some(u) => Ok((Canonical(u), rest))
  {
    hide Validated, Canonical, Trimmed;
    var line := PREFIX + " " + origin;
    assert line[|line| - 1] == origin[|origin| - 1];
    assert WithoutReturn(line) == line;
    assert line[..|PREFIX| + 1] == PREFIX + " ";
    assert line[|PREFIX| + 1..] == origin;
    assert !HasBlank(origin);
  }

  /** A file printed for an accepted server gives back exactly its token and its canonical origin, if
      and only if the host has no percent sign and is not empty with the default port or none, and the
      line and the file are within their limits. */
  lemma PrintedReadsBack(raw: string, token: string)
    requires Validated(raw).Some? && IsToken(token)
    ensures var u := Validated(raw).value;
      ReadToken(Printed(Canonical(u), token)) == Ok(Secret(token, Canonical(u))) <==>
        && '%' !in u.host && (u.host != "" || NamedPort(u) != "")
        && |"owngit-server: "| + |Canonical(u)| <= 2048
        && |Printed(Canonical(u), token)| <= 0x10_0000
  {
    AcceptedIsWellFormed(raw);
    CanonicalIsIdempotent(raw);
    var u := Validated(raw).value;
    CanonicalHasNoBlank(u);
    PrintedLineIsSplit(Canonical(u), token);
    TokenIsTrimmed(token);
    hide Validated, Canonical, Trimmed, SplitOriginLine, Printed, WellFormed, Lower, NamedPort;
  }

  /** A token issued by a server whose address has an IPv6 zone is printed to a file that cannot be read back. */
  lemma ZonedFileIsUnreadable(address: string, zone: string, token: string)
    requires IsToken(token) && HostText(address) && HostText(zone) && ':' in address && '%' !in address && '%' !in zone
    ensures var raw, u :=
      "http" + "://" + Joined(address + ("%25" + zone), ""), Url("http", address + ("%" + zone), "");
      Validated(raw) == Some(u) && ReadToken(Printed(Canonical(u), token)) != Ok(Secret(token, Canonical(u)))
  {
    hide *;
    ZoneIsNotCanonicalAgain(address, zone);
    PrintedReadsBack("http" + "://" + Joined(address + ("%25" + zone), ""), token);
  }

  /** So is that of a server with an empty host and the default port. */
  lemma EmptyHostFileIsUnreadable(token: string)
    requires IsToken(token)
    ensures var raw, u := "http" + "://" + Joined("", "80"), Url("http", "", "80");
      Validated(raw) == Some(u) && ReadToken(Printed(Canonical(u), token)) != Ok(Secret(token, Canonical(u)))
  {
    hide *;
    EmptyHostIsNotAcceptedAgain();
    PrintedReadsBack("http" + "://" + Joined("", "80"), token);
  }

  // ---------------------------------------------------------------- bindings

  ghost predicate NameAt(plain: string, k: nat) {
    k + 13 <= |plain| && SameButCase(plain[k..k + 13], "owngit-server")
  }

  lemma NameInSomeCase(name: string)
    ensures Lower(name) == NAME <==> SameButCase(name, "owngit-server")
  {
    LowerComparesCase(name, "owngit-server");
    assert Lower("owngit-server") == "owngit-server";
  }

  /** That of UTF-8. */
  const BYTE_ORDER_MARK := "\U{EF}\U{BB}\U{BF}"

  /** The first text that is not blank, after a byte order mark, is the server line's name in some case. */
  ghost predicate Resembles(content: string) {
    StartsWithName(if StartsWith(content, BYTE_ORDER_MARK) then content[3..] else content)
  }

  ghost predicate StartsWithName(plain: string) {
    exists k: nat :: NameAt(plain, k) && forall j :: 0 <= j < k ==> Blank(plain[j])
  }

  lemma LooksLikeResembles(content: string)
    ensures LooksLikeOriginLine(content) <==> Resembles(content)
  {
    hide SameButCase, Lower, WithoutMark;
    var plain := WithoutMark(content);
    MarkIsSkipped(content);
    var n := Blanks(plain);
    LooksLikeName(content);
    if StartsWithName(plain) {
      var k: nat :| NameAt(plain, k) && forall j :: 0 <= j < k ==> Blank(plain[j]);
      NameIsNotBlank(plain, k);
      assert n == k;
    }
  }

  lemma MarkIsSkipped(content: string)
    ensures WithoutMark(content) == if StartsWith(content, BYTE_ORDER_MARK) then content[3..] else content
  {
    var mark := BYTE_ORDER_MARK;
    if StartsWith(content, mark) {
      assert content[0] == content[..3][0] && content[1] == content[..3][1] && content[2] == content[..3][2];
    }
    assert WithoutMark(content) != content ==> content[..3] == mark;
  }

  lemma LooksLikeName(content: string)
    ensures var plain := WithoutMark(content); LooksLikeOriginLine(content) <==> NameAt(plain, Blanks(plain))
  {
    var plain := WithoutMark(content);
    var n := Blanks(plain);
    hide SameButCase, Lower, WithoutMark, Blanks;
    if n + 13 <= |plain| {
      NameInSomeCase(plain[n..n + 13]);
      assert plain[n..][..13] == plain[n..n + 13];
    }
  }

  lemma NameIsNotBlank(plain: string, k: nat)
    requires NameAt(plain, k)
    ensures k < |plain| && !Blank(plain[k])
  {
    var name := plain[k..k + 13];
    assert name[0] == 'o' || name[0] == 'O';
  }

  /** A file read without a binding does not resemble one with it, and gives its text trimmed; a bound
      file starts with the exact line, names a server that the flags accept, is bound to it, and gives
      what follows the line, trimmed. */
  lemma BindingIsExact(content: string)
    ensures ReadToken(content).Ok? ==>
      var file := ReadToken(content).value;
      && (file.origin == "" ==> !Resembles(content) && file.secret == Trimmed(content))
      && (file.origin != "" ==>
            && StartsWith(content, "owngit-server: ")
            && var line := WithoutReturn(content[..FirstBreak(content)]);
               && |line| > |PREFIX| && Validated(line[|PREFIX| + 1..]).Some?
               && file.origin == Canonical(Validated(line[|PREFIX| + 1..]).value)
               && file.secret == Trimmed(content[FirstBreak(content) + 1..]))
  {
    LooksLikeResembles(content);
    hide Resembles, LooksLikeOriginLine, Validated, Trimmed;
    if StartsWith(content, PREFIX) && ReadToken(content).Ok? {
      var line := content[..FirstBreak(content)];
      var text := WithoutReturn(line);
      assert text == content[..|text|];
      assert content[..|PREFIX| + 1] == text[..|PREFIX| + 1];
    }
  }

  /** Which file is refused and how: one that starts like a binding, or resembles one, always as a wrong
      binding; any other if and only if it is over a mebibyte, has no text, or has more than one line of it. */
  lemma RefusalIsExact(content: string)
    ensures var binds := StartsWith(content, "owngit-server:") || Resembles(content);
      var text := Trimmed(content);
      && (ReadToken(content) == Err(InvalidFile) <==>
            |content| > 0x10_0000 || (!binds && (text == "" || HasBreak(text))))
      && (!binds && ReadToken(content).Ok? ==> ReadToken(content).value == Secret(text, ""))
      && (binds && ReadToken(content).Ok? ==> ReadToken(content).value.origin != "")
  {
    LooksLikeResembles(content);
    if StartsWith(content, PREFIX) && FirstBreak(content) < |content| {
      BoundIsBound(content[..FirstBreak(content)], content[FirstBreak(content) + 1..]);
    }
    hide Resembles, LooksLikeOriginLine, Validated, Trimmed, SplitAt, HasBreak;
  }

  lemma BoundIsBound(line: string, rest: string)
    ensures SplitAt(line, rest).Ok? ==>
      SplitAt(line, rest).value.0 != "" && SplitAt(line, rest).value.1 == rest && Trimmed(rest) != ""
    ensures SplitAt(line, rest).Err? ==> SplitAt(line, rest).error == InvalidOrigin
  {
    hide Validated, Trimmed, Canonical;
    CanonicalIsText();
  }

  lemma CanonicalIsText()
    ensures forall u :: Canonical(u) != ""
  {
  }

  /** A file bound to one server gives its secret for another exactly when both are the same origin,
      inferred or not; a file without a binding gives it exactly for a server that was not inferred. */
  lemma SecretGoesToItsServer(raw: string, secret: string, other: string, inferred: bool)
    requires Validated(raw).Some? && Validated(other).Some?
    ensures var u, v := Validated(raw).value, Validated(other).value;
      && (SecretFor(Secret(secret, Canonical(u)), v, inferred) == Some(secret) <==>
            u.scheme == v.scheme && SameButCase(u.host, v.host) && EffectivePort(u) == EffectivePort(v))
      && (SecretFor(Secret(secret, ""), v, inferred) == Some(secret) <==> !inferred)
  {
    CanonicalComparesOrigins(raw, other);
    AcceptedIsWellFormed(raw);
    CanonicalHasNoBlank(Validated(raw).value);
    hide Validated, Canonical, Lower, WellFormed, EffectivePort, SameButCase;
  }
}
