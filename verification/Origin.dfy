/** Server origins: which text the server flags accept (ValidateServer) and the canonical text of an
    origin (canonicalOrigin). Text is ASCII. */
module Origin {
  import opened Basics

  /** An accepted server: its scheme in lower case, its host name without brackets and escapes, and its port. */
  datatype Url = Url(scheme: string, host: string, port: string)

  // ---------------------------------------------------------------- characters

  predicate Digit(c: char) {
    '0' <= c <= '9'
  }

  predicate Digits(s: string) {
    forall i :: 0 <= i < |s| ==> Digit(s[i])
  }

  /** The characters that a host may hold as they are. */
  predicate HostChar(c: char) {
    || c == '!' || c == '"' || c == '$' || '&' <= c <= '.' || '0' <= c <= '>' || 'A' <= c <= '[' || c == ']'
    || c == '_' || 'a' <= c <= 'z' || c == '~'
  }

  predicate HostText(s: string) {
    forall i :: 0 <= i < |s| ==> HostChar(s[i]) || s[i] == '%'
  }

  function LowerChar(c: char): char {
    if 'A' <= c <= 'Z' then c + 32 as char else c
  }

  function Lower(s: string): (r: string)
    ensures |r| == |s|
  {
    seq(|s|, i requires 0 <= i < |s| => LowerChar(s[i]))
  }

  /** The index of the last c, or -1. */
  function LastIndex(s: string, c: char): (i: int)
    ensures -1 <= i < |s|
    ensures i >= 0 ==> s[i] == c
    ensures forall j :: i < j < |s| ==> s[j] != c
  {
    if s == "" then -1
    else if s[|s| - 1] == c then |s| - 1
    else LastIndex(s[..|s| - 1], c)
  }

  lemma LastIndexIs(s: string, c: char, i: int)
    requires -1 <= i < |s| && (i >= 0 ==> s[i] == c) && forall j :: i < j < |s| ==> s[j] != c
    ensures LastIndex(s, c) == i
  {
  }

  // ---------------------------------------------------------------- what is accepted

  /** The host without its escapes; the only one of an ASCII host is that of the percent sign. */
  function Unescaped(s: string): Option<string> {
    if s == "" then Some("")
    else if s[0] == '%' then
      if |s| >= 3 && s[1] == '2' && s[2] == '5' then
        match Unescaped(s[3..]) case None => None case Some(rest) => Some("%" + rest)
      else None
    else if HostChar(s[0]) then
      match Unescaped(s[1..]) case None => None case Some(rest) => Some([s[0]] + rest)
    else None
  }

  predicate OptionalPort(s: string) {
    s == "" || (s[0] == ':' && Digits(s[1..]))
  }

  function PortOf(s: string): string
    requires OptionalPort(s)
  {
    if s == "" then "" else s[1..]
  }

  /** A host and what follows it. */
  function Parts(host: string, tail: string): Option<(string, string)> {
    if !OptionalPort(tail) then None else
      match Unescaped(host)
      case None => None
      case Some(plain) => Some((plain, PortOf(tail)))
  }

  /** The host name and the port of an authority without user information. */
  function ParsedAuthority(a: string): Option<(string, string)> {
    if a == "" then None
    else if a[0] == '[' then
      var i := LastIndex(a, ']');
      if i < 1 || ':' !in a[1..i] then None else Parts(a[1..i], a[i + 1..])
    else
      var i := LastIndex(a, ':');
      var end := if i < 0 then |a| else i;
      if ':' in a[..end] then None else Parts(a[..end], a[end..])
  }

  /** The text before an empty fragment and an empty query. */
  function WithoutEmptyTail(raw: string): string {
    var a := if raw != "" && raw[|raw| - 1] == '#' then raw[..|raw| - 1] else raw;
    if a != "" && a[|a| - 1] == '?' then a[..|a| - 1] else a
  }

  function Validated(raw: string): Option<Url> {
    var text := WithoutEmptyTail(raw);
    var scheme := if |text| >= 7 && Lower(text[..7]) == "http://" then "http"
                  else if |text| >= 8 && Lower(text[..8]) == "https://" then "https" else "";
    if scheme == "" then None else
      match ParsedAuthority(text[|scheme| + 3..])
      case None => None
      case Some(parts) => Some(Url(scheme, parts.0, parts.1))
  }

  // ---------------------------------------------------------------- the canonical text

  function DefaultPort(scheme: string): string {
    if scheme == "http" then "80" else "443"
  }

  function Shown(host: string): string {
    if ':' in host then "[" + host + "]" else host
  }

  /** The port that the canonical text names: none for the default one. */
  function NamedPort(u: Url): string {
    if u.port == DefaultPort(u.scheme) then "" else u.port
  }

  function Tail(port: string): string {
    if port == "" then "" else ":" + port
  }

  function Joined(host: string, port: string): string {
    Shown(host) + Tail(port)
  }

  function Canonical(u: Url): string {
    u.scheme + "://" + Joined(Lower(u.host), NamedPort(u))
  }

  /** What every accepted server is. */
  ghost predicate WellFormed(u: Url) {
    && (u.scheme == "http" || u.scheme == "https")
    && HostText(u.host) && Digits(u.port)
    && (':' in u.host || u.host == "" || u.host[0] != '[')
  }

  lemma {:induction false} UnescapedIsHostText(s: string)
    requires Unescaped(s).Some?
    ensures HostText(Unescaped(s).value)
    ensures s != "" ==> Unescaped(s).value != "" && Unescaped(s).value[0] == s[0]
    ensures ':' in Unescaped(s).value <==> ':' in s
    ensures '%' in Unescaped(s).value <==> '%' in s
    ensures |Unescaped(s).value| <= |s|
    ensures '%' in s ==> |Unescaped(s).value| < |s|
    decreases |s|
  {
    if s != "" {
      var step := if s[0] == '%' then 3 else 1;
      UnescapedIsHostText(s[step..]);
      assert s == s[..step] + s[step..];
      assert s[0] == '%' ==> s[..3] == "%25";
      var rest := Unescaped(s[step..]).value;
      assert Unescaped(s).value == [s[0]] + rest;
      assert ':' in s <==> ':' in s[..step] || ':' in s[step..];
      assert '%' in s <==> '%' in s[..step] || '%' in s[step..];
    }
  }

  lemma {:induction false} PlainIsUnescaped(s: string)
    requires HostText(s) && '%' !in s
    ensures Unescaped(s) == Some(s)
  {
    if s != "" {
      PlainIsUnescaped(s[1..]);
      assert s == [s[0]] + s[1..];
    }
  }

  lemma PartsAreWellFormed(host: string, tail: string)
    requires Parts(host, tail).Some?
    ensures var r := Parts(host, tail).value;
      && HostText(r.0) && Digits(r.1) && (':' in r.0 <==> ':' in host)
      && (host == "" ==> r.0 == "") && (host != "" ==> r.0 != "" && r.0[0] == host[0])
  {
    UnescapedIsHostText(host);
  }

  lemma AuthorityIsWellFormed(a: string, scheme: string)
    requires ParsedAuthority(a).Some? && (scheme == "http" || scheme == "https")
    ensures WellFormed(Url(scheme, ParsedAuthority(a).value.0, ParsedAuthority(a).value.1))
  {
    if a[0] == '[' {
      PartsAreWellFormed(a[1..LastIndex(a, ']')], a[LastIndex(a, ']') + 1..]);
    } else {
      var i := LastIndex(a, ':');
      var end := if i < 0 then |a| else i;
      PartsAreWellFormed(a[..end], a[end..]);
    }
    hide Parts, LastIndex, HostText, Digits, Lower;
  }

  lemma AcceptedIsWellFormed(raw: string)
    requires Validated(raw).Some?
    ensures WellFormed(Validated(raw).value)
  {
    var text := WithoutEmptyTail(raw);
    var u := Validated(raw).value;
    hide ParsedAuthority, WellFormed, WithoutEmptyTail, Lower;
    AuthorityIsWellFormed(text[|u.scheme| + 3..], u.scheme);
  }

  lemma LowerKeeps(s: string)
    requires HostText(s)
    ensures HostText(Lower(s)) && Lower(Lower(s)) == Lower(s)
    ensures forall c :: c in ":%[]" ==> (c in Lower(s) <==> c in s)
    ensures s != "" ==> (Lower(s)[0] == '[' <==> s[0] == '[')
  {
    forall c | c in ":%[]" ensures c in Lower(s) <==> c in s {
      if c in s {
        var i :| 0 <= i < |s| && s[i] == c;
        assert Lower(s)[i] == c;
      }
      if c in Lower(s) {
        var i :| 0 <= i < |s| && Lower(s)[i] == c;
        assert s[i] == c;
      }
    }
  }

  lemma TailIsPort(port: string)
    requires Digits(port)
    ensures OptionalPort(Tail(port)) && PortOf(Tail(port)) == port
    ensures forall i :: 0 <= i < |Tail(port)| ==> Tail(port)[i] != ']' && (Tail(port)[i] == ':' <==> i == 0)
    ensures forall i :: 0 <= i < |Tail(port)| ==> Tail(port)[i] != '#' && Tail(port)[i] != '?'
  {
    if port != "" {
      assert Tail(port)[1..] == port;
    }
  }

  /** The parts of a bracketed host and its port. */
  lemma BracketedParts(host: string, port: string)
    requires ':' in host && Digits(port)
    ensures var a := Joined(host, port);
      && |a| >= |host| + 2 && a[0] == '[' && LastIndex(a, ']') == |host| + 1
      && a[1..|host| + 1] == host && a[|host| + 2..] == Tail(port)
  {
    TailIsPort(port);
    ShownParts(host);
    assert Joined(host, port) == Shown(host) + Tail(port);
    hide *;
    FollowedParts(Shown(host), Tail(port), host);
  }

  lemma ShownParts(host: string)
    requires ':' in host
    ensures var b := Shown(host); |b| == |host| + 2 && b[0] == '[' && b[|host| + 1] == ']' && b[1..|host| + 1] == host
  {
  }

  lemma FollowedParts(b: string, tail: string, host: string)
    requires |b| == |host| + 2 && b[0] == '[' && b[|host| + 1] == ']' && b[1..|host| + 1] == host
    requires forall i :: 0 <= i < |tail| ==> tail[i] != ']'
    ensures var a := b + tail; LastIndex(a, ']') == |host| + 1 && a[1..|host| + 1] == host && a[|host| + 2..] == tail
  {
    var a := b + tail;
    assert a[1..|host| + 1] == b[1..|host| + 1];
    assert forall i :: |b| <= i < |a| ==> a[i] == tail[i - |b|];
    LastIndexIs(a, ']', |host| + 1);
  }

  /** The parts of a host without a colon and its port. */
  lemma PlainParts(host: string, port: string)
    requires ':' !in host && Digits(port)
    ensures var a := Joined(host, port);
      && LastIndex(a, ':') == (if port == "" then -1 else |host|)
      && |a| >= |host| && a[..|host|] == host && a[|host|..] == Tail(port) && (port == "" ==> a == host)
  {
    TailIsPort(port);
    hide Digits, OptionalPort, PortOf;
    var a := Joined(host, port);
    assert a == host + Tail(port);
    assert forall i :: |host| <= i < |a| ==> a[i] == Tail(port)[i - |host|];
    LastIndexIs(a, ':', if port == "" then -1 else |host|);
  }

  lemma PartsOf(host: string, port: string)
    requires Digits(port)
    ensures Parts(host, Tail(port)) == match Unescaped(host) case None => None case Some(plain) => Some((plain, port))
  {
    TailIsPort(port);
  }

  lemma BracketedIsParsed(host: string, port: string)
    requires Digits(port) && ':' in host
    ensures ParsedAuthority(Joined(host, port)) == Parts(host, Tail(port))
  {
    BracketedParts(host, port);
    hide Digits, LastIndex, Tail, Joined, Parts;
  }

  lemma PlainIsParsed(host: string, port: string)
    requires Digits(port) && ':' !in host && (host == "" || host[0] != '[') && (host != "" || port != "")
    ensures ParsedAuthority(Joined(host, port)) == Parts(host, Tail(port))
  {
    PlainParts(host, port);
    JoinedStarts(host, port);
    var a := Joined(host, port);
    assert a != "";
    hide Digits, LastIndex, Tail, Joined, Parts;
  }

  lemma JoinedStarts(h: string, p: string)
    requires Digits(p) && (':' in h || h == "" || h[0] != '[')
    ensures ':' in h <==> Joined(h, p) != "" && Joined(h, p)[0] == '['
  {
  }

  /** The authority of a canonical text, read again. */
  lemma JoinedIsParsed(host: string, port: string)
    requires Digits(port) && (':' in host || host == "" || host[0] != '[')
    requires host != "" || port != ""
    ensures ParsedAuthority(Joined(host, port)) ==
      match Unescaped(host)
      case None => None
      case Some(plain) => Some((plain, port))
  {
    PartsOf(host, port);
    hide *;
    if ':' in host {
      BracketedIsParsed(host, port);
    } else {
      PlainIsParsed(host, port);
    }
  }

  lemma SchemeIsFound(scheme: string, a: string)
    requires scheme == "http" || scheme == "https"
    requires a == "" || (a[|a| - 1] != '#' && a[|a| - 1] != '?')
    ensures Validated(scheme + "://" + a) ==
      match ParsedAuthority(a) case None => None case Some(parts) => Some(Url(scheme, parts.0, parts.1))
  {
    var text := scheme + "://" + a;
    assert WithoutEmptyTail(text) == text;
    assert text[|scheme| + 3..] == a;
    hide ParsedAuthority;
    if scheme == "http" {
      assert text[..7] == "http://";
      assert Lower("http://") == "http://";
    } else {
      assert text[..8] == "https://";
      assert Lower("https://") == "https://";
      assert text[..7][4] == 's';
      assert Lower(text[..7])[4] == 's';
    }
  }

  lemma JoinedEnds(host: string, port: string)
    requires HostText(host) && Digits(port)
    ensures var a := Joined(host, port); a == "" || (a[|a| - 1] != '#' && a[|a| - 1] != '?')
  {
    TailIsPort(port);
  }

  /** The canonical text, read again. */
  lemma CanonicalIsValidated(u: Url)
    requires WellFormed(u)
    ensures Validated(Canonical(u)) ==
      if u.host == "" && NamedPort(u) == "" then None else
        match Unescaped(Lower(u.host)) case None => None case Some(plain) => Some(Url(u.scheme, plain, NamedPort(u)))
  {
    LowerKeeps(u.host);
    var host, port := Lower(u.host), NamedPort(u);
    JoinedEnds(host, port);
    if host != "" || port != "" {
      JoinedIsParsed(host, port);
    }
    hide HostText, Digits, Unescaped, Validated, Lower;
    SchemeIsFound(u.scheme, Joined(host, port));
  }

  lemma JoinedLength(host: string, port: string)
    ensures |Joined(host, port)| == |host| + (if ':' in host then 2 else 0) + |Tail(port)|
  {
  }

  /** A host with an escaped percent sign is shorter when its canonical text is read again. */
  lemma ShorterIsAnother(u: Url, again: Url)
    requires again.scheme == u.scheme && again.port == NamedPort(u)
    requires |again.host| < |u.host| && (':' in Lower(again.host) <==> ':' in Lower(u.host))
    ensures Canonical(again) != Canonical(u)
  {
    JoinedLength(Lower(u.host), NamedPort(u));
    JoinedLength(Lower(again.host), NamedPort(again));
    assert NamedPort(again) == NamedPort(u);
    hide Joined, Lower;
    assert |Canonical(again)| < |Canonical(u)|;
  }

  lemma LoweredAgain(u: Url)
    requires HostText(u.host)
    ensures Canonical(Url(u.scheme, Lower(u.host), NamedPort(u))) == Canonical(u)
  {
    LowerKeeps(u.host);
    hide Lower, HostText;
  }

  /** Canonicalization is idempotent exactly when the host has no percent sign, and is not empty with
      the default port or none. */
  lemma CanonicalIsIdempotent(raw: string)
    requires Validated(raw).Some?
    ensures var u := Validated(raw).value; var again := Validated(Canonical(u));
      && (again.Some? && Canonical(again.value) == Canonical(u) <==>
            '%' !in u.host && (u.host != "" || NamedPort(u) != ""))
      && ('%' !in u.host && (u.host != "" || NamedPort(u) != "") ==>
            again == Some(Url(u.scheme, Lower(u.host), NamedPort(u))))
  {
    AcceptedIsWellFormed(raw);
    var u := Validated(raw).value;
    var host := Lower(u.host);
    CanonicalIsValidated(u);
    LowerKeeps(u.host);
    assert '%' in host <==> '%' in u.host;
    if '%' !in host {
      PlainIsUnescaped(host);
      LoweredAgain(u);
      hide *;
    } else if Unescaped(host).Some? {
      var plain := Unescaped(host).value;
      UnescapedIsHostText(host);
      LowerKeeps(plain);
      hide *;
      assert ':' in Lower(plain) <==> ':' in plain;
      ShorterIsAnother(u, Url(u.scheme, plain, NamedPort(u)));
    }
  }

  lemma {:induction false} EscapeIsRead(host: string, zone: string)
    requires HostText(host) && HostText(zone) && '%' !in host && '%' !in zone
    ensures Unescaped(host + ("%25" + zone)) == Some(host + ("%" + zone))
  {
    var s := host + ("%25" + zone);
    if host == "" {
      assert s == "%25" + zone && s[3..] == zone;
      PlainIsUnescaped(zone);
      assert host + ("%" + zone) == "%" + zone;
    } else {
      EscapeIsRead(host[1..], zone);
      assert s[1..] == host[1..] + ("%25" + zone);
      assert [host[0]] + (host[1..] + ("%" + zone)) == host + ("%" + zone);
    }
  }

  lemma BracketedIsAccepted(host: string, plain: string)
    requires ':' in host && Unescaped(host) == Some(plain)
    ensures Validated("http" + "://" + Joined(host, "")) == Some(Url("http", plain, ""))
  {
    var a := Joined(host, "");
    BracketedIsParsed(host, "");
    PartsOf(host, "");
    BracketedParts(host, "");
    assert Digits("") && Tail("") == "";
    assert a[LastIndex(a, ']')] == ']' && |a| == |host| + 2;
    hide *;
    SchemeIsFound("http", a);
  }

  lemma HasColonAndPercent(address: string, zone: string)
    requires ':' in address
    ensures ':' in address + ("%25" + zone) && '%' in address + ("%" + zone)
  {
    assert (address + ("%" + zone))[|address|] == '%';
  }

  /** Every IPv6 address with a zone is accepted, and its canonical text is not canonical again. */
  lemma ZoneIsNotCanonicalAgain(address: string, zone: string)
    requires HostText(address) && HostText(zone) && ':' in address && '%' !in address && '%' !in zone
    ensures var raw, u :=
      "http" + "://" + Joined(address + ("%25" + zone), ""), Url("http", address + ("%" + zone), "");
      && Validated(raw) == Some(u) && '%' in u.host
      && (Validated(Canonical(u)).None? || Canonical(Validated(Canonical(u)).value) != Canonical(u))
  {
    EscapeIsRead(address, zone);
    HasColonAndPercent(address, zone);
    hide *;
    BracketedIsAccepted(address + ("%25" + zone), address + ("%" + zone));
    CanonicalIsIdempotent("http" + "://" + Joined(address + ("%25" + zone), ""));
  }

  /** An empty host with the default port is accepted, and its canonical text is not. */
  lemma EmptyHostIsNotAcceptedAgain()
    ensures Validated("http" + "://" + Joined("", "80")) == Some(Url("http", "", "80"))
    ensures NamedPort(Url("http", "", "80")) == "" && Validated(Canonical(Url("http", "", "80"))).None?
  {
    assert Digits("80") && WellFormed(Url("http", "", "80")) && NamedPort(Url("http", "", "80")) == ""
      && Unescaped("") == Some("");
    assert HostText("");
    hide *;
    JoinedIsParsed("", "80");
    JoinedEnds("", "80");
    SchemeIsFound("http", Joined("", "80"));
    CanonicalIsValidated(Url("http", "", "80"));
  }

  // ---------------------------------------------------------------- what is accepted and what is not

  /** A visible ASCII character that does not end or split an authority: none of the delimiters of a path,
      a query, a fragment and user information, and no blank or control character. */
  predicate MayBeInAuthority(c: char) {
    '!' <= c <= '~' && c != '/' && c != '?' && c != '#' && c != '@' && c != '\\'
  }

  lemma {:induction false} UnescapedIsText(s: string)
    requires Unescaped(s).Some?
    ensures forall i :: 0 <= i < |s| ==> MayBeInAuthority(s[i])
    decreases |s|
  {
    if s != "" {
      var step := if s[0] == '%' then 3 else 1;
      UnescapedIsText(s[step..]);
      assert forall i :: step <= i < |s| ==> s[i] == s[step..][i - step];
    }
  }

  lemma PartsAreText(host: string, tail: string)
    requires Parts(host, tail).Some?
    ensures forall i :: 0 <= i < |host| ==> MayBeInAuthority(host[i])
    ensures forall i :: 0 <= i < |tail| ==> MayBeInAuthority(tail[i])
  {
    UnescapedIsText(host);
    assert forall i :: 1 <= i < |tail| ==> tail[i] == tail[1..][i - 1];
  }

  lemma AuthorityIsText(a: string)
    requires ParsedAuthority(a).Some?
    ensures forall i :: 0 <= i < |a| ==> MayBeInAuthority(a[i])
  {
    if a[0] == '[' {
      var i := LastIndex(a, ']');
      PartsAreText(a[1..i], a[i + 1..]);
      assert a == ["["[0]] + a[1..i] + [a[i]] + a[i + 1..];
    } else {
      var i := LastIndex(a, ':');
      var end := if i < 0 then |a| else i;
      PartsAreText(a[..end], a[end..]);
      assert a == a[..end] + a[end..];
    }
    hide Parts, LastIndex, MayBeInAuthority;
  }

  /** A server with a path, a query, a fragment or credentials, or with a blank, is refused: what follows
      the scheme holds none of their delimiters, but for an empty query and an empty fragment at its end. */
  lemma RefusedCharacters(raw: string)
    requires Validated(raw).Some?
    ensures var text, start := WithoutEmptyTail(raw), |Validated(raw).value.scheme| + 3;
      && start < |text| && text <= raw && raw[|text|..] in ["", "?", "#", "?#"]
      && forall i :: start <= i < |text| ==> MayBeInAuthority(text[i])
  {
    var text := WithoutEmptyTail(raw);
    var start := |Validated(raw).value.scheme| + 3;
    assert raw[|text|..] in ["", "?", "#", "?#"] by { EmptyTail(raw); }
    AuthorityIsText(text[start..]);
    assert forall i :: start <= i < |text| ==> text[i] == text[start..][i - start];
    hide ParsedAuthority, MayBeInAuthority;
  }

  lemma EmptyTail(raw: string)
    ensures var text := WithoutEmptyTail(raw); text <= raw && raw[|text|..] in ["", "?", "#", "?#"]
  {
    var n := |raw|;
    var tail := raw[|WithoutEmptyTail(raw)|..];
    assert n > 0 && raw[n - 1] == '#' && n > 1 && raw[n - 2] == '?' ==> tail == "?#";
    assert n > 0 && raw[n - 1] == '#' && (n == 1 || raw[n - 2] != '?') ==> tail == "#";
    assert n > 0 && raw[n - 1] == '?' ==> tail == "?";
    assert n == 0 || (raw[n - 1] != '#' && raw[n - 1] != '?') ==> tail == "";
  }

  /** A host name of letters, digits, points and hyphens, with or without a port, is accepted as it is. */
  lemma NamesAreAccepted(scheme: string, host: string, port: string)
    requires scheme == "http" || scheme == "https"
    requires host != "" && forall i :: 0 <= i < |host| ==>
      'a' <= host[i] <= 'z' || 'A' <= host[i] <= 'Z' || '0' <= host[i] <= '9' || host[i] == '.' || host[i] == '-'
    requires forall i :: 0 <= i < |port| ==> '0' <= port[i] <= '9'
    ensures Validated(scheme + "://" + host + if port == "" then "" else ":" + port) == Some(Url(scheme, host, port))
  {
    NameFacts(host, port);
    var tail := if port == "" then "" else ":" + port;
    assert (scheme + "://") + (host + tail) == scheme + "://" + host + tail;
    hide *;
    PlainIsUnescaped(host);
    JoinedIsParsed(host, port);
    JoinedEnds(host, port);
    SchemeIsFound(scheme, Joined(host, port));
  }

  lemma NameFacts(host: string, port: string)
    requires host != "" && forall i :: 0 <= i < |host| ==>
      'a' <= host[i] <= 'z' || 'A' <= host[i] <= 'Z' || '0' <= host[i] <= '9' || host[i] == '.' || host[i] == '-'
    requires forall i :: 0 <= i < |port| ==> '0' <= port[i] <= '9'
    ensures HostText(host) && Digits(port) && '%' !in host && ':' !in host && host[0] != '['
    ensures Joined(host, port) == host + if port == "" then "" else ":" + port
  {
  }

  // ---------------------------------------------------------------- equal origins

  /** The port that a request goes to: the one of the server, else that of HTTP or of HTTPS. */
  function EffectivePort(u: Url): string {
    if u.port != "" then u.port else if u.scheme == "https" then "443" else "80"
  }

  lemma BracketedIsInjective(h: string, p: string, h': string, p': string)
    requires Digits(p) && Digits(p') && ':' in h && ':' in h' && Joined(h, p) == Joined(h', p')
    ensures h == h' && Tail(p) == Tail(p')
  {
    BracketedParts(h, p);
    BracketedParts(h', p');
    hide *;
  }

  lemma PlainIsInjective(h: string, p: string, h': string, p': string)
    requires Digits(p) && Digits(p') && ':' !in h && ':' !in h' && Joined(h, p) == Joined(h', p')
    ensures h == h' && Tail(p) == Tail(p')
  {
    PlainParts(h, p);
    PlainParts(h', p');
    hide *;
  }

  /** A host and a port are read off their joined text in one way. */
  lemma JoinedIsInjective(h: string, p: string, h': string, p': string)
    requires Digits(p) && Digits(p') && (':' in h || h == "" || h[0] != '[') && (':' in h' || h' == "" || h'[0] != '[')
    requires Joined(h, p) == Joined(h', p')
    ensures h == h' && p == p'
  {
    JoinedStarts(h, p);
    JoinedStarts(h', p');
    SameTail(Tail(p), Tail(p'), p, p');
    hide *;
    if ':' in h {
      BracketedIsInjective(h, p, h', p');
    } else {
      PlainIsInjective(h, p, h', p');
    }
  }

  lemma SameTail(t: string, t': string, p: string, p': string)
    requires t == Tail(p) && t' == Tail(p')
    ensures t == t' <==> p == p'
  {
    assert p != "" ==> t[1..] == p;
    assert p' != "" ==> t'[1..] == p';
  }

  lemma SchemesAreTold(scheme: string, scheme': string, a: string, a': string)
    requires (scheme == "http" || scheme == "https") && (scheme' == "http" || scheme' == "https")
    requires scheme + "://" + a == scheme' + "://" + a'
    ensures scheme == scheme' && a == a'
  {
    var x, y := scheme + "://" + a, scheme' + "://" + a';
    assert x[4] == ':' <==> scheme == "http";
    assert y[4] == ':' <==> scheme' == "http";
    assert x[|scheme| + 3..] == a && y[|scheme'| + 3..] == a';
  }

  lemma PortsCompare(u: Url, v: Url)
    requires u.scheme == v.scheme && (u.scheme == "http" || u.scheme == "https")
    ensures NamedPort(u) == NamedPort(v) <==> EffectivePort(u) == EffectivePort(v)
  {
  }

  lemma NamedPortIsDigits(u: Url)
    requires WellFormed(u)
    ensures Digits(NamedPort(u)) && (':' in Lower(u.host) || Lower(u.host) == "" || Lower(u.host)[0] != '[')
  {
    LowerKeeps(u.host);
  }

  /** The same characters but for the case of the letters A to Z. */
  ghost predicate SameButCase(a: string, b: string) {
    |a| == |b| && forall i :: 0 <= i < |a| ==>
      || a[i] == b[i]
      || ('A' <= a[i] <= 'Z' && b[i] as int == a[i] as int + 32)
      || ('A' <= b[i] <= 'Z' && a[i] as int == b[i] as int + 32)
  }

  lemma LowerComparesCase(a: string, b: string)
    ensures Lower(a) == Lower(b) <==> SameButCase(a, b)
  {
    if Lower(a) == Lower(b) {
      forall i | 0 <= i < |a| ensures LowerChar(a[i]) == LowerChar(b[i]) {
        assert Lower(a)[i] == Lower(b)[i];
      }
    }
  }

  /** Two servers have equal canonical texts exactly when scheme, host without regard to case, and the
      text of the port that requests go to are equal. */
  lemma CanonicalComparesOrigins(raw: string, raw': string)
    requires Validated(raw).Some? && Validated(raw').Some?
    ensures var u, v := Validated(raw).value, Validated(raw').value;
      Canonical(u) == Canonical(v) <==>
        u.scheme == v.scheme && SameButCase(u.host, v.host) && EffectivePort(u) == EffectivePort(v)
  {
    LowerComparesCase(Validated(raw).value.host, Validated(raw').value.host);
    AcceptedIsWellFormed(raw);
    AcceptedIsWellFormed(raw');
    var u, v := Validated(raw).value, Validated(raw').value;
    var h, h', p, p' := Lower(u.host), Lower(v.host), NamedPort(u), NamedPort(v);
    NamedPortIsDigits(u);
    NamedPortIsDigits(v);
    if u.scheme == v.scheme {
      PortsCompare(u, v);
    }
    if Canonical(u) == Canonical(v) {
      SchemesAreTold(u.scheme, v.scheme, Joined(h, p), Joined(h', p'));
      hide *;
      JoinedIsInjective(h, p, h', p');
    }
  }
}
