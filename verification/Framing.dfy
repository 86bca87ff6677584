/** Reading one JSON-RPC message per line: bufio.Reader.ReadSlice, readMCPMessage, and the reading
    loop of serve. */
module Framing {
  import opened Basics

  const NEWLINE: byte := 10
  const RETURN: byte := 13

  /** How the input ends: at end of file, or with a read error. */
  datatype End = EndOfFile | ReadError

  datatype Item = Message(text: seq<byte>) | TooLarge | Ended(end: End)

  datatype ReadStatus = LineEnd | BufferFull | AtEnd

  // ---------------------------------------------------------------- lines

  /** Bytes before the first newline. */
  function LineLength(s: seq<byte>): (n: nat)
    ensures n <= |s|
  {
    if s == [] || s[0] == NEWLINE then 0 else 1 + LineLength(s[1..])
  }

  /** A line holds no newline and ends at one, or at the end of the input. */
  lemma {:induction false} LineIsUpToNewline(s: seq<byte>)
    ensures NEWLINE !in s[..LineLength(s)]
    ensures LineLength(s) < |s| ==> s[LineLength(s)] == NEWLINE
  {
    if s != [] && s[0] != NEWLINE {
      LineIsUpToNewline(s[1..]);
      assert s[..LineLength(s)] == [s[0]] + s[1..][..LineLength(s[1..])];
    }
  }

  predicate EndByte(b: byte) {
    b == NEWLINE || b == RETURN
  }

  /** bytes.TrimRight(s, "\r\n"). */
  function TrimEnd(s: seq<byte>): (t: seq<byte>)
    ensures t <= s
  {
    if s != [] && EndByte(s[|s| - 1]) then TrimEnd(s[..|s| - 1]) else s
  }

  lemma {:induction false} TrimEndStops(s: seq<byte>)
    ensures TrimEnd(s) != [] ==> !EndByte(TrimEnd(s)[|TrimEnd(s)| - 1])
    ensures forall i :: |TrimEnd(s)| <= i < |s| ==> EndByte(s[i])
  {
    if s != [] && EndByte(s[|s| - 1]) { TrimEndStops(s[..|s| - 1]); }
  }

  lemma {:induction false} TrimEndIs(s: seq<byte>, n: nat)
    requires n <= |s|
    requires n > 0 ==> !EndByte(s[n - 1])
    requires forall i :: n <= i < |s| ==> EndByte(s[i])
    ensures TrimEnd(s) == s[..n]
  {
    if n < |s| {
      TrimEndIs(s[..|s| - 1], n);
      assert s[..|s| - 1][..n] == s[..n];
    }
  }

  /** A line is refused exactly when its
      body, without the carriage returns at its end, is over limit, or when even with those it is
      one reader buffer longer than limit. */
  ghost predicate Refused(line: seq<byte>, limit: nat, buffer: nat) {
    |TrimEnd(line)| > limit || |line| >= limit + buffer
  }

  /** What reading a whole input must give: each line once and in order, a last line without a newline
      too unless it is empty or the input ends with an error. */
  ghost function Items(input: seq<byte>, end: End, limit: nat, buffer: nat): seq<Item>
    decreases |input|
  {
    var n := LineLength(input);
    var item := if Refused(input[..n], limit, buffer) then TooLarge else Message(TrimEnd(input[..n]));
    if n < |input| then [item] + Items(input[n + 1..], end, limit, buffer)
    else if n > 0 && end.EndOfFile? then [item, Ended(EndOfFile)]
    else [Ended(end)]
  }

  // ---------------------------------------------------------------- the reader

  /** A bufio.Reader over an input that reports its end only once everything is read. */
  class Reader {
    const input: seq<byte>
    const end: End
    const buffer: nat
    var at: nat

    constructor (input: seq<byte>, end: End, buffer: nat)
      requires buffer > 0
      ensures Valid() && at == 0 && this.input == input && this.end == end && this.buffer == buffer
    {
      this.input, this.end, this.buffer, at := input, end, buffer, 0;
    }

    ghost predicate Valid()
      reads this
    {
      at <= |input| && buffer > 0
    }

    ghost function Rest(): seq<byte>
      requires Valid()
      reads this
    {
      input[at..]
    }

    /** ReadSlice('\n'): up to a newline, else a full buffer, else what is left. */
    method ReadSlice() returns (chunk: seq<byte>, status: ReadStatus)
      requires Valid()
      modifies this`at
      ensures Valid() && old(at) + |chunk| == at && |chunk| <= |old(Rest())| && chunk == old(Rest())[..|chunk|]
      ensures var n := LineLength(old(Rest()));
        && (status.LineEnd? <==> n < buffer && n < |old(Rest())|) && (status.LineEnd? ==> |chunk| == n + 1)
        && (status.BufferFull? <==> n >= buffer) && (status.BufferFull? ==> |chunk| == buffer)
        && (status.AtEnd? ==> |chunk| == n == |old(Rest())|)
    {
      var rest := input[at..];
      var n := LineLength(rest);
      if n >= buffer {
        chunk, status := rest[..buffer], BufferFull;
      } else if n < |rest| {
        chunk, status := rest[..n + 1], LineEnd;
      } else {
        chunk, status := rest, AtEnd;
      }
      at := at + |chunk|;
    }
  }

  lemma {:induction false} LineLengthAfter(s: seq<byte>, k: nat)
    requires k <= LineLength(s)
    ensures LineLength(s[k..]) == LineLength(s) - k
    decreases k
  {
    if k == 0 {
      assert s[0..] == s;
    } else {
      LineLengthAfter(s[1..], k - 1);
      assert s[1..][k - 1..] == s[k..];
    }
  }

  // ---------------------------------------------------------------- one message

  ghost predicate Multiple(n: nat, buffer: nat) {
    n == 0 || (0 < buffer <= n && Multiple(n - buffer, buffer))
  }

  lemma {:induction false} MultiplesApart(at: nat, limit: nat, buffer: nat)
    requires buffer > 0 && Multiple(at, buffer) && Multiple(limit, buffer)
    ensures Multiple(at + buffer, buffer)
    ensures at < limit ==> at + buffer <= limit
    ensures limit < at ==> limit + buffer <= at
    decreases at
  {
    if at > 0 && limit > 0 { MultiplesApart(at - buffer, limit - buffer, buffer); }
  }

  /** The sizes that serve reads with. */
  lemma ServeSizes()
    ensures Multiple(0x10_0000, 0x1_0000)
  {
    assert Multiple(0x4_0000, 0x1_0000);
    assert Multiple(0x8_0000, 0x1_0000);
    assert Multiple(0xC_0000, 0x1_0000);
  }

  /** The trimmed end of a line whose first part is read: the last chunk holds a part of the body
      exactly when the body goes past what was read before. */
  lemma BodyGoesOn(line: seq<byte>, from: nat, last: seq<byte>)
    requires from <= |line|
    requires last == line[from..] || last == line[from..] + [NEWLINE]
    ensures TrimEnd(last) != [] <==> |TrimEnd(line)| > from
    ensures TrimEnd(line + [NEWLINE]) == TrimEnd(line)
  {
    var body := TrimEnd(line);
    TrimEndStops(line);
    hide TrimEnd;
    TrimEndIs(line + [NEWLINE], |body|);
    assert (line + [NEWLINE])[..|body|] == body;
    if |body| > from {
      TrimEndIs(last, |body| - from);
    } else {
      TrimEndIs(last, 0);
    }
  }

  /** readMCPMessage, for a limit that the reader's buffer size divides. */
  method ReadMessage(reader: Reader, limit: nat) returns (item: Item)
    requires reader.Valid() && Multiple(limit, reader.buffer)
    modifies reader`at
    ensures reader.Valid()
    ensures var rest := old(reader.Rest());
      var n := LineLength(rest);
      && reader.at == old(reader.at) + (if n < |rest| then n + 1 else n)
      && item == NextItem(rest, reader.end, limit, reader.buffer)
  {
    assert Multiple(0, reader.buffer);
    hide TrimEnd, LineLength, Multiple, NextItem;
    var message: seq<byte> := [];
    var tooLarge := false;
    ghost var rest := reader.Rest();
    ghost var n := LineLength(rest);
    ghost var at := 0;
    while true
      invariant reader.Valid() && reader.at == old(reader.at) + at && Multiple(at, reader.buffer) && at <= n
      invariant if tooLarge then at > limit else message == rest[..at]
      decreases |reader.input| - reader.at
    {
      MultiplesApart(at, limit, reader.buffer);
      LineLengthAfter(rest, at);
      assert rest[at..] == reader.Rest();
      var chunk, status := reader.ReadSlice();
      SliceOf(rest, at, |chunk|);
      if !tooLarge {
        if |message| + |TrimEnd(chunk)| > limit {
          tooLarge, message := true, [];
        } else {
          message := message + chunk;
        }
      }
      if status.BufferFull? {
        at := at + |chunk|;
        continue;
      }
      Decided(rest, n, at, chunk, reader.end, limit, reader.buffer);
      if tooLarge && (status.LineEnd? || reader.end.EndOfFile?) {
        return TooLarge;
      }
      if status.LineEnd? || (reader.end.EndOfFile? && message != []) {
        return Message(TrimEnd(message));
      }
      return Ended(reader.end);
    }
  }

  /** What the last chunk of a line makes of it. */
  lemma Decided(rest: seq<byte>, n: nat, at: nat, chunk: seq<byte>, end: End, limit: nat, buffer: nat)
    requires buffer > 0 && n == LineLength(rest) && at <= n < at + buffer
    requires Multiple(at, buffer) && Multiple(limit, buffer)
    requires chunk == rest[at..if n < |rest| then n + 1 else n]
    ensures NextItem(rest, end, limit, buffer) ==
      if n == |rest| && end.ReadError? then Ended(end)
      else if at > limit || at + |TrimEnd(chunk)| > limit then TooLarge
      else if n == |rest| && rest[..at] + chunk == [] then Ended(end)
      else Message(TrimEnd(rest[..at] + chunk))
  {
    Finish(rest, n, at, chunk, limit, buffer);
    hide TrimEnd, LineLength, Multiple;
    assert n == 0 && n == |rest| ==> chunk == [] && TrimEnd(chunk) == [];
    assert rest[..at] + chunk == [] <==> n == |rest| && n == 0;
  }

  lemma SliceOf(rest: seq<byte>, at: nat, size: nat)
    requires at + size <= |rest|
    ensures rest[at..][..size] == rest[at..at + size] && rest[..at] + rest[at..][..size] == rest[..at + size]
  {
  }

  /** The first item of an input. */
  ghost function NextItem(rest: seq<byte>, end: End, limit: nat, buffer: nat): Item {
    var n := LineLength(rest);
    if n == |rest| && (n == 0 || end.ReadError?) then Ended(end)
    else if Refused(rest[..n], limit, buffer) then TooLarge
    else Message(TrimEnd(rest[..n]))
  }

  /** The last chunk of a line decides whether it is refused. */
  lemma Finish(rest: seq<byte>, n: nat, at: nat, chunk: seq<byte>, limit: nat, buffer: nat)
    requires buffer > 0 && n == LineLength(rest) && at <= n < at + buffer
    requires Multiple(at, buffer) && Multiple(limit, buffer)
    requires chunk == rest[at..if n < |rest| then n + 1 else n]
    ensures Refused(rest[..n], limit, buffer) <==> at + |TrimEnd(chunk)| > limit || at > limit
    ensures TrimEnd(rest[..at] + chunk) == TrimEnd(rest[..n])
  {
    LineIsUpToNewline(rest);
    MultiplesApart(at, limit, buffer);
    LastChunk(rest, n, at, chunk);
    hide LineLength, Multiple, TrimEnd;
    BodyGoesOn(rest[..n], at, chunk);
    TrimEndShort(rest[..n][at..], chunk);
  }

  /** The last chunk ends the line, with the newline if there is one. */
  lemma LastChunk(rest: seq<byte>, n: nat, at: nat, chunk: seq<byte>)
    requires at <= n <= |rest| && (n < |rest| ==> rest[n] == NEWLINE)
    requires chunk == rest[at..if n < |rest| then n + 1 else n]
    ensures chunk == rest[..n][at..] || chunk == rest[..n][at..] + [NEWLINE]
    ensures rest[..at] + chunk == rest[..n] || rest[..at] + chunk == rest[..n] + [NEWLINE]
  {
    if n < |rest| {
      assert chunk == rest[..n][at..] + [NEWLINE];
      assert rest[..at] + chunk == rest[..n] + [NEWLINE];
    } else {
      assert chunk == rest[..n][at..];
      assert rest[..at] + chunk == rest[..n];
    }
  }

  lemma TrimEndShort(s: seq<byte>, chunk: seq<byte>)
    requires chunk == s || chunk == s + [NEWLINE]
    ensures |TrimEnd(chunk)| <= |s|
  {
  }

  // ---------------------------------------------------------------- the whole input

  lemma ItemsUnfold(rest: seq<byte>, end: End, limit: nat, buffer: nat)
    ensures var n := LineLength(rest);
      var item := NextItem(rest, end, limit, buffer);
      Items(rest, end, limit, buffer) == [item]
        + if item.Ended? then [] else Items(if n < |rest| then rest[n + 1..] else [], end, limit, buffer)
    ensures NextItem([], end, limit, buffer) == Ended(end)
  {
  }

  /** The reading loop of serve: messages until the end of the input. */
  method ReadAll(reader: Reader, limit: nat) returns (items: seq<Item>)
    requires reader.Valid() && reader.at == 0 && Multiple(limit, reader.buffer)
    modifies reader`at
    ensures items == Items(reader.input, reader.end, limit, reader.buffer)
  {
    hide Items, NextItem, LineLength, Multiple;
    items := [];
    ghost var all := Items(reader.input, reader.end, limit, reader.buffer);
    assert reader.Rest() == reader.input;
    while true
      invariant reader.Valid() && Joined(items, reader.Rest(), reader.end, limit, reader.buffer) == all
      decreases |reader.input| - reader.at
    {
      ghost var rest := reader.Rest();
      ghost var n := LineLength(rest);
      OneMoreItem(items, rest, reader.end, limit, reader.buffer);
      var item := ReadMessage(reader, limit);
      assert reader.Rest() == if n < |rest| then rest[n + 1..] else [];
      items := items + [item];
      if item.Ended? {
        return;
      }
    }
  }

  /** The items read so far and those still to come. */
  ghost function Joined(items: seq<Item>, rest: seq<byte>, end: End, limit: nat, buffer: nat): seq<Item> {
    items + Items(rest, end, limit, buffer)
  }

  lemma OneMoreItem(items: seq<Item>, rest: seq<byte>, end: End, limit: nat, buffer: nat)
    ensures var n := LineLength(rest);
      var item := NextItem(rest, end, limit, buffer);
      Joined(items, rest, end, limit, buffer) == if item.Ended? then items + [item]
        else Joined(items + [item], if n < |rest| then rest[n + 1..] else [], end, limit, buffer)
  {
    ItemsUnfold(rest, end, limit, buffer);
    hide Items, NextItem, LineLength;
    var n := LineLength(rest);
    var item := NextItem(rest, end, limit, buffer);
    var later := Items(if n < |rest| then rest[n + 1..] else [], end, limit, buffer);
    assert items + ([item] + later) == (items + [item]) + later;
  }

  // ---------------------------------------------------------------- what the lines are

  /** With at most one carriage return before the newline, exactly the lines whose body is over the
      limit are refused. */
  lemma RefusedByBody(line: seq<byte>, limit: nat, buffer: nat)
    requires buffer >= 2 && |line| <= |TrimEnd(line)| + 1
    ensures Refused(line, limit, buffer) <==> |TrimEnd(line)| > limit
  {
  }

  /** Otherwise a line can be refused for the carriage returns alone. */
  lemma RefusedByReturns(ends: seq<byte>, limit: nat, buffer: nat)
    requires |ends| == limit + buffer && forall i :: 0 <= i < |ends| ==> ends[i] == RETURN
    ensures TrimEnd(ends) == [] && Refused(ends, limit, buffer)
  {
    TrimEndIs(ends, 0);
  }

  // ---------------------------------------------------------------- messages read back

  /** Messages as a client sends them: each ended by a newline. */
  function Sent(messages: seq<seq<byte>>): seq<byte> {
    if messages == [] then [] else messages[0] + [NEWLINE] + Sent(messages[1..])
  }

  function AsMessages(messages: seq<seq<byte>>): seq<Item> {
    seq(|messages|, i requires 0 <= i < |messages| => Message(messages[i]))
  }

  /** One message within the limit, on one line that does not end with a carriage return. */
  predicate IsMessage(message: seq<byte>, limit: nat) {
    NEWLINE !in message && |message| <= limit && (message != [] ==> message[|message| - 1] != RETURN)
  }

  lemma {:induction false} LineLengthIs(s: seq<byte>, n: nat)
    requires n <= |s| && NEWLINE !in s[..n] && (n < |s| ==> s[n] == NEWLINE)
    ensures LineLength(s) == n
    decreases n
  {
    if n > 0 {
      assert s[0] == s[..n][0];
      assert s[1..][..n - 1] == s[..n][1..];
      LineLengthIs(s[1..], n - 1);
    }
  }

  /** One line in front of others. */
  lemma FirstLine(line: seq<byte>, rest: seq<byte>, end: End, limit: nat, buffer: nat)
    requires NEWLINE !in line
    ensures Items(line + [NEWLINE] + rest, end, limit, buffer) ==
      [if Refused(line, limit, buffer) then TooLarge else Message(TrimEnd(line))] + Items(rest, end, limit, buffer)
  {
    var s := line + [NEWLINE] + rest;
    assert s[..|line|] == line && s[|line| + 1..] == rest;
    LineLengthIs(s, |line|);
    hide Refused, TrimEnd, LineLength;
  }

  /** Messages in front of anything else are read first, as they are. */
  lemma {:induction false} MessagesComeFirst(messages: seq<seq<byte>>, rest: seq<byte>, end: End, limit: nat,
                                             buffer: nat)
    requires buffer > 0 && forall message :: message in messages ==> IsMessage(message, limit)
    ensures Items(Sent(messages) + rest, end, limit, buffer) == AsMessages(messages) + Items(rest, end, limit, buffer)
  {
    hide Items, IsMessage, AsMessages;
    if messages == [] {
      assert Sent(messages) + rest == rest;
      NoMessages();
    } else {
      var message, later := messages[0], messages[1..];
      assert message in messages;
      MessagesComeFirst(later, rest, end, limit, buffer);
      assert Sent(messages) + rest == message + [NEWLINE] + (Sent(later) + rest);
      FirstMessage(message, Sent(later) + rest, end, limit, buffer);
      OneMoreMessage(messages);
    }
  }

  lemma NoMessages()
    ensures AsMessages([]) == []
  {
  }

  lemma OneMoreMessage(messages: seq<seq<byte>>)
    requires messages != []
    ensures AsMessages(messages) == [Message(messages[0])] + AsMessages(messages[1..])
  {
  }

  lemma FirstMessage(message: seq<byte>, rest: seq<byte>, end: End, limit: nat, buffer: nat)
    requires buffer > 0 && IsMessage(message, limit)
    ensures Items(message + [NEWLINE] + rest, end, limit, buffer) ==
      [Message(message)] + Items(rest, end, limit, buffer)
  {
    FirstLine(message, rest, end, limit, buffer);
    TrimEndIs(message, |message|);
    assert message[..|message|] == message;
    hide Items, TrimEnd;
  }

  /** Every message that a client sends comes back as it is, once and in order, and then the end. */
  lemma MessagesReadBack(messages: seq<seq<byte>>, end: End, limit: nat, buffer: nat)
    requires buffer > 0 && forall message :: message in messages ==> IsMessage(message, limit)
    ensures Items(Sent(messages), end, limit, buffer) == AsMessages(messages) + [Ended(end)]
  {
    MessagesComeFirst(messages, [], end, limit, buffer);
    assert Sent(messages) + [] == Sent(messages);
    assert Items([], end, limit, buffer) == [Ended(end)];
    hide *;
  }

  /** A line over the limit is refused alone, wherever it is: the messages around it come back. */
  lemma LargeLineIsRefusedAlone(messages: seq<seq<byte>>, line: seq<byte>, later: seq<seq<byte>>, end: End,
                                limit: nat, buffer: nat)
    requires buffer > 0 && NEWLINE !in line && |line| > limit && line[|line| - 1] != RETURN
    requires forall message :: message in messages || message in later ==> IsMessage(message, limit)
    ensures Items(Sent(messages) + (line + [NEWLINE] + Sent(later)), end, limit, buffer) ==
      AsMessages(messages) + ([TooLarge] + (AsMessages(later) + [Ended(end)]))
  {
    TrimEndIs(line, |line|);
    assert line[..|line|] == line && Refused(line, limit, buffer);
    MessagesComeFirst(messages, line + [NEWLINE] + Sent(later), end, limit, buffer);
    FirstLine(line, Sent(later), end, limit, buffer);
    MessagesReadBack(later, end, limit, buffer);
    hide Items, Sent, AsMessages, Refused, TrimEnd;
  }

  /** The last message needs no newline when the input just ends; a read error loses it. */
  lemma LastMessageReadsBack(messages: seq<seq<byte>>, last: seq<byte>, end: End, limit: nat, buffer: nat)
    requires buffer > 0 && IsMessage(last, limit) && last != []
    requires forall message :: message in messages ==> IsMessage(message, limit)
    ensures Items(Sent(messages) + last, end, limit, buffer) ==
      AsMessages(messages) + (if end.EndOfFile? then [Message(last)] else []) + [Ended(end)]
  {
    MessagesComeFirst(messages, last, end, limit, buffer);
    assert last[..|last|] == last;
    LineLengthIs(last, |last|);
    TrimEndIs(last, |last|);
  }
}
