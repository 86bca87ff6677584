# Dafny model of the OwnGit command line protocols

This project models, in Dafny, the parts of OwnGit's command line that are easiest to get wrong: code that
rewrites a document under a byte budget, code with two threads, and code that talks to a server or a file system
that can fail at any step. Each module is named after what it models; `Basics` holds what several share.

- **MCP results** (`Json`, `BidiJson`, `FitResult`, `FitTheorems`, `FitSizes`, `FitBounds`, `FitAttempts`,
  `FitExact`). `fitResult` cuts a decoded JSON document, round by round, until its encoding fits: the longest
  string over 1024 bytes, or else the end of the largest list. The encoder is a recursive size function (section 7
  of RFC 8259 for strings, section 3 of RFC 3629 for code points). `FitResult` holds one round as the source
  writes it: `Cutter` changes its document and its cut paths in place, `Walk` is the visitor, and both are proved
  against functions. `FitTheorems` proves what any number of rounds keeps, `FitBounds` what they reach,
  `FitAttempts` how many are needed, and `FitExact` that they take no more than they must. `BidiJson` proves that
  the encoding reads back, and keeps its meaning when its direction controls are escaped.
- **MCP lists** (`ListPaging`, `FollowingPages`, `EscapedPages`). `fitList` cuts a page to a whole number of
  entries. Following `next` over any number of calls skips nothing when every answer that fits still fits once its
  direction controls are escaped, and loses entries otherwise.
- **The MCP session** (`Framing`, `McpSession`). The line reader, and the table of running calls under every
  interleaving of requests, cancellations, completions, failed writes and the end of the input.
- **The rotating log** (`RotatingLog`). A file that moves aside at a limit while renames and opens may fail; the
  size that the code tracks and the size that the file has are both modelled.
- **Check runs** (`Retry`, `CheckAttempt`, `CheckRun`). `postWithRetry` over lost requests and answers, the status
  of an attempt, and the run of one attempt beside the watcher of its stop signals.
- **Credentials** (`Origin`, `SecretFile`, `Issuance`). Canonical origins, the secret file that is bound to one,
  and the issue of a credential whose token goes to a reserved file, with the revoke that compensates.
- **Hidden input** (`HiddenLine`), **upgrade backups** (`UpgradeNote`, `UpgradeBackup`), **setup addresses**
  (`Addresses`) and **quoting** (`Quoting`).

Code that changes fields is a class whose methods are proved equal to a function of the old state; code with
several threads is a step relation over those functions, and its theorems are about every run. What a file system,
a network, a clock or another process decides is a parameter (`Env`, `Trip`, `Event` and the like), so each
theorem holds for everything they can do.

## Where the code differs from what is said about it

- The comment on `fitResult` says that a result fits because the last resort holds only `ok`. A scalar `ok` is not
  enough: a number longer than the limit is never cut (`FitBounds.LongOkDoesNotFit`). The exact condition is
  `FitBounds.ResultFitsExactly`; the `ok` of a server answer has it (`FitBounds.ServerResultFits`).
- The cap of 256 attempts can be reached (`FitAttempts.SomeDocumentReachesTheCap`). With enough strings over the
  floor everything except `ok` is dropped (`FitAttempts.ManyLongStringsDropEverything`); with fewer than 128
  strings over the floor and non-empty lists the cap plays no part (`FitAttempts.FewPlacesStopInTime`).
- `fitList` measures an answer before `callTool` escapes it. The server escapes what it sends, so the two sizes
  differ only with a server that does not, such as an older one; then entries are lost exactly when the answer no
  longer fits (`EscapedPages.EscapedPageKeepsItsEntries`, `EscapedPages.LastPageLosesAPullRequest`).
- A line of many carriage returns can be refused by `readMCPMessage` although its body is empty; with at most one,
  exactly the lines with a body over the limit are (`Framing.RefusedByBody`, `Framing.RefusedByReturns`).
- The log can refuse a line as "larger than twice the log file's limit" when it is not, and a line that is with
  the failure of a rename or an open (`RotatingLog.RefusalSaysWhy` gives the exact condition of both,
  `RotatingLog.SomeLineIsMisblamed` and `RotatingLog.SomeLongLineIsNotBlamed` a run of each). It can announce one
  lasting failure again and again (`RotatingLog.LastingFailureIsAnnounced` gives the exact condition and
  `RotatingLog.LongLinesAnnounceAgain` a run).
- A definite refusal of a registration is wrong when an earlier request of the same call was applied and its
  answer lost (`Retry.RefusalIsWrongAfterLostSuccess`). A server that refuses nothing it holds is a necessary
  assumption, and a sufficient one (`Retry.SteadyRefusalMeansNothing`).
- An issue command that cannot print its result reports an error although its credential is active and its token
  delivered (`Issuance.NotPrintedExactly`, `Issuance.SomeResultIsNotPrinted`). With a chosen creation identity the
  compensation can revoke an older credential that works (`Issuance.OlderIsRevoked`), and a creation that the
  server handles after the client gave up makes the report of the revoke wrong
  (`Issuance.CompensationIsWrongWhenLate`, `Issuance.SomeCreationIsLate`).
- The canonical text of an accepted server is not always accepted again: not for a host with a percent sign, such
  as an IPv6 zone, and not for an empty host with the default port (`Origin.CanonicalIsIdempotent`,
  `Origin.ZoneIsNotCanonicalAgain`, `Origin.EmptyHostIsNotAcceptedAgain`). A token file printed for such a server
  cannot be read back (`SecretFile.PrintedReadsBack`, `SecretFile.ZonedFileIsUnreadable`).
- A signal caught before the echo could be turned off is lost when that fails
  (`HiddenLine.SignalIsLostWhenRefused`).
- The comment in `upgradeBackupOf` speaks of the last complete line, but the code does not ask for its line break.
  A note cut off inside its last line names every directory at whose name it ends, so a complete backup of one
  directory can be removed by the upgrade of another whose path it starts with (`UpgradeNote.OneLinePartNames`,
  `UpgradeBackup.CutNoteLosesAnother`). So can that of a directory with a line break in its name
  (`UpgradeNote.WholeNoteNames`, `UpgradeNote.EndBreakNamesAnother`, `UpgradeNote.LineBreakNamesAnother`).

## Model

| member | source | states |
|---|---|---|
| Json.PutSize | cmd/owngit/mcp.go:624-661 | setting a value through a slot changes the encoded size, and the count of string bytes and list entries, by exactly the difference of the two values |
| Json.TextSizeSplit | cmd/owngit/mcp.go:602-609 | the UTF-8 length of a text is the sum of those of its parts |
| Json.Utf8ReadsBack | cmd/owngit/mcp.go:602-609 | every character takes the bytes of its shortest UTF-8 sequence, which reads back |
| Json.DecimalReadsBack | cmd/owngit/mcp.go:633-656 | an index in a path is written in decimal digits that read back |
| BidiJson.EscapeJSON | internal/bidi/bidi.go:29-48 | the loop that copies what lies between the controls writes each of them as an escape and everything else as it is |
| BidiJson.EscapedReadsTheSame | internal/bidi/bidi.go:25-48 | whatever the body of a JSON string is read as, it is read as after the escape, and what follows it is what followed it, escaped |
| BidiJson.NoControlIsLeft | internal/bidi/bidi.go:25-48 | no direction control is left, and escaping again changes nothing |
| BidiJson.ControlsAre | internal/bidi/bidi.go:18-22 | the controls are exactly the twelve marks, embeddings, overrides and isolates |
| BidiJson.EscapedIsNoShorter | internal/bidi/bidi.go:29-48 | escaping never shortens an encoding |
| BidiJson.MarshalTextReadsBack | internal/bidi/bidi.go:64-72 | what is written for a text reads back as that text, up to the closing quote |
| BidiJson.MarshalTextTakes | internal/bidi/bidi.go:64-72 | the bytes that the size function counts for a text are those of its encoding, before and after its controls are escaped |
| FitResult.Walk | cmd/owngit/mcp.go:585-656 | the recursive walk with its visitor ends with what visiting every slot in order gives |
| FitResult.SlotsAreValues | cmd/owngit/mcp.go:633-656 | every visited slot is the value at its position, with the path of that position |
| FitResult.EveryValueHasASlot | cmd/owngit/mcp.go:633-656 | no position below the root is missed by the walk |
| FitResult.VisitorFindsTheExtremes | cmd/owngit/mcp.go:585-599 | the visitor ends with the first of the longest strings over 1024 bytes and the first of the largest non-empty lists, or none when there is none |
| FitResult.FoundIsAValue | cmd/owngit/mcp.go:585-599 | what the visitor finds is a value of the document under its own path |
| FitResult.PathIsWritten | cmd/owngit/mcp.go:633-656 | a path holds the names with points between them and the indices in brackets |
| FitResult.BoundaryAt | cmd/owngit/mcp.go:602-609 | a byte position is a rune start exactly where a whole number of characters ends |
| FitResult.CutString | cmd/owngit/mcp.go:602-609 | backing up from a byte to a rune start leaves the longest whole prefix of characters within that many bytes |
| FitResult.CutList | cmd/owngit/mcp.go:610-618 | the loop from the end of a list drops the fewest entries whose counted bytes reach the excess, or all of them |
| FitResult.DropsFewestIsUnique | cmd/owngit/mcp.go:610-618 | only one number of entries is the fewest that suffice |
| FitResult.Cutter.constructor | cmd/owngit/mcp.go:547-556 | cutting starts from the decoded document with no cut path |
| FitResult.Cutter.ShortenLargest | cmd/owngit/mcp.go:585-623 | the in-place cut equals the specified one, and says whether anything was cut |
| FitExact.ChoiceIsTheLargest | cmd/owngit/mcp.go:585-601 | a string over 1024 bytes is cut as long as there is one, and then the longest of all strings; else the non-empty list with the longest encoding; nothing if and only if there is neither |
| FitExact.StringCutTakesNoMore | cmd/owngit/mcp.go:601-609 | what is left in the place of the string is its longest prefix of whole characters within all but the excess of its bytes, or within 1024 bytes when that is more: one character more is over that |
| FitExact.ListCutTakesNoMore | cmd/owngit/mcp.go:610-618 | a list keeps its first entries, and with one entry more the encoding would not lose the excess; it does lose it unless the list is emptied |
| FitTheorems.SetThenDelete | cmd/owngit/mcp.go:559-575 | setting a key of the root keeps a map a map, can be read back, and is undone by deleting the key |
| FitTheorems.NoteHolds | cmd/owngit/mcp.go:555-566 | the note holds the size before the cut, the limit and the paths, each under its own name |
| FitTheorems.TryOnce | cmd/owngit/mcp.go:559-575 | one turn of the loop equals the specified attempt, in place |
| FitTheorems.CutToFit | cmd/owngit/mcp.go:547-579 | the loop of at most 256 attempts and its last resort equal the specified result |
| FitTheorems.Fit | cmd/owngit/mcp.go:547-579 | content within the limit comes back as it is, and any other as the cut document |
| FitTheorems.CutKeepsTrimmed | cmd/owngit/mcp.go:585-623 | a prefix put in the place of a value whose path is recorded leaves the document trimmed: it differs from the original only by prefixes at recorded paths |
| FitTheorems.TrimmedSize | cmd/owngit/mcp.go:547-579 | a document that was only trimmed is never encoded longer |
| FitTheorems.CutIsListed | cmd/owngit/mcp.go:585-623 | one cut changes the document before it only at one place, whose path is then listed, to a proper prefix; and every listed place really is shorter than in the original or inside one that is |
| FitTheorems.AttemptKeepsCourse | cmd/owngit/mcp.go:559-575 | one attempt from a trimmed document ends in a result that fits and is explained by its note, or in a further trimmed document |
| FitTheorems.ResultIsExplained | cmd/owngit/mcp.go:547-579 | for every document and over all rounds the result keeps all keys, strings and lists become only prefixes, and the note lists exactly the cut paths; or it is the last resort with ok and the note |
| FitExact.OneStringKeepsAllButTheExcess | cmd/owngit/mcp.go:547-623 | for every document in which one string over 1024 bytes is all that can be cut, over all rounds: nothing is cut if and only if it fits with a note; else that string keeps all but the excess that the document has with its note, up to three bytes and never below 1021; and the last resort comes if and only if no cut to the floor fits |
| FitTheorems.DifferenceIsListed | cmd/owngit/mcp.go:547-656 | each place where a trimmed document differs from the original lies at or below a listed path |
| FitBounds.BulkFalls | cmd/owngit/mcp.go:585-623 | every successful cut strictly lowers the sum of string bytes and list entries, so cutting ends without the cap |
| FitBounds.NothingLeft | cmd/owngit/mcp.go:585-623 | a cut finds nothing exactly when no string is over the floor and every list is empty |
| FitBounds.StringCutRemovesEnough | cmd/owngit/mcp.go:601-609 | a string cut above the 1024 byte floor removes at least the excess from the encoding |
| FitBounds.ListCutRemovesWhatItCounted | cmd/owngit/mcp.go:610-618 | a list cut removes exactly the bytes it counted, and one byte less when it empties the list |
| FitBounds.ResultFits | cmd/owngit/mcp.go:547-579 | every result is within the limit when the original ok leaves room for the note |
| FitBounds.ServerResultFits | cmd/owngit/mcp.go:547-579 | for every allowed limit and a missing, null or boolean ok, every result is within the limit |
| FitBounds.ResultFitsExactly | cmd/owngit/mcp.go:576-579 | for any document whose ok no cut changes, the result is within the limit if and only if ok and the note of the last resort are, or nothing but ok is there and they are at most three bytes over it |
| FitBounds.LongOkDoesNotFit | cmd/owngit/mcp.go:576-579 | whatever else a document holds, an ok that is a number longer than the limit makes every result longer than the limit |
| FitAttempts.ManyLongStringsDropEverything | cmd/owngit/mcp.go:559-579 | with enough strings over the floor the 256 attempts run out and everything but ok is dropped although long strings are left to cut |
| FitSizes.KeySize | cmd/owngit/mcp.go:559-579 | a key adds exactly its quoted name, a colon, its value and a comma beside others to the encoding |
| FitAttempts.CutsFall | cmd/owngit/mcp.go:585-623 | every cut uses up one of the two cuts that each place has, or lists nothing new and removes all of the excess |
| FitAttempts.FewPlacesStopInTime | cmd/owngit/mcp.go:559-579 | with fewer than 128 strings over the floor and non-empty lists the cap is not reached: the result fits with its note, or nothing was left to cut |
| FitAttempts.SomeDocumentReachesTheCap | cmd/owngit/mcp.go:559-579 | a document of 259 long strings for which the cap is reached at the smallest limit |
| ListPaging.FitList | cmd/owngit/mcp_tools.go:687-713 | the countdown, which overwrites the same three keys of one root at each length, ends with what writing them over the root as it was gives: the specified page, the refusal or unchanged content |
| ListPaging.PageOverwrites | cmd/owngit/mcp_tools.go:701-711 | overwriting the keys of an earlier page gives the same page as writing them over the root as it was |
| ListPaging.PageHolds | cmd/owngit/mcp_tools.go:701-711 | a cut page holds the kept entries, next, the note, and every other key with the value that the root decodes to with its numbers as float64 |
| ListPaging.CutPageIsLongest | cmd/owngit/mcp_tools.go:687-713 | a cut page is the longest fitting proper prefix, and the refusal means that no non-empty prefix fits |
| ListPaging.FitListExactly | cmd/owngit/mcp_tools.go:687-713 | an answer is refused if and only if it is over the limit, can be read, has an entry, and no non-empty proper prefix fits; it becomes a page if and only if some prefix is the longest that fits, which is then that page; all others stay as they are |
| FollowingPages.ListIsTrimmed | cmd/owngit/mcp.go:547-579 | the list of a cut result is empty, or holds first entries of the original list, each of them the original trimmed only at paths that the note of the result lists |
| FollowingPages.CallShowsTheNextItems | cmd/owngit/mcp_tools.go:681-740 | under the condition of FollowingSkipsNothing each call shows the next items, at least one, with next pointing right after them, or is refused, which happens if and only if no part of the page fits |
| FollowingPages.RefusedExactly | cmd/owngit/mcp_tools.go:687-713 | a call is refused if and only if its answer is over the limit and so is a page of every non-empty proper prefix of its list |
| FollowingPages.FollowingSkipsNothing | cmd/owngit/mcp_tools.go:681-740 | against descending pages that all decode and of which every one that fits also fits once escaped, following next shows a prefix of the list without gap or repetition, the whole list if and only if there is no next, with at most one call an item; a refusal comes only before the end, and if and only if no part of that page fits |
| EscapedPages.EscapedPageLosesEntries | cmd/owngit/mcp_tools.go:688-691 | an answer that fits only before escaping loses entries of its list, and next does not go back to them |
| EscapedPages.EscapedPageKeepsItsEntries | cmd/owngit/mcp_tools.go:688-691 | for an answer that fits before escaping and whose list is all that can be cut, no entry is lost if and only if it fits once escaped |
| EscapedPages.LastPageLosesAPullRequest | cmd/owngit/mcp.go:516-531 | one such answer of a server that does not escape: four pull requests with titles of direction controls within 500 bytes, of which the last page shows fewer, without a next |
| Framing.Reader.ReadSlice | cmd/owngit/mcp.go:282-305 | bufio.Reader.ReadSlice: a line, a full buffer, or what is left before the end |
| Framing.ReadMessage | cmd/owngit/mcp.go:282-305 | reads exactly one line from any input and gives its message, the too-large error or the end, and is then at the start of the next line |
| Framing.ReadAll | cmd/owngit/mcp.go:231-275 | the reading loop gives exactly the lines of the input, each trimmed or refused, in order |
| Framing.RefusedByBody | cmd/owngit/mcp.go:282-305 | with at most one trailing carriage return a line is refused if and only if its body is over the limit |
| Framing.RefusedByReturns | cmd/owngit/mcp.go:282-305 | a line of carriage returns as long as limit and buffer together is refused with an empty body |
| Framing.MessagesReadBack | cmd/owngit/mcp.go:231-305 | messages within the limit, sent one to a line, come back as they are, each once and in order |
| Framing.LargeLineIsRefusedAlone | cmd/owngit/mcp.go:282-305 | a line over the limit is refused alone, wherever it is: the messages before and after it come back |
| Framing.LastMessageReadsBack | cmd/owngit/mcp.go:300-305 | a last message without a newline comes back if the input just ends, and not after a read error |
| Framing.ServeSizes | cmd/owngit/mcp.go:241 | the limit of serve is a multiple of its reader's buffer size |
| McpSession.Session.StartCall | cmd/owngit/mcp.go:432-481 | under the lock a request is refused while its id is in progress or 16 calls are, and is otherwise entered under its id |
| McpSession.Session.CancelCall | cmd/owngit/mcp.go:485-498 | under the lock a cancellation marks the call with its id, if it is in the table |
| McpSession.Session.LeaveTable | cmd/owngit/mcp.go:432-481 | under the lock a finishing call deletes its entry and learns whether it stays quiet |
| McpSession.Session.SendMessage | cmd/owngit/mcp.go:406-421 | a message is written unless the output failed, and a failed write stops the session |
| McpSession.Session.EndReading | cmd/owngit/mcp.go:268-275 | the end of the input closes the session and stops its calls |
| McpSession.StepKeeps | cmd/owngit/mcp.go:231-498 | every step of every thread keeps the table equal to the running calls and each call's answers right |
| McpSession.FinishDeletesItsOwnEntry | cmd/owngit/mcp.go:432-481 | the entry that a finishing call deletes is its own, and every other entry stays |
| McpSession.TableIsBounded | cmd/owngit/mcp.go:432-481 | at every moment of every run the table holds exactly the running calls, each under its own id, and at most 16 |
| McpSession.AdmittedExactly | cmd/owngit/mcp.go:452-470 | in every run a request starts a call under its id if and only if no call with that id is running and fewer than 16 calls are; else nothing is added and the refusal about to be sent says that the id is in progress if it is, and else that the server is busy |
| McpSession.MessageIsSent | cmd/owngit/mcp.go:406-421 | what the serving thread is about to send is written next by it, whatever the calls do in between, unless the output failed |
| McpSession.AnsweredExactly | cmd/owngit/mcp.go:406-498 | in every run a call has at most one answer, none exactly if it was cancelled or the session closed before it left the table, and otherwise one unless the output failed |
| McpSession.NoEarlyAnswer | cmd/owngit/mcp.go:432-481 | no answer is written for a call that is still in the table |
| McpSession.NothingAfterServeReturns | cmd/owngit/mcp.go:268-275 | serve returns only after every call ended, and nothing is written after it |
| McpSession.WaitingEnds | cmd/owngit/mcp.go:268-275 | after the end of the input every step brings the return nearer, and one is possible until then |
| McpSession.RunsEnd | cmd/owngit/mcp.go:231-275 | a run has at most a fixed number of steps after the end of the input, and reaches the return exactly when none is left |
| RotatingLog.RotatingFile.constructor | cmd/owngit/logfile.go:102-119 | a log starts with its file open, its size tracked and no failure |
| RotatingLog.RotatingFile.Fail | cmd/owngit/logfile.go:258-274 | a failure schedules the next try and is announced unless it is already |
| RotatingLog.RotatingFile.Reopen | cmd/owngit/logfile.go:241-254 | an open sets the tracked size, and ends the failure only at or under the limit |
| RotatingLog.RotatingFile.Rotate | cmd/owngit/logfile.go:227-238 | a rename moves the file aside, and a new one is opened or the old one reopened |
| RotatingLog.RotatingFile.Write | cmd/owngit/logfile.go:199-222 | the whole new state and outcome of a write, whatever the system refuses |
| RotatingLog.RotatingFile.Close | cmd/owngit/logfile.go:276-289 | file and folder are closed and nothing else changes |
| RotatingLog.RotatingFile.WriteOrStderr | cmd/owngit/logfile.go:295-301 | a line that the file does not take whole goes whole to standard error |
| RotatingLog.WorkingCall | cmd/owngit/logfile.go:199-254 | in every run, once the delay has passed since each call that could not rename or open, a call that can does exactly this: a file that is open, not empty and without room within the limit becomes FILE.1 and any failure is over; else FILE.1 stays and a closed file is open again; and the line goes to the end of FILE unless that is past twice the limit |
| RotatingLog.HealthyRunFits | cmd/owngit/logfile.go:199-238 | without failures and with lines within the limit FILE is within the limit after every call, FILE.1 is replaced by it exactly when the line does not fit beside it, and every line is whole at its end |
| RotatingLog.FailureBegins | cmd/owngit/logfile.go:227-274 | in every run a failure begins, is announced once and names its cause, if and only if the line does not fit beside what the file holds and the rename or the open fails |
| RotatingLog.RunFits | cmd/owngit/logfile.go:199-274 | in every run a failure is reported exactly while it lasts, without one no delay is pending, and a log that is not open has one |
| RotatingLog.RefusalSaysWhy | cmd/owngit/logfile.go:212-218 | a line over twice the limit is always refused, and blamed on its length if and only if no failure is there and a rotation tried for it succeeds, or the call ends the failure that is; any other line is blamed on its length if and only if the log is closed, is opened for it at or under the limit, and the line does not fit beside what it holds |
| RotatingLog.SomeLineIsMisblamed | cmd/owngit/logfile.go:205-218 | a run in which a shorter line is blamed on its length |
| RotatingLog.SomeLongLineIsNotBlamed | cmd/owngit/logfile.go:205-218 | a run in which a line over twice the limit is refused with the failure of a rename |
| RotatingLog.RealSizeIsBounded | cmd/owngit/logfile.go:199-274 | however long failures last, the real file is at most one notice over the greater of its first size and twice the limit, and the tracked size is behind by at most that notice |
| RotatingLog.PairIsASuffix | cmd/owngit/logfile.go:199-274 | in every run FILE.1 followed by FILE is a contiguous suffix of all that was taken, notices included, and only successful rotations drop anything, each what FILE.1 held |
| RotatingLog.NewestBytesAreKept | cmd/owngit/logfile.go:199-238 | from the first successful rotation on FILE.1 holds more than the limit less the longest line |
| RotatingLog.AttemptsAreSpaced | cmd/owngit/logfile.go:205-211 | after a failed attempt no rotation or open is tried before the whole delay |
| RotatingLog.FailureIsAnnouncedOnce | cmd/owngit/logfile.go:241-274 | for whole writes of lines up to the limit and opens that succeed, between two announcements a rename succeeded, and a successful rename ends the failure |
| RotatingLog.FailureLasts | cmd/owngit/logfile.go:241-254 | under the same conditions nothing but a successful rename ends a failure |
| RotatingLog.LongLinesAnnounceAgain | cmd/owngit/logfile.go:241-274 | a run with lines over the limit that announces one failure twice |
| RotatingLog.LastingFailureIsAnnounced | cmd/owngit/logfile.go:241-274 | in every run a call announces a failure that was there before it if and only if a rotation is tried, its rename fails and its open finds the file at or under the limit |
| RotatingLog.EpisodeIsAnnounced | cmd/owngit/logfile.go:241-274 | as long as no call ends it a failure lasts, and exactly the calls with that condition announce it |
| RotatingLog.FailureEnds | cmd/owngit/logfile.go:199-254 | a failure ends if and only if a rotation gets its rename and its open, or a closed log is opened at or under the limit |
| RotatingLog.LineIsDeliveredWhole | cmd/owngit/logfile.go:295-301 | what fileOrStderr leaves: the line whole at the end of the file, or whole as the last thing on standard error, where it is if and only if the write did not take all of it |
| Retry.PostWithRetry | cmd/owngit/operations.go:340-363 | the loop equals the specified exchange and sends at most three requests |
| Retry.AppliesAtMostOnce | cmd/owngit/operations.go:336-363 | in every pattern of losses an idempotent server applies the operation at most once, and exactly once on success for a new identity |
| Retry.StopsWhenCancelled | cmd/owngit/operations.go:343-350 | no request follows a wait that the context ended |
| Retry.RetriesLostAnswers | cmd/owngit/operations.go:352-361 | only a request without a usable answer is repeated, and the call gives up on one only after the third or at the end of its context |
| Retry.SucceedsExactly | cmd/owngit/operations.go:340-363 | a call succeeds if and only if one of the requests that it sends arrives, is accepted and gets its whole answer back |
| Retry.RefusalIsWrongAfterLostSuccess | cmd/owngit/check.go:683-686 | after a definite refusal the server holds a new identity if and only if it applied an earlier request of the call |
| Retry.SteadyRefusalMeansNothing | cmd/owngit/check.go:683-686 | with a server that refuses nothing it holds, a definite refusal means that nothing was applied |
| Retry.RefusalAfterLostSuccess | cmd/owngit/check.go:444-455 | a lost success followed by a 401 is reported as a refusal |
| CheckAttempt.AggregateAttemptStatus | internal/state/checks.go:1457-1481 | the two loops give the specified status |
| CheckAttempt.AggregateMeans | internal/state/checks.go:1453-1481 | a cleanup failure or an error outranks the cancellation, which outranks the worst status of the results, of which there is exactly one |
| CheckAttempt.WorstInOrder | internal/state/checks.go:1457-1474 | the worst status is cancelled if a result is, else error, failed, unavailable, incomplete, and passed only if all are |
| CheckAttempt.CancelledMeans | internal/state/checks.go:1453-1481 | cancelled if and only if no cleanup failed, an error is not the worst result, and the attempt or its worst result is cancelled |
| CheckAttempt.PassedMeans | internal/state/checks.go:1453-1481 | passed if and only if not cancelled and there are results, all passed with their cleanup |
| CheckAttempt.ConfirmedIsTheWorse | cmd/owngit/check.go:800-814 | the confirmed worktree is the worse of both observations, dirty for a revision that moved, and clean if and only if both saw the same revision clean |
| CheckRun.CheckAttemptSteps.Register | cmd/owngit/check.go:448-473 | a definite refusal stops the run, a usable answer registers the attempt, and anything else leaves it unregistered |
| CheckRun.CheckAttemptSteps.Complete | cmd/owngit/check.go:505-544 | a registered attempt is uploaded by a usable answer, a local one is recorded, and others are left |
| CheckRun.RunStops.Step | cmd/owngit/check.go:609-649 | the channel of two signals and the watcher, which records a signal before it ends a context |
| CheckRun.RunStops.Release | cmd/owngit/check.go:651-656 | release stops the delivery and ends both contexts |
| CheckRun.StepKeeps | cmd/owngit/check.go:257-656 | every step of the run and its watcher keeps the invariants below |
| CheckRun.EndedRunHasItsSignal | cmd/owngit/check.go:583-656 | in every run, before release, an ended run context means a recorded signal, and an interrupted exit always names one |
| CheckRun.SignalsEndContexts | cmd/owngit/check.go:609-649 | once the watcher has nothing left to do, the run context has ended if and only if a signal arrived, and the finish context if and only if two did, however fast they came |
| CheckRun.InterruptNamesASignal | cmd/owngit/check.go:297-338 | the signal of an interrupted exit is one that was the last recorded at an earlier moment of the run |
| CheckRun.NoCheckAfterRefusal | cmd/owngit/check.go:309-314 | after a definite refusal of the registration no check ever starts |
| CheckRun.NoCheckAfterSignal | cmd/owngit/check.go:477-486 | once the run context has ended no further check is started |
| CheckRun.StoppedBeforeRegistration | cmd/owngit/check.go:300-306 | a signal recorded before the registration ends the run there: the server never hears of it, no check is started, and the exit names that signal |
| CheckRun.AnswersDecide | cmd/owngit/check.go:448-544 | an attempt is registered if and only if its registration is accepted with a usable answer, is stopped only by a definite refusal, and is recorded if and only if its completion is accepted in the same way or there is no server |
| CheckRun.CompletionIsNotSkipped | cmd/owngit/check.go:309-328 | a confirmed registration is always followed by its completion, which fewer than two signals never cut short |
| CheckRun.ExitZeroMeans | cmd/owngit/check.go:314-328 | exit 0 means recorded, every check of the run started and passed, no signal recorded when the status was read, and with a server exactly one registration and one completion |
| CheckRun.ExitExactly | cmd/owngit/check.go:314-328 | unless the finish context is over, when the exit names the last signal, it is 0 if and only if the result is recorded, there are results, all passed with their cleanup, and no signal was read; not recorded if and only if it is not; an interrupt if and only if recorded and either cancelled without ending in an error, or passed with a signal read; and not passed otherwise |
| CheckRun.OtherExits | cmd/owngit/check.go:297-338 | before the registration the exit names a recorded signal, or reports a failed preparation, or there is none; after a refusal it names the last signal if the finish context is over and else reports the error, as it does for a failed print; no other step sets it |
| CheckRun.GoodRunExitsZero | cmd/owngit/check.go:297-328 | a run without a signal in which every step succeeds, both requests are accepted and every check passes exits with 0, recorded and, with a server, registered |
| CheckRun.RunsEnd | cmd/owngit/check.go:257-656 | every run has at most 21 steps, two for each check and one for each signal, and until it has ended some step is possible that no signal has to bring about |
| CheckRun.UploadedMeansOnce | cmd/owngit/check.go:448-544 | an uploaded result means exactly one registration and one completion whatever was lost and repeated |
| CheckRun.ReleaseEnds | cmd/owngit/check.go:609-656 | after release the watcher always can go on until it is gone, in boundedly many steps, and only then release returns |
| Origin.CanonicalIsIdempotent | cmd/owngit/origin.go:192-206 | the canonical text is accepted and canonical again if and only if the host has no percent sign and is not empty with the default port or none |
| Origin.ZoneIsNotCanonicalAgain | cmd/owngit/origin.go:192-206 | every IPv6 address with a zone is accepted, and its canonical text is not canonical again |
| Origin.EmptyHostIsNotAcceptedAgain | cmd/owngit/origin.go:192-206 | http://:80 is accepted, and its canonical text is not |
| Origin.CanonicalComparesOrigins | cmd/owngit/origin.go:190-206 | canonical texts are equal if and only if the schemes are, the hosts but for the case of the letters A to Z, and the ports that requests go to, 80 or 443 without one |
| Origin.AcceptedIsWellFormed | internal/apiclient/client.go:295-313 | an accepted server has an HTTP scheme, a host of host characters and a port of digits |
| Origin.RefusedCharacters | internal/apiclient/client.go:295-305 | a server with a path, a query, a fragment, credentials, a blank or a control character is refused: no slash, question mark, number sign, at sign or backslash follows the scheme, but for an empty query or fragment at the end |
| Origin.NamesAreAccepted | internal/apiclient/client.go:295-313 | a host name of letters, digits, points and hyphens, with or without a port, is accepted as it is |
| SecretFile.PrintedReadsBack | cmd/owngit/origin.go:243-354 | a printed origin and token read back as that pair if and only if the origin is canonical again and the line and file are within their limits |
| SecretFile.ZonedFileIsUnreadable | cmd/owngit/origin.go:243-354 | a token printed for a server with an IPv6 zone cannot be read back |
| SecretFile.EmptyHostFileIsUnreadable | cmd/owngit/origin.go:243-354 | nor can one printed for http://:80 |
| SecretFile.LooksLikeResembles | cmd/owngit/origin.go:268-273 | a file is refused as a misspelled binding if and only if its first text that is not blank is the name in some case |
| SecretFile.BindingIsExact | cmd/owngit/origin.go:243-354 | a file read without a binding does not resemble one with it, and a bound file has the exact line of an accepted server; the secret is the trimmed text of the whole file without a binding, and of what follows the first line break with one |
| SecretFile.RefusalIsExact | cmd/owngit/origin.go:243-354 | a file that starts like a binding or resembles one is only ever refused as a wrong binding, and never read without one; any other is refused if and only if it is over a mebibyte, has no text, or has more than one line of it, and else read whole |
| SecretFile.TrimmedMeans | cmd/owngit/origin.go:342 | trimming takes off white space at both ends, and all of it |
| SecretFile.SecretGoesToItsServer | cmd/owngit/origin.go:356-371 | a bound file gives its secret for another server if and only if both are the same origin, and an unbound one if and only if the server was not inferred |
| Issuance.Folder.Write | cmd/owngit/helper_credential.go:358-365 | the text goes to the reserved file, and any part that is missing is an error |
| Issuance.Fail | cmd/owngit/helper_credential.go:242-260 | a failure is returned as it is or compensated by one revoke, confirmed or not |
| Issuance.Create | cmd/owngit/helper_credential.go:84-163 | the steps of the command equal the specified end in every environment |
| Issuance.FreshCreationEnds | cmd/owngit/helper_credential.go:84-163 | with a fresh identity every run ends with the token delivered and active, with an error and no active credential, or unconfirmed naming the identity; a result that could not be printed is the one error with the token delivered |
| Issuance.FreshCreationEndsExactly | cmd/owngit/helper_credential.go:84-163 | a fresh creation succeeds if and only if the credential is issued with a whole answer, the token is taken whole, flushed and closed by a file that the path names at all three checks, and the result is printed; it is refused if and only if a whole answer says that nothing was done; and otherwise the revoke decides |
| Issuance.NotPrintedExactly | cmd/owngit/helper_credential.go:84-163 | a fresh creation ends with an error that does not name its identity and with an active credential if and only if its result is not printed and would else have been its success |
| Issuance.DeliveredTokenReadsBack | cmd/owngit/helper_credential.go:139-163 | the delivered file reads back as the token bound to its server if and only if its origin is canonical again and line and file are within their limits |
| Issuance.CompensationIsWrongWhenLate | cmd/owngit/helper_credential.go:242-260 | a confirmed revoke leaves an active credential if and only if the creation was handled after it |
| Issuance.SomeCreationIsLate | cmd/owngit/helper_credential.go:242-260 | a run whose creation is handled after its revoke, which reports the revoke although the credential is active |
| Issuance.SomeResultIsNotPrinted | cmd/owngit/helper_credential.go:156-163 | a run that ends with an error because its result is not printed, with an active credential |
| Issuance.OtherCredentialsStay | cmd/owngit/helper_credential.go:242-260 | no other credential changes, and without a revoke none that was there |
| Issuance.OtherFilesStay | cmd/owngit/helper_credential.go:315-386 | no file but the reserved one is written, whatever the path names |
| Issuance.RevokesOnlyUncertainFailures | cmd/owngit/helper_credential.go:233-260 | a revoke is sent by exactly the failures that are neither a definite refusal nor a refusal before the operation |
| Issuance.ReplayNeverRevokes | cmd/owngit/helper_credential.go:217-231 | a replay is reported if and only if it is one, leaves the server as it is, and names the credential and whether it is revoked |
| Issuance.OlderIsRevoked | cmd/owngit/configured_checks.go:208-269 | an older credential under a chosen identity is revoked if and only if the answer was uncertain and the revoke was done |
| Issuance.OlderCanBeRevoked | cmd/owngit/configured_checks.go:208-269 | a lost replay answer whose compensation revokes a working credential |
| HiddenLine.StepKeeps | cmd/owngit/import.go:1083-1122 | every step of the reader, the watcher and the system keeps the invariant |
| HiddenLine.EchoIsRestoredOnce | cmd/owngit/import.go:1083-1122 | restore is called exactly once and has ended before the function returns or the process ends, if echo was turned off, and never otherwise |
| HiddenLine.StatusNamesTheSignal | cmd/owngit/import.go:1095-1102 | a caught signal ends the process with 128 plus its number |
| HiddenLine.CaughtSignalNeverReturns | cmd/owngit/import.go:1084-1122 | after a caught signal the function returns only if the echo could not be turned off |
| HiddenLine.CaughtSignalEndsTheProcess | cmd/owngit/import.go:1091-1112 | with echo off a caught signal ends the process in boundedly many steps that need no input, from every state |
| HiddenLine.EveryRunEnds | cmd/owngit/import.go:1083-1122 | with or without a signal every run has at most 17 steps besides the signals that arrive, and until the function returns or the process ends one is possible |
| HiddenLine.LineIsReturned | cmd/owngit/import.go:1103-1122 | a run without a signal ends only with the return of the function, with the echo on again |
| HiddenLine.SignalIsLostWhenRefused | cmd/owngit/import.go:1084-1090 | a run that loses a signal when the echo cannot be turned off |
| UpgradeNote.NoteNamesItsDirectory | cmd/owngit/upgrade_backup.go:177-261 | the whole note of a directory without line breaks names that directory if its last line fits the window, and no other |
| UpgradeNote.WindowShowsLastLine | cmd/owngit/upgrade_backup.go:243-260 | for any note the window shows its last line if and only if the break before it is inside, or the note is no longer than the window |
| UpgradeNote.NoteNamesExactly | cmd/owngit/upgrade_backup.go:243-260 | a note whose last line so far starts with the prefix names a directory if and only if the rest is that directory and line breaks, or ends with a whole line that names it, and the line is in the window |
| UpgradeNote.WholeNoteNames | cmd/owngit/upgrade_backup.go:177-261 | which directory the whole note of any directory names, line breaks in its name included |
| UpgradeNote.OwnNoteIsTaken | cmd/owngit/upgrade_backup.go:177-261 | a directory's whole note is taken as its own if and only if its name has no line break and the last line fits the window |
| UpgradeNote.EndBreakNamesAnother | cmd/owngit/upgrade_backup.go:177-261 | the note of a directory whose name ends with a line break names the directory without it |
| UpgradeNote.LineBreakNamesAnother | cmd/owngit/upgrade_backup.go:177-261 | the note of a directory whose name ends with a line that names another names that one |
| UpgradeNote.WrittenNamesNothing | cmd/owngit/upgrade_backup.go:177-197 | what is written before the last line has no line that starts like it, for parts without line breaks |
| UpgradeNote.PartNames | cmd/owngit/upgrade_backup.go:177-261 | a part of the note of any directory, as a stopped write leaves it, names another if and only if what it holds after the prefix is that name and line breaks, or ends with a whole line that names it, and the line is in the window |
| UpgradeNote.OneLinePartNames | cmd/owngit/upgrade_backup.go:177-261 | a part of the note of a directory without line breaks names another directory if and only if the write ended right after that name, which the own name starts with, and its own if and only if the name is all there |
| UpgradeNote.CutNoteNamesAnother | cmd/owngit/upgrade_backup.go:177-261 | a note cut off inside a longer name is taken as the note of the shorter one |
| UpgradeBackup.NewName | cmd/owngit/upgrade_backup.go:160-174 | the first free of a hundred names, and none if and only if all are taken |
| UpgradeBackup.StepKeeps | cmd/owngit/upgrade_backup.go:97-225 | every file system change keeps the old entries until the new backup is whole, and then the new one |
| UpgradeBackup.BackupIsNeverLost | cmd/owngit/upgrade_backup.go:97-225 | at every step, even one at which the process dies, a complete noted backup is there if one was |
| UpgradeBackup.SomeStep | cmd/owngit/upgrade_backup.go:97-225 | an upgrade that has not come to its end can go on without a failure, and each such step of the removal brings its end nearer |
| UpgradeBackup.GoodRunEndsWell | cmd/owngit/upgrade_backup.go:97-154 | without a failure and with a free name an upgrade makes a whole backup with its note under a new name, or none, if and only if the state is not set up, and then changes nothing |
| UpgradeBackup.FailureEndsIt | cmd/owngit/upgrade_backup.go:97-154 | any failure before the new backup has its note ends the upgrade at once, with every older entry as it was |
| UpgradeBackup.OldGoesAfterNew | cmd/owngit/upgrade_backup.go:97-225 | an old entry changes only after the new backup and its note are whole, and only if its note names this directory |
| UpgradeBackup.OtherDirectoriesStay | cmd/owngit/upgrade_backup.go:204-225 | a backup whose note is any part of the note of any other directory can be removed by an upgrade of this directory if and only if the part names this directory; whole notes of other directories without line breaks never do |
| UpgradeBackup.UnnamedEntriesStay | cmd/owngit/upgrade_backup.go:204-225 | an entry whose note does not name this directory stays as it is in every run |
| UpgradeBackup.NamedEntryCanGo | cmd/owngit/upgrade_backup.go:210-225 | any entry whose note names this directory is removed by some run |
| UpgradeBackup.EntryCanGo | cmd/owngit/upgrade_backup.go:204-261 | some run removes an entry if and only if it is a private folder of this account whose note names this directory |
| UpgradeBackup.CutNoteLosesAnother | cmd/owngit/upgrade_backup.go:97-225 | an upgrade of a longer name that stops inside the last line of its note leaves a complete backup that an upgrade of the shorter name can remove |
| UpgradeBackup.OldOnesAreRemoved | cmd/owngit/upgrade_backup.go:210-225 | after a full listing and no failed removal only the new backup names this directory |
| Addresses.OrderAddresses | cmd/owngit/setup_link.go:286-315 | the loops equal the filter, the stable sort and the capped removal of repetitions |
| Addresses.ByRankOrders | cmd/owngit/setup_link.go:287-308 | the sorted addresses come in the order of rank and, within one, of the candidates |
| Addresses.ResultIsFirstSix | cmd/owngit/setup_link.go:286-315 | the result is the first six distinct kept addresses in that order, and all of them when there are fewer |
| Addresses.KeptMeans | cmd/owngit/setup_link.go:280-307 | an address is kept if and only if it is in one of the four private ranges of IPv4, by their first and last addresses, or in fc00::/7, and some candidate on no virtual interface has it |
| Addresses.PrivateIsARange | cmd/owngit/setup_link.go:274-284 | the private addresses are those between 10.0.0.0 and 10.255.255.255, 172.16.0.0 and 172.31.255.255, 192.168.0.0 and 192.168.255.255, 100.64.0.0 and 100.127.255.255, and in fc00::/7 |
| Addresses.VirtualNames | cmd/owngit/setup_link.go:317-326 | the virtual interfaces are those whose names start with one of nine names |
| Addresses.OrderInWords | cmd/owngit/setup_link.go:286-315 | of two kept addresses the preferred one comes first, else one of an own IPv4 network before one in the shared range, both before an IPv6 address, and else the one whose candidate came first |
| Quoting.QuoteForPowerShell | cmd/owngit/backup_restore_guide.go:115-127 | the loop writes the word with every single quote doubled, in quotes |
| Quoting.PowerShellReadsBack | cmd/owngit/backup_restore_guide.go:109-127 | PowerShell, which ends a literal at U+0027 and U+2018 to U+201B, reads it back as the word, and all of it, if and only if no such mark follows at once |
| Quoting.PosixReadsBack | internal/service/systemd.go:434-436 | a POSIX shell reads the quoted word back before a blank, an operator or the end |

## Left out

- Decoding: a document is given as what `encoding/json` decodes it to, and content that does not decode as none. Map keys come in sorted order; that the list of cut paths is sorted is not stated, only where each path is put.
- Raw list entries: `fitList` keeps them as raw JSON. They are counted here by the size of what they decode to, so white space inside an entry is not modelled.
- The float64 numbers of `fitList`: the root as it decodes with them is given beside the document itself, and so is whether it decodes at all; which literal a float64 is written as is not part of this model.
- White space outside ASCII around a secret, which `bytes.TrimSpace` also takes off.
- Text: Go strings are sequences of valid code points; bytes that are not UTF-8 are not modelled.
- MCP tools, their schemas, JSON-RPC parsing in `handle`, and `runChecks`: a message is given as the step it leads to. The reader's buffer is assumed to divide the limit, as it does in `serve`, and its input to report the end separately from the last bytes.
- Timers, locks and goroutines: a step is what happens under one lock or between two blocking operations.
- `logAndEarlier`, access lists and the private copies made at opening: the log starts with its file open. Runs are of calls of `Write`; `Close` is specified but not part of a run. A write fails exactly if it takes less than the line.
- The server: an idempotent store by identity for check attempts, and by creation identity for credentials; `internal/state` is the source of both, and its SQL is not modelled. No other client touches the same identities during a call.
- A second notice within one rotation: when both the rename and the open fail, the clock is read once.
- `resolveTarget`, `readOriginRemote`, `parseCloneURL` and password files: reading Git's configuration and the same file format with other limits.
- Origins with characters outside ASCII, percent escapes other than that of the percent sign, and whether the text between brackets is a valid IPv6 address: `net/url` is not part of this model beyond the accepted shape of an authority.
- HiddenLine.EchoIsRestoredOnce: that the echo is on again assumes that the restore works; the source's can fail, and the function then reports it.
- HiddenLine.StatusNamesTheSignal: a signal that cannot be caught ends the process without a restore, and is not modelled.
- UpgradeNote.WrittenNamesNothing: the fixed words of the note are a parameter; all that is used of them is that they are on lines of their own that do not start with the prefix's first letter.
- How `recovery.CreateWithReport` writes a backup: it is an entry that becomes complete in one step or stays incomplete.
- The order in which a directory lists its entries, and partial removals: any list and any damage to the entry being removed.
- Quoting.PosixReadsBack: the shell's word is read without expansions, and what follows directly without a blank or an operator would continue the word.
- Service managers, tray code, flag parsing, report printing and the tables of `internal/actions`: text and foreign calls.
