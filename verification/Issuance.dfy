/** The issue of one credential whose token goes to a reserved file, and the revoke that compensates a
    failure (helperCredentialCreate, the issue arm of runnerCredentialCommand, credentialIssuance). */
module Issuance {
  import opened Basics
  import opened Origin
  import SecretFile

  // ---------------------------------------------------------------- the server

  datatype Credential = Credential(id: nat, title: string, token: string, active: bool)

  /** The credentials of the repository by creation identity. */
  type Server = map<string, Credential>

  /** How the server takes a request: as its state decides, with a refusal (HTTP 4xx), with the 503 that
      says that nothing was started, or with another failure, before or after it did what was asked. */
  datatype Verdict = Decide | Refuse(status: nat) | NotStarted | Break(status: nat, applies: bool)

  datatype Heard = Whole | Lost | Garbled

  /** When the server handles the creation: never, before the client gives up, or after the end. */
  datatype Arrival = Never | InTime | Late

  /** What the client makes of a whole answer that reports success. */
  datatype Reading = Plain | NoCredential | OtherRepository | OtherIdentity

  datatype Post = Post(arrival: Arrival, verdict: Verdict, heard: Heard, reading: Reading, id: nat, token: string)

  datatype Revocation = Revocation(arrives: bool, verdict: Verdict, heard: Heard)

  datatype Code = ConnectionFailed | InvalidResponse | ServerCode | Mismatched | OutputReplaced | TokenDeliveryFailed

  datatype Problem = Problem(code: Code, status: nat, notStarted: bool)

  datatype Reply = Issued(id: nat, token: string) | Replay(id: nat, revoked: bool) | Failed(problem: Problem)

  predicate ProperVerdict(verdict: Verdict) {
    match verdict
    case Refuse(status) => 400 <= status < 500
    case Break(status, _) => !(400 <= status < 500)
    case _ => true
  }

  function Unanswered(code: Code): Reply {
    Failed(Problem(code, 0, false))
  }

  /** The server adds a credential for an identity that it does not know. */
  function Added(server: Server, creation: string, title: string, post: Post): Server {
    if creation in server then server else server[creation := Credential(post.id, title, post.token, true)]
  }

  predicate Applies(verdict: Verdict) {
    verdict.Decide? || (verdict.Break? && verdict.applies)
  }

  function Handled(server: Server, creation: string, title: string, post: Post): Reply {
    match post.verdict
    case Refuse(status) => Failed(Problem(ServerCode, status, false))
    case NotStarted => Failed(Problem(ServerCode, 503, true))
    case Break(status, _) => Failed(Problem(ServerCode, status, false))
    case Decide =>
      if creation !in server then Issued(post.id, post.token)
      else if server[creation].title != title then Failed(Problem(ServerCode, 409, false))
      else Replay(server[creation].id, !server[creation].active)
  }

  function Read(reply: Reply, reading: Reading): Reply {
    if reply.Failed? then reply else
      match reading
      case Plain => reply
      case NoCredential => Unanswered(InvalidResponse)
      case OtherRepository => Unanswered(Mismatched)
      case OtherIdentity => Unanswered(Mismatched)
  }

  /** The creation request: the server after it, unless it comes late, and what the client hears. */
  function Asked(server: Server, creation: string, title: string, post: Post): (Server, Reply) {
    if !post.arrival.InTime? then (server, Unanswered(ConnectionFailed)) else
      var after := if Applies(post.verdict) then Added(server, creation, title, post) else server;
      match post.heard
      case Lost => (after, Unanswered(ConnectionFailed))
      case Garbled => (after, Unanswered(InvalidResponse))
      case Whole => (after, Read(Handled(server, creation, title, post), post.reading))
  }

  predicate Revokes(r: Revocation) {
    r.arrives && Applies(r.verdict)
  }

  /** The revoke by creation identity: idempotent, and confirmed by a whole answer of success. */
  function Revoked(server: Server, creation: string, r: Revocation): (Server, bool) {
    (if Revokes(r) && creation in server then server[creation := server[creation].(active := false)] else server,
     r.arrives && r.verdict.Decide? && r.heard.Whole?)
  }

  // ---------------------------------------------------------------- the command

  /** The rest of what happens: which file the path names at each of three checks, how much of the text
      the file takes, whether it is flushed and closed, the revoke, and whether the result is printed. */
  datatype Env = Env(post: Post, names: seq<Option<nat>>, takes: nat, syncs: bool, closes: bool, revocation: Revocation,
                     prints: bool)

  datatype Outcome = Success(id: nat) | NotPrinted | Refused(problem: Problem)
                   | TokenUnavailable(id: nat, revoked: bool)
                   | Compensated(problem: Problem) | Unconfirmed(creation: string)

  datatype End = End(server: Server, files: map<nat, string>, revokes: nat, outcome: Outcome)

  ghost predicate Proper(env: Env) {
    |env.names| == 3 && ProperVerdict(env.post.verdict) && ProperVerdict(env.revocation.verdict)
      && SecretFile.IsToken(env.post.token)
  }

  predicate DefiniteRefusal(problem: Problem) {
    400 <= problem.status < 500
  }

  predicate RefusedBeforeOperation(problem: Problem) {
    problem.status == 503 && problem.notStarted
  }

  function Compensate(server: Server, files: map<nat, string>, creation: string, problem: Problem, env: Env): End {
    if DefiniteRefusal(problem) || RefusedBeforeOperation(problem) then End(server, files, 0, Refused(problem)) else
      var (after, confirmed) := Revoked(server, creation, env.revocation);
      End(after, files, 1, if confirmed then Compensated(problem) else Unconfirmed(creation))
  }

  /** The delivery of a token that the server issued. */
  function Delivered(server: Server, files: map<nat, string>, creation: string, origin: string, reserved: nat, id: nat,
                     token: string, env: Env): End
    requires |env.names| == 3
  {
    var fail := (files': map<nat, string>, code) => Compensate(server, files', creation, Problem(code, 0, false), env);
    if env.names[0] != Some(reserved) then fail(files, OutputReplaced) else
      var text := SecretFile.Printed(origin, token);
      var written := files[reserved := text[..Min(env.takes, |text|)]];
      if env.takes < |text| || !env.syncs then fail(written, TokenDeliveryFailed)
      else if env.names[1] != Some(reserved) then fail(written, OutputReplaced)
      else if !env.closes then fail(written, TokenDeliveryFailed)
      else if env.names[2] != Some(reserved) then fail(written, OutputReplaced)
      else End(server, written, 0, if env.prints then Success(id) else NotPrinted)
  }

  function InTimeEnd(server: Server, files: map<nat, string>, creation: string, title: string, origin: string,
                     reserved: nat, env: Env): End
    requires |env.names| == 3
  {
    var (after, reply) := Asked(server, creation, title, env.post);
    match reply
    case Failed(problem) => Compensate(after, files, creation, problem, env)
    case Replay(id, revoked) => End(after, files, 0, TokenUnavailable(id, revoked))
    case Issued(id, token) => Delivered(after, files, creation, origin, reserved, id, token, env)
  }

  /** A creation that the server handles after the command ended. */
  function Settled(end: End, creation: string, title: string, post: Post): End {
    if post.arrival.Late? && Applies(post.verdict)
    then end.(server := Added(end.server, creation, title, post)) else end
  }

  function Issue(server: Server, files: map<nat, string>, creation: string, title: string, origin: string,
                 reserved: nat, env: Env): End
    requires |env.names| == 3
  {
    Settled(InTimeEnd(server, files, creation, title, origin, reserved, env), creation, title, env.post)
  }

  /** The files by identity; the reserved one is written through its handle. */
  class Folder {
    var files: map<nat, string>

    constructor (files: map<nat, string>)
      ensures this.files == files
    {
      this.files := files;
    }

    /** reservedTokenFile.write, and the error it returns. */
    method Write(reserved: nat, text: string, takes: nat, syncs: bool) returns (failed: bool)
      modifies this
      ensures files == old(files)[reserved := text[..Min(takes, |text|)]]
      ensures failed <==> takes < |text| || !syncs
    {
      files := files[reserved := text[..Min(takes, |text|)]];
      failed := takes < |text| || !syncs;
    }
  }

  method Fail(server: Server, creation: string, problem: Problem, env: Env)
    returns (after: Server, revokes: nat, outcome: Outcome)
    ensures forall files :: Compensate(server, files, creation, problem, env) == End(after, files, revokes, outcome)
  {
    if DefiniteRefusal(problem) || RefusedBeforeOperation(problem) {
      return server, 0, Refused(problem);
    }
    var (next, confirmed) := Revoked(server, creation, env.revocation);
    return next, 1, if confirmed then Compensated(problem) else Unconfirmed(creation);
  }

  method Create(server: Server, folder: Folder, creation: string, title: string, origin: string, reserved: nat,
                env: Env)
    returns (after: Server, revokes: nat, outcome: Outcome)
    requires |env.names| == 3
    modifies folder
    ensures End(after, folder.files, revokes, outcome) ==
      InTimeEnd(server, old(folder.files), creation, title, origin, reserved, env)
  {
    var (now, reply) := Asked(server, creation, title, env.post);
    if reply.Failed? {
      after, revokes, outcome := Fail(now, creation, reply.problem, env);
      return;
    }
    if reply.Replay? {
      return now, 0, TokenUnavailable(reply.id, reply.revoked);
    }
    if env.names[0] != Some(reserved) {
      after, revokes, outcome := Fail(now, creation, Problem(OutputReplaced, 0, false), env);
      return;
    }
    var failed := folder.Write(reserved, SecretFile.Printed(origin, reply.token), env.takes, env.syncs);
    if failed {
      after, revokes, outcome := Fail(now, creation, Problem(TokenDeliveryFailed, 0, false), env);
      return;
    }
    if env.names[1] != Some(reserved) {
      after, revokes, outcome := Fail(now, creation, Problem(OutputReplaced, 0, false), env);
      return;
    }
    if !env.closes {
      after, revokes, outcome := Fail(now, creation, Problem(TokenDeliveryFailed, 0, false), env);
      return;
    }
    if env.names[2] != Some(reserved) {
      after, revokes, outcome := Fail(now, creation, Problem(OutputReplaced, 0, false), env);
      return;
    }
    return now, 0, if env.prints then Success(reply.id) else NotPrinted;
  }

  // ---------------------------------------------------------------- fresh identities

  predicate ActiveAt(server: Server, creation: string) {
    creation in server && server[creation].active
  }

  /** The token is delivered: the credential is active, and the reserved file, which the path named at
      the last check, holds exactly its token and its server. */
  ghost predicate IsDelivered(end: End, creation: string, title: string, origin: string, reserved: nat, env: Env)
    requires |env.names| == 3
  {
    && creation in end.server && end.server[creation] == Credential(env.post.id, title, env.post.token, true)
    && reserved in end.files && end.files[reserved] == SecretFile.Printed(origin, env.post.token)
    && env.names[2] == Some(reserved)
  }

  lemma CompensationEnds(server: Server, files: map<nat, string>, creation: string, problem: Problem, env: Env)
    ensures var end := Compensate(server, files, creation, problem, env);
      && end.files == files
      && (end.outcome.Refused? || end.outcome.Compensated? || end.outcome == Unconfirmed(creation))
      && (end.outcome.Refused? <==> DefiniteRefusal(problem) || RefusedBeforeOperation(problem))
      && (end.outcome.Refused? ==> end.server == server && end.revokes == 0)
      && (!end.outcome.Refused? ==> end.revokes == 1)
      && (end.outcome.Compensated? ==> !ActiveAt(end.server, creation))
      && (forall other :: other != creation ==>
            (other in end.server <==> other in server) && (other in server ==> end.server[other] == server[other]))
  {
  }

  lemma DeliveryEnds(server: Server, files: map<nat, string>, creation: string, origin: string, reserved: nat, id: nat,
                     token: string, env: Env)
    requires |env.names| == 3
    ensures var end := Delivered(server, files, creation, origin, reserved, id, token, env);
      && (end.outcome == Success(id) || end.outcome.NotPrinted? || end.outcome.Compensated?
          || end.outcome == Unconfirmed(creation))
      && (end.outcome.NotPrinted? ==> !env.prints)
      && (end.outcome.Success? || end.outcome.NotPrinted? ==>
            && end.server == server && env.names[2] == Some(reserved)
            && reserved in end.files && end.files[reserved] == SecretFile.Printed(origin, token))
      && (end.outcome.Compensated? ==> !ActiveAt(end.server, creation))
      && (end.revokes == if end.outcome.Success? || end.outcome.NotPrinted? then 0 else 1)
  {
    var text := SecretFile.Printed(origin, token);
    assert text[..|text|] == text;
    hide SecretFile.Printed, Revoked;
    CompensationEnds(server, files, creation, Problem(OutputReplaced, 0, false), env);
    CompensationEnds(server, files[reserved := text[..Min(env.takes, |text|)]], creation,
                     Problem(OutputReplaced, 0, false), env);
    CompensationEnds(server, files[reserved := text[..Min(env.takes, |text|)]], creation,
                     Problem(TokenDeliveryFailed, 0, false), env);
  }

  /** With a fresh identity and a request that is handled in time or never, every run ends with the token
      delivered; with an error and no active credential of this attempt; or unconfirmed, naming the
      identity. The one error that leaves an active credential is that of printing the result. */
  lemma FreshCreationEnds(server: Server, files: map<nat, string>, creation: string, title: string, origin: string,
                          reserved: nat, env: Env)
    requires Proper(env) && creation !in server && !env.post.arrival.Late?
    ensures var end := Issue(server, files, creation, title, origin, reserved, env);
      match end.outcome
      case Success(id) => id == env.post.id && IsDelivered(end, creation, title, origin, reserved, env)
      case NotPrinted => !env.prints && IsDelivered(end, creation, title, origin, reserved, env)
      case Refused(_) => end.server == server
      case Compensated(_) => !ActiveAt(end.server, creation)
      case Unconfirmed(named) => named == creation
      case TokenUnavailable(_, _) => false
  {
    var (after, reply) := Asked(server, creation, title, env.post);
    if reply.Failed? {
      CompensationEnds(after, files, creation, reply.problem, env);
    } else {
      DeliveryEnds(after, files, creation, origin, reserved, env.post.id, env.post.token, env);
    }
    hide SecretFile.Printed, SecretFile.IsToken, Delivered, Compensate;
  }

  /** The server issued the credential and its whole answer came back. */
  predicate IsIssued(post: Post) {
    post.arrival.InTime? && post.verdict.Decide? && post.heard.Whole? && post.reading.Plain?
  }

  /** The server's whole answer says that it did nothing. */
  predicate IsRefused(post: Post) {
    post.arrival.InTime? && post.heard.Whole? && (post.verdict.Refuse? || post.verdict.NotStarted?)
  }

  /** The file takes the whole token, is flushed and closed, and is what the path names before it is
      written, before it is closed and after that. */
  predicate IsWritten(text: string, reserved: nat, env: Env) {
    env.names == [Some(reserved), Some(reserved), Some(reserved)] && env.takes >= |text| && env.syncs && env.closes
  }

  lemma DeliveredExactly(server: Server, files: map<nat, string>, creation: string, origin: string, reserved: nat,
                         id: nat, token: string, env: Env)
    requires |env.names| == 3
    ensures var outcome := Delivered(server, files, creation, origin, reserved, id, token, env).outcome;
      var written := IsWritten(SecretFile.Printed(origin, token), reserved, env);
      && (outcome.Success? <==> written && env.prints)
      && (outcome.NotPrinted? <==> written && !env.prints)
      && (outcome.Compensated? <==> !written && env.revocation == Revocation(true, Decide, Whole))
      && (outcome.Unconfirmed? <==> !written && env.revocation != Revocation(true, Decide, Whole))
  {
    hide SecretFile.Printed;
  }

  /** Which end a fresh creation comes to: success if and only if the credential is issued, its token
      written and the result printed; a refusal if and only if the server says that it did nothing; and
      otherwise a revoke, confirmed by a whole answer of success or not. */
  lemma FreshCreationEndsExactly(server: Server, files: map<nat, string>, creation: string, title: string,
                                 origin: string, reserved: nat, env: Env)
    requires Proper(env) && creation !in server
    ensures var outcome := Issue(server, files, creation, title, origin, reserved, env).outcome;
      var written := IsWritten(SecretFile.Printed(origin, env.post.token), reserved, env);
      && (outcome.Success? <==> IsIssued(env.post) && written && env.prints)
      && (outcome.NotPrinted? <==> IsIssued(env.post) && written && !env.prints)
      && (outcome.Refused? <==> IsRefused(env.post))
      && (outcome.Compensated? ==> env.revocation == Revocation(true, Decide, Whole))
      && (outcome.Unconfirmed? ==> env.revocation != Revocation(true, Decide, Whole))
      && !outcome.TokenUnavailable?
  {
    var (after, reply) := Asked(server, creation, title, env.post);
    if reply.Issued? {
      DeliveredExactly(after, files, creation, origin, reserved, reply.id, reply.token, env);
    }
    hide SecretFile.Printed, SecretFile.IsToken, Delivered, IsWritten;
  }

  /** A fresh creation ends with an error that does not name its identity and with an active credential,
      if and only if its result is not printed and would else have been its success. */
  lemma NotPrintedExactly(server: Server, files: map<nat, string>, creation: string, title: string, origin: string,
                          reserved: nat, env: Env)
    requires Proper(env) && creation !in server && !env.post.arrival.Late?
    ensures var end := Issue(server, files, creation, title, origin, reserved, env);
      !end.outcome.Success? && !end.outcome.Unconfirmed? && ActiveAt(end.server, creation) <==>
        !env.prints && Issue(server, files, creation, title, origin, reserved, env.(prints := true)).outcome.Success?
  {
    FreshCreationEnds(server, files, creation, title, origin, reserved, env);
    FreshCreationEnds(server, files, creation, title, origin, reserved, env.(prints := true));
    PrintingIsLast(server, files, creation, title, origin, reserved, env);
    hide Issue, SecretFile.Printed, SecretFile.IsToken;
  }

  /** Two ends that are the same, but that the first is the error of the print instead of success. */
  ghost predicate DifferInPrinting(end: End, printed: End, prints: bool) {
    && (end.outcome.NotPrinted? <==> !prints && printed.outcome.Success?)
    && end == if end.outcome.NotPrinted? then printed.(outcome := NotPrinted) else printed
  }

  lemma DeliveryPrintsLast(server: Server, files: map<nat, string>, creation: string, origin: string, reserved: nat,
                           id: nat, token: string, env: Env)
    requires |env.names| == 3
    ensures DifferInPrinting(Delivered(server, files, creation, origin, reserved, id, token, env),
                             Delivered(server, files, creation, origin, reserved, id, token, env.(prints := true)),
                             env.prints)
  {
    var e := env.(prints := true);
    forall files', code
      ensures var end := Compensate(server, files', creation, Problem(code, 0, false), env);
        end == Compensate(server, files', creation, Problem(code, 0, false), e) && !end.outcome.Success?
          && !end.outcome.NotPrinted?
    {
      hide Revoked;
    }
    hide SecretFile.Printed, Revoked, Compensate;
  }

  /** Printing decides only between success and that error. */
  lemma PrintingIsLast(server: Server, files: map<nat, string>, creation: string, title: string, origin: string,
                       reserved: nat, env: Env)
    requires |env.names| == 3
    ensures DifferInPrinting(Issue(server, files, creation, title, origin, reserved, env),
                             Issue(server, files, creation, title, origin, reserved, env.(prints := true)), env.prints)
  {
    var (after, reply) := Asked(server, creation, title, env.post);
    if reply.Issued? {
      DeliveryPrintsLast(after, files, creation, origin, reserved, reply.id, reply.token, env);
    }
    hide Delivered, Asked, Revoked, Added;
  }

  /** A delivered token reads back, bound to the server that issued it, exactly when its origin is
      canonical again and the line and the file are within their limits. */
  lemma DeliveredTokenReadsBack(server: Server, files: map<nat, string>, creation: string, title: string, raw: string,
                                reserved: nat, env: Env)
    requires Proper(env) && creation !in server && !env.post.arrival.Late? && Validated(raw).Some?
    ensures var u := Validated(raw).value; var origin := Canonical(u);
      var end := Issue(server, files, creation, title, origin, reserved, env);
      end.outcome.Success? && reserved in end.files ==>
        (SecretFile.ReadToken(end.files[reserved]) == SecretFile.Ok(SecretFile.Secret(env.post.token, origin)) <==>
           && '%' !in u.host && (u.host != "" || NamedPort(u) != "")
           && |SecretFile.PREFIX| + 1 + |origin| <= SecretFile.MAXIMUM_LINE
           && |end.files[reserved]| <= SecretFile.MAXIMUM_FILE)
  {
    SecretFile.PrintedReadsBack(raw, env.post.token);
    FreshCreationEnds(server, files, creation, title, Canonical(Validated(raw).value), reserved, env);
    hide Validated, Canonical, SecretFile.Printed, SecretFile.ReadToken, SecretFile.IsToken, Issue, NamedPort;
  }

  /** A request that the server handles after the client gave up and revoked breaks this: the report
      that any credential was revoked is then wrong, and it is wrong only then. */
  lemma CompensationIsWrongWhenLate(server: Server, files: map<nat, string>, creation: string, title: string,
                                    origin: string, reserved: nat, env: Env)
    requires Proper(env) && creation !in server
    requires Issue(server, files, creation, title, origin, reserved, env).outcome.Compensated?
    ensures ActiveAt(Issue(server, files, creation, title, origin, reserved, env).server, creation) <==>
      env.post.arrival.Late? && Applies(env.post.verdict)
  {
    if !env.post.arrival.Late? {
      FreshCreationEnds(server, files, creation, title, origin, reserved, env);
    }
    hide SecretFile.Printed, SecretFile.IsToken;
  }

  /** A run whose result cannot be printed: it ends with an error and an active credential. */
  lemma SomeResultIsNotPrinted(creation: string, title: string, origin: string, token: string) returns (env: Env)
    requires SecretFile.IsToken(token)
    ensures Proper(env)
    ensures var end := Issue(map[], map[0 := ""], creation, title, origin, 0, env);
      end.outcome.NotPrinted? && ActiveAt(end.server, creation)
  {
    env := Env(Post(InTime, Decide, Whole, Plain, 1, token), [Some(0), Some(0), Some(0)],
               |SecretFile.Printed(origin, token)|, true, true, Revocation(true, Decide, Whole), false);
    hide SecretFile.Printed, SecretFile.IsToken;
  }

  /** A run whose creation is handled after its revoke: it reports that any credential was revoked, and
      the credential is active. */
  lemma SomeCreationIsLate(creation: string, title: string, origin: string, token: string) returns (env: Env)
    requires SecretFile.IsToken(token)
    ensures Proper(env) && env.post.arrival.Late?
    ensures var end := Issue(map[], map[0 := ""], creation, title, origin, 0, env);
      end.outcome.Compensated? && ActiveAt(end.server, creation)
  {
    env := Env(Post(Late, Decide, Whole, Plain, 1, token), [Some(0), Some(0), Some(0)], 0, true, true,
               Revocation(true, Decide, Whole), true);
    hide SecretFile.Printed, SecretFile.IsToken;
  }

  // ---------------------------------------------------------------- what stays

  /** Both maps hold the same under every other key. */
  ghost predicate SameBut<K(!new), V>(key: K, before: map<K, V>, after: map<K, V>) {
    forall other :: other != key ==>
      (other in after <==> other in before) && (other in before ==> after[other] == before[other])
  }

  lemma DeliveryKeepsOthers(server: Server, files: map<nat, string>, creation: string, origin: string, reserved: nat,
                            id: nat, token: string, env: Env)
    requires |env.names| == 3
    ensures var end := Delivered(server, files, creation, origin, reserved, id, token, env);
      SameBut(creation, server, end.server) && end.revokes <= 1 && (end.revokes == 0 ==> end.server == server)
  {
    hide SecretFile.Printed;
  }

  /** In every run no other credential changes, and without a revoke none that was there. */
  lemma OtherCredentialsStay(server: Server, files: map<nat, string>, creation: string, title: string, origin: string,
                             reserved: nat, env: Env)
    requires |env.names| == 3
    ensures var end := Issue(server, files, creation, title, origin, reserved, env);
      && SameBut(creation, server, end.server)
      && end.revokes <= 1
      && (end.revokes == 0 && creation in server ==> creation in end.server && end.server[creation] == server[creation])
  {
    var (after, reply) := Asked(server, creation, title, env.post);
    assert SameBut(creation, server, after) && (creation in server ==> after == server);
    if reply.Issued? {
      DeliveryKeepsOthers(after, files, creation, origin, reserved, reply.id, reply.token, env);
    }
    hide SecretFile.Printed, Asked, Delivered;
  }

  /** In every run no file but the reserved one changes, so a replacement of the path is left alone. */
  lemma OtherFilesStay(server: Server, files: map<nat, string>, creation: string, title: string, origin: string,
                       reserved: nat, env: Env)
    requires |env.names| == 3
    ensures SameBut(reserved, files, Issue(server, files, creation, title, origin, reserved, env).files)
  {
    hide SecretFile.Printed, Asked;
  }

  /** A revoke is sent only by a failure that is neither a definite refusal nor a refusal before the
      operation, and every such failure sends one. */
  lemma RevokesOnlyUncertainFailures(server: Server, files: map<nat, string>, creation: string, title: string,
                                     origin: string, reserved: nat, env: Env)
    requires Proper(env)
    ensures var end := Issue(server, files, creation, title, origin, reserved, env);
      var reply := Asked(server, creation, title, env.post).1;
      && (end.revokes == 1 <==> end.outcome.Compensated? || end.outcome.Unconfirmed?)
      && (reply.Failed? ==>
          (end.revokes == 0 <==> DefiniteRefusal(reply.problem) || RefusedBeforeOperation(reply.problem)))
      && (!reply.Failed? ==>
          (end.revokes == 0 <==> end.outcome.Success? || end.outcome.NotPrinted? || end.outcome.TokenUnavailable?))
  {
    var (after, reply) := Asked(server, creation, title, env.post);
    if reply.Failed? {
      CompensationEnds(after, files, creation, reply.problem, env);
    } else if reply.Issued? {
      DeliveryEnds(after, files, creation, origin, reserved, reply.id, reply.token, env);
    }
    hide SecretFile.Printed, SecretFile.IsToken, Asked, Delivered, Compensate;
  }

  /** A replay never revokes: the server stays as it is, and the report names the credential and
      whether it is revoked. */
  lemma ReplayNeverRevokes(server: Server, files: map<nat, string>, creation: string, title: string, origin: string,
                           reserved: nat, env: Env)
    requires Proper(env)
    ensures var end := Issue(server, files, creation, title, origin, reserved, env);
      end.outcome.TokenUnavailable? <==>
        && env.post.arrival.InTime? && env.post.verdict.Decide? && env.post.heard.Whole? && env.post.reading.Plain?
        && creation in server && server[creation].title == title
    ensures var end := Issue(server, files, creation, title, origin, reserved, env);
      end.outcome.TokenUnavailable? ==>
        && end.server == server && end.files == files && end.revokes == 0
        && creation in server && end.outcome == TokenUnavailable(server[creation].id, !server[creation].active)
  {
    hide SecretFile.Printed, SecretFile.IsToken;
  }

  // ---------------------------------------------------------------- chosen identities

  /** The answer to the creation is missing, unusable, or a failure that does not say that nothing was done. */
  predicate Uncertain(server: Server, creation: string, title: string, post: Post)
    requires creation in server
  {
    || !post.arrival.InTime? || !post.heard.Whole?
    || post.verdict.Break?
    || (post.verdict.Decide? && server[creation].title == title && !post.reading.Plain?)
  }

  /** With a chosen identity that already names an active credential, the compensation revokes that older
      credential exactly when the answer to the creation is uncertain and the server does the revoke. */
  lemma OlderIsRevoked(server: Server, files: map<nat, string>, creation: string, title: string, origin: string,
                       reserved: nat, env: Env)
    requires Proper(env) && ActiveAt(server, creation)
    ensures !ActiveAt(Issue(server, files, creation, title, origin, reserved, env).server, creation) <==>
      Uncertain(server, creation, title, env.post) && Revokes(env.revocation)
  {
    hide SecretFile.Printed, SecretFile.IsToken;
  }

  /** One such run: the answer to a replay is lost, and the owner's working credential is revoked. */
  lemma OlderCanBeRevoked(creation: string, title: string, origin: string, token: string)
    returns (server: Server, env: Env)
    requires SecretFile.IsToken(token)
    ensures Proper(env) && ActiveAt(server, creation) && server[creation].title == title
    ensures !ActiveAt(Issue(server, map[0 := ""], creation, title, origin, 0, env).server, creation)
  {
    server := map[creation := Credential(1, title, token, true)];
    env := Env(Post(InTime, Decide, Lost, Plain, 2, token), [Some(0), Some(0), Some(0)], 0, true, true,
      Revocation(true, Decide, Whole), true);
    OlderIsRevoked(server, map[0 := ""], creation, title, origin, 0, env);
  }
}
