/**
 * The per-connection session and the request dispatcher of the connection handler, as
 * functions: one request, the connection's session and the stores go in; one reply (or
 * the closing of the connection), the new session and the new stores come out.
 */
module Dispatcher {
  import opened Wrappers
  import opened Mail

  /** A decoded request object; every field the dispatcher reads is a string when present. */
  datatype Request = Request(fields: map<string, string>) {
    /** `request.get(key)`. */
    function Get(key: string): Option<string> {
      if key in fields then Some(fields[key]) else None
    }
  }

  /** What the environment supplies to a step: the bcrypt salt and the formatted current time. */
  datatype Env = Env(salt: string, now: string)

  const ServiceAvailable := "Serviço Disponível"
  const LoginOk := "Login realizado com sucesso"
  const BadCredentials := "Credenciais inválidas"
  const NotAuthenticated := "Usuário não autenticado"
  const LogoutOk := "Logout realizado com sucesso"
  const UnknownOperation := "Operação desconhecida"

  /** The session (`client_username`) is anonymous or names a registered user. */
  ghost predicate SessionOk(s: Stores, session: Option<string>) {
    session.None? || session.value in s.users
  }

  /** Python's truthiness of `client_username`. */
  predicate SignedIn(session: Option<string>) {
    session.Some? && session.value != ""
  }

  /** The result of one step: a reply with the new session and stores, or the connection closes. */
  datatype Outcome = Replied(response: Response, session: Option<string>, stores: Stores) | Closed

  /** The reply to a successful `receive_emails`: the drain's reply with the drained list attached. */
  function WithEmails(d: Retrieval): Response {
    d.response.(emails := Some(d.emails))
  }

  /** One iteration of the request loop of `handle_client` after the request is decoded. */
  function Step(s: Stores, h: Hasher, session: Option<string>, req: Request, env: Env): (r: Outcome)
    requires s.Valid() && SessionOk(s, session)
    ensures r.Replied? ==> r.stores.Valid() && SessionOk(r.stores, r.session) && UsersKept(s, r.stores)
    ensures r.Closed? <==> req.Get("operation") == Some("login")
                           && Authenticate(s, h, req.Get("username"), req.Get("senha")).Raised?
    ensures r.Replied? && r.stores != s ==> req.Get("operation") in {Some("register"), Some("send_email"), Some("receive_emails")}
    ensures r.Replied? && r.session != session ==> req.Get("operation") in {Some("login"), Some("logout")}
  {
    var op := req.Get("operation");
    if op == Some("check_connection") then
      Replied(Reply(Success, ServiceAvailable), session, s)
    else if op == Some("register") then
      var u := Register(s, h, req.Get("nome"), req.Get("username"), req.Get("senha"), env.salt);
      Replied(u.response, session, u.stores)
    else if op == Some("login") then
      match Authenticate(s, h, req.Get("username"), req.Get("senha"))
      case Granted(nome) => Replied(Response(Success, LoginOk, Some(nome), None), req.Get("username"), s)
      case Denied => Replied(Reply(Error, BadCredentials), session, s)
      case Raised => Closed
    else if op == Some("send_email") then
      if SignedIn(session) then
        var u := Deliver(s, session.value, req.Get("destinatario"), req.Get("assunto"), req.Get("corpo"), env.now);
        Replied(u.response, session, u.stores)
      else
        Replied(Reply(Error, NotAuthenticated), session, s)
    else if op == Some("receive_emails") then
      if SignedIn(session) then
        var d := Drain(s, session.value);
        Replied(WithEmails(d), session, d.stores)
      else
        Replied(Reply(Error, NotAuthenticated), session, s)
    else if op == Some("logout") then
      Replied(Reply(Success, LogoutOk), None, s)
    else
      Replied(Reply(Error, UnknownOperation), session, s)
  }

  /** The replies a connection has written and the stores after it. */
  datatype Transcript = Transcript(responses: seq<Response>, stores: Stores)

  /** `prefix` written ahead of the transcript `t`. */
  function Prepend(prefix: seq<Response>, t: Transcript): Transcript {
    Transcript(prefix + t.responses, t.stores)
  }

  /**
   * The whole request loop of one connection: one reply per request, in order, until the
   * requests run out (end of stream) or a step closes the connection.
   */
  function Run(s: Stores, h: Hasher, session: Option<string>, reqs: seq<Request>, envs: seq<Env>): (r: Transcript)
    requires s.Valid() && SessionOk(s, session) && |envs| == |reqs|
    ensures r.stores.Valid() && UsersKept(s, r.stores)
    ensures |r.responses| <= |reqs|
    decreases |reqs|
  {
    if reqs == [] then Transcript([], s)
    else
      match Step(s, h, session, reqs[0], envs[0])
      case Closed => Transcript([], s)
      case Replied(response, session', s') => Prepend([response], Run(s', h, session', reqs[1..], envs[1..]))
  }

  /** A suffix of the requests whose first step replies: that reply, then the rest of the run. */
  lemma RunReplies(s: Stores, h: Hasher, session: Option<string>, reqs: seq<Request>, envs: seq<Env>, i: nat,
                   response: Response, session': Option<string>, s': Stores)
    requires s.Valid() && SessionOk(s, session) && |envs| == |reqs| && i < |reqs|
    requires Step(s, h, session, reqs[i], envs[i]) == Replied(response, session', s')
    ensures s'.Valid() && SessionOk(s', session')
    ensures Run(s, h, session, reqs[i..], envs[i..]) == Prepend([response], Run(s', h, session', reqs[i + 1..], envs[i + 1..]))
  {
    assert reqs[i..][0] == reqs[i] && envs[i..][0] == envs[i];
    assert reqs[i..][1..] == reqs[i + 1..] && envs[i..][1..] == envs[i + 1..];
  }

  /** A suffix of the requests whose first step closes the connection: nothing more is written. */
  lemma RunCloses(s: Stores, h: Hasher, session: Option<string>, reqs: seq<Request>, envs: seq<Env>, i: nat)
    requires s.Valid() && SessionOk(s, session) && |envs| == |reqs| && i < |reqs|
    requires Step(s, h, session, reqs[i], envs[i]) == Closed
    ensures Run(s, h, session, reqs[i..], envs[i..]) == Transcript([], s)
  {
    assert reqs[i..][0] == reqs[i] && envs[i..][0] == envs[i];
  }

  /**
   * A connection stops short of its requests only where a login raises: the first request
   * left without a reply is a `login` that carries no `senha`.
   */
  lemma {:induction false} RunStopsOnlyOnRaisingLogin(s: Stores, h: Hasher, session: Option<string>, reqs: seq<Request>, envs: seq<Env>)
    requires s.Valid() && SessionOk(s, session) && |envs| == |reqs|
    ensures var r := Run(s, h, session, reqs, envs);
            |r.responses| < |reqs| ==>
              reqs[|r.responses|].Get("operation") == Some("login") && reqs[|r.responses|].Get("senha").None?
    decreases |reqs|
  {
    if reqs != [] {
      var o := Step(s, h, session, reqs[0], envs[0]);
      if o.Closed? {
        assert Run(s, h, session, reqs, envs).responses == [];
      } else {
        var rest := Run(o.stores, h, o.session, reqs[1..], envs[1..]);
        assert Run(s, h, session, reqs, envs).responses == [o.response] + rest.responses;
        RunStopsOnlyOnRaisingLogin(o.stores, h, o.session, reqs[1..], envs[1..]);
        var k := |rest.responses|;
        if k < |reqs[1..]| {
          assert reqs[1..][k] == reqs[1 + k];
        }
      }
    }
  }

  // ---------------------------------------------------------------------------------------
  // Properties of the session state machine

  /** `send_email` and `receive_emails` without a session: the generic refusal, nothing mutated. */
  lemma AnonymousIsRefused(s: Stores, h: Hasher, req: Request, env: Env)
    requires s.Valid()
    requires req.Get("operation") in {Some("send_email"), Some("receive_emails")}
    ensures Step(s, h, None, req, env) == Replied(Reply(Error, NotAuthenticated), None, s)
  {
  }

  /**
   * `login` changes the session exactly when authentication succeeds, and then binds it to
   * the requested username; a refused login keeps the previous session and the stores.
   */
  lemma LoginSetsSessionOnSuccess(s: Stores, h: Hasher, session: Option<string>, req: Request, env: Env)
    requires s.Valid() && SessionOk(s, session)
    requires req.Get("operation") == Some("login")
    ensures var r := Step(s, h, session, req, env);
            match Authenticate(s, h, req.Get("username"), req.Get("senha"))
            case Granted(nome) => r == Replied(Response(Success, LoginOk, Some(nome), None), req.Get("username"), s)
            case Denied => r == Replied(Reply(Error, BadCredentials), session, s)
            case Raised => r == Closed
  {
  }

  /** `check_connection` always answers that the service is available and changes nothing. */
  lemma CheckConnectionAnswers(s: Stores, h: Hasher, session: Option<string>, req: Request, env: Env)
    requires s.Valid() && SessionOk(s, session)
    requires req.Get("operation") == Some("check_connection")
    ensures Step(s, h, session, req, env) == Replied(Reply(Success, ServiceAvailable), session, s)
  {
  }

  /** `logout` always clears the session and touches no store. */
  lemma LogoutClears(s: Stores, h: Hasher, session: Option<string>, req: Request, env: Env)
    requires s.Valid() && SessionOk(s, session)
    requires req.Get("operation") == Some("logout")
    ensures Step(s, h, session, req, env) == Replied(Reply(Success, LogoutOk), None, s)
  {
  }

  /** An operation name the dispatcher does not know gets the generic error and no mutation. */
  lemma UnknownOperationIsHarmless(s: Stores, h: Hasher, session: Option<string>, req: Request, env: Env)
    requires s.Valid() && SessionOk(s, session)
    requires req.Get("operation") !in {Some("check_connection"), Some("register"), Some("login"),
                                       Some("send_email"), Some("receive_emails"), Some("logout")}
    ensures Step(s, h, session, req, env) == Replied(Reply(Error, UnknownOperation), session, s)
  {
  }

  /**
   * A signed-in `send_email` is exactly one delivery from the session's user: the sender
   * (whose record `users[remetente]` is therefore defined) is the session's username.
   */
  lemma SendUsesSessionUser(s: Stores, h: Hasher, u: string, req: Request, env: Env)
    requires s.Valid() && u in s.users
    requires req.Get("operation") == Some("send_email")
    ensures var d := Deliver(s, u, req.Get("destinatario"), req.Get("assunto"), req.Get("corpo"), env.now);
            Step(s, h, Some(u), req, env) == Replied(d.response, Some(u), d.stores)
  {
  }

  /** A signed-in `receive_emails` drains the session user's own mailbox and attaches the list. */
  lemma ReceiveUsesSessionUser(s: Stores, h: Hasher, u: string, req: Request, env: Env)
    requires s.Valid() && u in s.users
    requires req.Get("operation") == Some("receive_emails")
    ensures Step(s, h, Some(u), req, env) == Replied(WithEmails(Drain(s, u)), Some(u), Drain(s, u).stores)
  {
  }

  /** `register` is `Register` on the request's fields and the environment's salt, whatever the session. */
  lemma RegisterKeepsSession(s: Stores, h: Hasher, session: Option<string>, req: Request, env: Env)
    requires s.Valid() && SessionOk(s, session)
    requires req.Get("operation") == Some("register")
    ensures var u := Register(s, h, req.Get("nome"), req.Get("username"), req.Get("senha"), env.salt);
            Step(s, h, session, req, env) == Replied(u.response, session, u.stores)
  {
  }

  /**
   * Mailboxes only grow, except by their owner's drain: any step other than `d`'s own
   * `receive_emails`, from any connection, leaves `d`'s pending emails as a prefix of its
   * new mailbox. So FIFO order survives the registrations, other deliveries and other
   * drains that interleave with deliveries to `d`.
   */
  lemma StepExtendsMailbox(s: Stores, h: Hasher, session: Option<string>, req: Request, env: Env, d: string)
    requires s.Valid() && SessionOk(s, session) && d in s.users
    requires !(req.Get("operation") == Some("receive_emails") && session == Some(d))
    ensures var r := Step(s, h, session, req, env);
            r.Replied? ==> d in r.stores.emails && s.emails[d] <= r.stores.emails[d]
  {
  }

  /**
   * A step of one connection keeps every other connection's session valid: the guarantee
   * that the session names a registered user holds when the requests of several
   * connections interleave.
   */
  lemma OtherStepKeepsSession(s: Stores, h: Hasher, mine: Option<string>, theirs: Option<string>, req: Request, env: Env)
    requires s.Valid() && SessionOk(s, mine) && SessionOk(s, theirs)
    ensures var r := Step(s, h, theirs, req, env);
            r.Replied? ==> SessionOk(r.stores, mine)
  {
  }
}
