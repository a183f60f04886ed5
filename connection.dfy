/**
 * The connection handler `handle_client`: a loop over the decoded requests of one
 * connection, keeping the session `client_username` in a local variable and running
 * each operation against the shared server object.
 */
module Connection {
  import opened Wrappers
  import opened Mail
  import opened Dispatcher
  import Server

  /** The body of one iteration of the request loop; `reply` is None when the connection closes. */
  method Dispatch(server: Server.MailServer, session: Option<string>, req: Request, env: Env)
    returns (reply: Option<Response>, next: Option<string>)
    requires server.Valid() && SessionOk(server.State(), session)
    modifies server
    ensures server.Valid() && SessionOk(server.State(), next)
    ensures Step(old(server.State()), server.hasher, session, req, env)
              == if reply.None? then Closed else Replied(reply.value, next, server.State())
    ensures reply.None? ==> server.State() == old(server.State())
  {
    var operation := req.Get("operation");
    next := session;
    if operation == Some("check_connection") {
      reply := Some(Reply(Success, ServiceAvailable));
    } else if operation == Some("register") {
      var response := server.RegisterUser(req.Get("nome"), req.Get("username"), req.Get("senha"), env.salt);
      reply := Some(response);
    } else if operation == Some("login") {
      var result := server.AuthenticateUser(req.Get("username"), req.Get("senha"));
      match result
      case Granted(nome) =>
        next := req.Get("username");
        reply := Some(Response(Success, LoginOk, Some(nome), None));
      case Denied =>
        reply := Some(Reply(Error, BadCredentials));
      case Raised =>
        reply := None;
    } else if operation == Some("send_email") {
      if SignedIn(session) {
        var response := server.SendEmail(session.value, req.Get("destinatario"), req.Get("assunto"), req.Get("corpo"), env.now);
        reply := Some(response);
      } else {
        reply := Some(Reply(Error, NotAuthenticated));
      }
    } else if operation == Some("receive_emails") {
      if SignedIn(session) {
        var list, response := server.GetEmails(session.value);
        reply := Some(response.(emails := Some(list)));
      } else {
        reply := Some(Reply(Error, NotAuthenticated));
      }
    } else if operation == Some("logout") {
      next := None;
      reply := Some(Reply(Success, LogoutOk));
    } else {
      reply := Some(Reply(Error, UnknownOperation));
    }
  }

  /**
   * `handle_client` on the requests its connection delivers, in order: the session starts
   * anonymous, each request gets exactly one reply, and the loop stops at the end of the
   * stream or when a step closes the connection. The replies and the final stores are
   * those of `Run`.
   */
  method HandleClient(server: Server.MailServer, requests: seq<Request>, envs: seq<Env>) returns (responses: seq<Response>)
    requires server.Valid() && |envs| == |requests|
    modifies server
    ensures server.Valid()
    ensures Run(old(server.State()), server.hasher, None, requests, envs) == Transcript(responses, server.State())
  {
    var clientUsername: Option<string> := None;
    responses := [];
    var i := 0;
    while i < |requests|
      invariant i <= |requests|
      invariant server.Valid() && SessionOk(server.State(), clientUsername)
      invariant Run(old(server.State()), server.hasher, None, requests, envs)
                  == Prepend(responses, Run(server.State(), server.hasher, clientUsername, requests[i..], envs[i..]))
    {
      ghost var before := server.State();
      var reply, next := Dispatch(server, clientUsername, requests[i], envs[i]);
      if reply.None? {
        RunCloses(before, server.hasher, clientUsername, requests, envs, i);
        break;
      }
      RunReplies(before, server.hasher, clientUsername, requests, envs, i, reply.value, next, server.State());
      responses := responses + [reply.value];
      clientUsername := next;
      i := i + 1;
    }
  }
}
