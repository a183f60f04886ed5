/**
 * The server's global state as an object: the dictionaries `users` and `emails`, updated
 * in place by the four store operations. Each method is one critical section under the
 * server lock and is proved to have exactly the effect of its counterpart in `Mail`.
 */
module Server {
  import opened Wrappers
  import opened Mail
  import Text

  class MailServer {
    var users: map<string, User>
    var emails: map<string, seq<Email>>
    /** The password hash the server was started with. */
    const hasher: Hasher

    /** The two stores as a value. */
    function State(): Stores
      reads this
    {
      Stores(users, emails)
    }

    ghost predicate Valid()
      reads this
    {
      State().Valid()
    }

    /** A freshly started server keeps no users and no mailboxes. */
    constructor (hasher: Hasher)
      ensures Valid() && State() == Initial && this.hasher == hasher
    {
      users := map[];
      emails := map[];
      this.hasher := hasher;
    }

    /** `register_user`. */
    method RegisterUser(nome: Option<string>, username: Option<string>, senha: Option<string>, salt: string) returns (response: Response)
      requires Valid()
      modifies this
      ensures Valid()
      ensures Update(response, State()) == Register(old(State()), hasher, nome, username, senha, salt)
    {
      if Blank(username) || Blank(nome) || Blank(senha) {
        return Reply(Error, MissingFields);
      }
      if username.value in users {
        return Reply(Error, UserExists);
      }
      var hashed := hasher.hash(salt, senha.value);
      users := users[username.value := User(nome.value, hashed)];
      emails := emails[username.value := []];
      response := Reply(Success, Registered);
    }

    /** `authenticate_user`: reads the credential store and changes nothing. */
    method AuthenticateUser(username: Option<string>, senha: Option<string>) returns (result: Login)
      ensures result == Authenticate(State(), hasher, username, senha)
    {
      if username.None? || username.value !in users {
        return Denied;
      }
      var stored := users[username.value];
      if senha.None? {
        return Raised;
      }
      if hasher.check(senha.value, stored.senha) {
        return Granted(stored.nome);
      }
      return Denied;
    }

    /** `send_email`: the caller's session guarantees that `remetente` is registered. */
    method SendEmail(remetente: string, destinatario: Option<string>, assunto: Option<string>, corpo: Option<string>, dataHora: string)
      returns (response: Response)
      requires Valid() && remetente in users
      modifies this
      ensures Valid()
      ensures Update(response, State()) == Deliver(old(State()), remetente, destinatario, assunto, corpo, dataHora)
    {
      if destinatario.None? || destinatario.value !in users {
        return Reply(Error, UnknownRecipient);
      }
      var email := Email(remetente, users[remetente].nome, destinatario.value, dataHora, assunto, corpo);
      emails := emails[destinatario.value := emails[destinatario.value] + [email]];
      response := Reply(Success, Sent);
    }

    /** `get_emails`: hand out the mailbox and reset it to empty. */
    method GetEmails(username: string) returns (list: seq<Email>, response: Response)
      requires Valid()
      modifies this
      ensures Valid()
      ensures Retrieval(list, response, State()) == Drain(old(State()), username)
    {
      if username !in emails {
        return [], Reply(Success, "0" + ReceivedSuffix);
      }
      list := emails[username];
      var count := |list|;
      emails := emails[username := []];
      response := Reply(Success, Text.NatToString(count) + ReceivedSuffix);
    }
  }
}
