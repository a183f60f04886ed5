/**
 * The two process-wide stores of the mail server, as values: the credential store
 * `users` (username -> display name and password hash) and the mailbox store `emails`
 * (username -> pending messages in delivery order), with the four operations that the
 * server runs on them, each one atomic step under the server lock.
 */
module Mail {
  import opened Wrappers
  import Text

  /** A registered account: display name (`nome`) and stored password hash (`senha`). */
  datatype User = User(nome: string, senha: string)

  /** One delivered message, with the fields the server stores for it. */
  datatype Email = Email(
    remetente: string,
    remetenteNome: string,
    destinatario: string,
    dataHora: string,
    assunto: Option<string>,
    corpo: Option<string>)

  datatype Status = Success | Error

  /** A reply object: status, message, and the optional `nome` and `emails` payloads. */
  datatype Response = Response(status: Status, message: string, nome: Option<string>, emails: Option<seq<Email>>)

  function Reply(status: Status, message: string): Response {
    Response(status, message, None, None)
  }

  const MissingFields := "Todos os campos são obrigatórios"
  const UserExists := "Nome de usuário já existe"
  const Registered := "Usuário registrado com sucesso"
  const UnknownRecipient := "Destinatário Inexistente"
  const Sent := "E-mail enviado com sucesso"
  const ReceivedSuffix := " e-mails recebidos"

  /**
   * The salted password hash, as a pair of functions supplied by the environment:
   * `hash(salt, password)` produces the stored string, `check(password, stored)` tests a guess.
   */
  datatype Hasher = Hasher(hash: (string, string) -> string, check: (string, string) -> bool) {
    /** An ideal hash: a guess passes the check exactly when it is the hashed password. */
    ghost predicate Sound() {
      forall salt, pw, guess :: check(guess, hash(salt, pw)) <==> guess == pw
    }

    /** The weaker property every working hash has: a password passes the check against its own hash. */
    ghost predicate AcceptsOwn() {
      forall salt, pw :: check(pw, hash(salt, pw))
    }
  }

  datatype Stores = Stores(users: map<string, User>, emails: map<string, seq<Email>>) {

    /** `e` sits rightly in `u`'s mailbox: addressed to `u`, from a registered sender, under that sender's name. */
    ghost predicate Delivered(e: Email, u: string) {
      e.destinatario == u && e.remetente in users && e.remetenteNome == users[e.remetente].nome
    }

    /**
     * The store invariant: a mailbox exists exactly for each registered username, every
     * username and display name is non-empty, and every pending email is well addressed.
     */
    ghost predicate Valid() {
      && users.Keys == emails.Keys
      && (forall u | u in users :: u != "" && users[u].nome != "")
      && (forall u, i | u in emails && 0 <= i < |emails[u]| :: Delivered(emails[u][i], u))
    }
  }

  /** The process starts with no users and no mailboxes. */
  const Initial := Stores(map[], map[])

  /** Python's `not x` on a request field: absent or empty. */
  predicate Blank(f: Option<string>) {
    f.None? || f.value == ""
  }

  /** The reply of a store operation together with the stores after it. */
  datatype Update = Update(response: Response, stores: Stores)

  /** True when every user registered in `s` is still registered in `t` with the same record. */
  ghost predicate UsersKept(s: Stores, t: Stores) {
    forall u | u in s.users :: u in t.users && t.users[u] == s.users[u]
  }

  /** `register_user`: create an account and its empty mailbox. */
  function Register(s: Stores, h: Hasher, nome: Option<string>, username: Option<string>, senha: Option<string>, salt: string): (r: Update)
    ensures r.response.status == Success <==>
              !Blank(nome) && !Blank(username) && !Blank(senha) && username.value !in s.users
    ensures r.response.status == Error ==> r.stores == s
    ensures Blank(nome) || Blank(username) || Blank(senha) ==> r.response == Reply(Error, MissingFields)
    ensures !Blank(nome) && !Blank(username) && !Blank(senha) && username.value in s.users ==> r.response == Reply(Error, UserExists)
    ensures r.response.status == Success ==> r.response == Reply(Success, Registered)
    ensures r.response.status == Success ==>
              && r.stores.users.Keys == s.users.Keys + {username.value}
              && r.stores.users[username.value] == User(nome.value, h.hash(salt, senha.value))
              && username.value in r.stores.emails && r.stores.emails[username.value] == []
    ensures UsersKept(s, r.stores)
    ensures forall u | u in s.emails && Some(u) != username :: u in r.stores.emails && r.stores.emails[u] == s.emails[u]
    ensures s.Valid() ==> r.stores.Valid()
  {
    if Blank(username) || Blank(nome) || Blank(senha) then
      Update(Reply(Error, MissingFields), s)
    else if username.value in s.users then
      Update(Reply(Error, UserExists), s)
    else
      var u := username.value;
      var t := Stores(s.users[u := User(nome.value, h.hash(salt, senha.value))], s.emails[u := []]);
      assert s.Valid() ==> forall v, i | v in t.emails && 0 <= i < |t.emails[v]| :: t.Delivered(t.emails[v][i], v) by {
        if s.Valid() {
          forall v, i | v in t.emails && 0 <= i < |t.emails[v]| ensures t.Delivered(t.emails[v][i], v) {
            assert v != u && s.Delivered(s.emails[v][i], v);
          }
        }
      }
      Update(Reply(Success, Registered), t)
  }

  /** The outcome of `authenticate_user`: `(True, nome)`, `(False, None)`, or an exception. */
  datatype Login = Granted(nome: string) | Denied | Raised

  /**
   * `authenticate_user`. An unknown username is refused before the password is looked at;
   * a known username without a password makes `senha.encode` raise.
   */
  function Authenticate(s: Stores, h: Hasher, username: Option<string>, senha: Option<string>): (r: Login)
    ensures r.Granted? <==>
              username.Some? && username.value in s.users && senha.Some? && h.check(senha.value, s.users[username.value].senha)
    ensures r.Granted? ==> r.nome == s.users[username.value].nome
    ensures r.Raised? <==> username.Some? && username.value in s.users && senha.None?
  {
    if username.None? || username.value !in s.users then Denied
    else if senha.None? then Raised
    else
      var stored := s.users[username.value];
      if h.check(senha.value, stored.senha) then Granted(stored.nome) else Denied
  }

  /** The email that `send_email` builds: the sender's registered name is looked up in `users`. */
  function Compose(users: map<string, User>, remetente: string, destinatario: string, dataHora: string, assunto: Option<string>, corpo: Option<string>): Email
    requires remetente in users
  {
    Email(remetente, users[remetente].nome, destinatario, dataHora, assunto, corpo)
  }

  /** `send_email`: append one email to the end of the recipient's mailbox. */
  function Deliver(s: Stores, remetente: string, destinatario: Option<string>, assunto: Option<string>, corpo: Option<string>, dataHora: string): (r: Update)
    requires s.Valid() && remetente in s.users
    ensures r.response.status == Success <==> destinatario.Some? && destinatario.value in s.users
    ensures r.response.status == Error ==> r.stores == s && r.response == Reply(Error, UnknownRecipient)
    ensures r.response.status == Success ==> r.response == Reply(Success, Sent)
    ensures r.response.status == Success ==>
              destinatario.value in r.stores.emails &&
              r.stores.emails[destinatario.value]
                == s.emails[destinatario.value] + [Compose(s.users, remetente, destinatario.value, dataHora, assunto, corpo)]
    ensures r.stores.users == s.users && r.stores.emails.Keys == s.emails.Keys
    ensures forall u | u in s.emails && Some(u) != destinatario :: r.stores.emails[u] == s.emails[u]
    ensures r.stores.Valid()
  {
    if destinatario.None? || destinatario.value !in s.users then
      Update(Reply(Error, UnknownRecipient), s)
    else
      var d := destinatario.value;
      var e := Compose(s.users, remetente, d, dataHora, assunto, corpo);
      var t := Stores(s.users, s.emails[d := s.emails[d] + [e]]);
      assert forall v, i | v in t.emails && 0 <= i < |t.emails[v]| :: t.Delivered(t.emails[v][i], v) by {
        forall v, i | v in t.emails && 0 <= i < |t.emails[v]| ensures t.Delivered(t.emails[v][i], v) {
          if v != d || i < |s.emails[d]| {
            assert s.Delivered(s.emails[v][i], v);
          }
        }
      }
      Update(Reply(Success, Sent), t)
  }

  /** The outcome of `get_emails`: the list handed out, the reply, and the stores after it. */
  datatype Retrieval = Retrieval(emails: seq<Email>, response: Response, stores: Stores)

  /** `get_emails`: read the whole mailbox and empty it in the same step. */
  function Drain(s: Stores, username: string): (r: Retrieval)
    ensures username in s.emails ==> r.emails == s.emails[username] && r.stores.emails == s.emails[username := []]
    ensures username !in s.emails ==> r.emails == [] && r.stores == s
    ensures r.stores.users == s.users && r.stores.emails.Keys == s.emails.Keys
    ensures username in r.stores.emails ==> r.stores.emails[username] == []
    ensures r.response == Reply(Success, Text.NatToString(|r.emails|) + ReceivedSuffix)
    ensures s.Valid() ==> r.stores.Valid()
  {
    if username !in s.emails then
      Retrieval([], Reply(Success, "0" + ReceivedSuffix), s)
    else
      var list := s.emails[username];
      var count := |list|;
      Retrieval(list, Reply(Success, Text.NatToString(count) + ReceivedSuffix), Stores(s.users, s.emails[username := []]))
  }

  // ---------------------------------------------------------------------------------------
  // Properties relating several operations

  /**
   * Once a username is registered, every later registration of it fails and changes nothing;
   * with all fields filled in, the refusal is the "user exists" reply.
   */
  lemma RegisterTwiceFails(s: Stores, h: Hasher, nome: Option<string>, username: Option<string>, senha: Option<string>, salt: string,
                           nome': Option<string>, senha': Option<string>, salt': string)
    requires Register(s, h, nome, username, senha, salt).response.status == Success
    ensures var t := Register(s, h, nome, username, senha, salt).stores;
            Register(t, h, nome', username, senha', salt').response.status == Error
            && Register(t, h, nome', username, senha', salt').stores == t
    ensures var t := Register(s, h, nome, username, senha, salt).stores;
            !Blank(nome') && !Blank(senha') ==> Register(t, h, nome', username, senha', salt').response == Reply(Error, UserExists)
  {
  }

  /**
   * With an ideal hash, right after registering `username` with password `pw`, a login
   * attempt with `guess` succeeds exactly when `guess == pw`, and then yields the registered name.
   */
  lemma AuthenticateAfterRegister(s: Stores, h: Hasher, nome: string, username: string, pw: string, salt: string, guess: string)
    requires h.Sound()
    requires Register(s, h, Some(nome), Some(username), Some(pw), salt).response.status == Success
    ensures var t := Register(s, h, Some(nome), Some(username), Some(pw), salt).stores;
            Authenticate(t, h, Some(username), Some(guess)) == (if guess == pw then Granted(nome) else Denied)
  {
  }

  /**
   * Authentication depends only on the user's record, so it gives the same answer in any
   * later state that kept the record (users are never updated or removed).
   */
  lemma AuthenticateStable(s: Stores, t: Stores, h: Hasher, username: Option<string>, senha: Option<string>)
    requires UsersKept(s, t)
    requires username.Some? && username.value in s.users
    ensures Authenticate(t, h, username, senha) == Authenticate(s, h, username, senha)
  {
  }

  /** Draining is consuming: an immediately repeated drain returns nothing and reports zero. */
  lemma DrainTwiceEmpty(s: Stores, username: string)
    ensures var t := Drain(s, username).stores;
            Drain(t, username).emails == [] && Drain(t, username).response == Reply(Success, "0" + ReceivedSuffix)
  {
  }

  /** One message submitted to the server: who sends it, what it says and when. */
  datatype Submission = Submission(remetente: string, assunto: Option<string>, corpo: Option<string>, dataHora: string)

  ghost predicate SendersRegistered(users: map<string, User>, subs: seq<Submission>) {
    forall i | 0 <= i < |subs| :: subs[i].remetente in users
  }

  /** The emails that the submissions `subs` become once delivered to `destinatario`, in order. */
  function Composed(users: map<string, User>, destinatario: string, subs: seq<Submission>): (es: seq<Email>)
    requires SendersRegistered(users, subs)
    ensures |es| == |subs|
  {
    if subs == [] then []
    else
      [Compose(users, subs[0].remetente, destinatario, subs[0].dataHora, subs[0].assunto, subs[0].corpo)]
        + Composed(users, destinatario, subs[1..])
  }

  /**
   * The server delivering `subs` to one recipient, one locked `send_email` after another,
   * in the order the senders acquired the lock.
   */
  function DeliverAll(s: Stores, destinatario: string, subs: seq<Submission>): (r: Stores)
    requires s.Valid() && SendersRegistered(s.users, subs)
    ensures r.Valid() && r.users == s.users && r.emails.Keys == s.emails.Keys
    ensures forall u | u in s.emails && u != destinatario :: r.emails[u] == s.emails[u]
    decreases |subs|
  {
    if subs == [] then s
    else
      var step := Deliver(s, subs[0].remetente, Some(destinatario), subs[0].assunto, subs[0].corpo, subs[0].dataHora);
      DeliverAll(step.stores, destinatario, subs[1..])
  }

  /** Mailboxes are FIFO: a run of deliveries appends exactly those emails, in delivery order. */
  lemma {:induction false} DeliverAllAppends(s: Stores, destinatario: string, subs: seq<Submission>)
    requires s.Valid() && SendersRegistered(s.users, subs) && destinatario in s.users
    ensures DeliverAll(s, destinatario, subs).emails[destinatario]
              == s.emails[destinatario] + Composed(s.users, destinatario, subs)
    decreases |subs|
  {
    if subs != [] {
      var step := Deliver(s, subs[0].remetente, Some(destinatario), subs[0].assunto, subs[0].corpo, subs[0].dataHora);
      var first := Compose(s.users, subs[0].remetente, destinatario, subs[0].dataHora, subs[0].assunto, subs[0].corpo);
      DeliverAllAppends(step.stores, destinatario, subs[1..]);
      assert step.stores.emails[destinatario] == s.emails[destinatario] + [first];
      assert Composed(s.users, destinatario, subs) == [first] + Composed(s.users, destinatario, subs[1..]);
      assert (s.emails[destinatario] + [first]) + Composed(s.users, destinatario, subs[1..])
          == s.emails[destinatario] + ([first] + Composed(s.users, destinatario, subs[1..]));
    }
  }

  /**
   * Exactly-once retrieval: after any serialized run of deliveries to a recipient whose
   * mailbox was empty, one drain returns exactly those emails in order (nothing lost,
   * nothing duplicated), and a second drain returns none.
   */
  lemma DeliveriesThenDrain(s: Stores, destinatario: string, subs: seq<Submission>)
    requires s.Valid() && SendersRegistered(s.users, subs) && destinatario in s.users
    requires s.emails[destinatario] == []
    ensures var first := Drain(DeliverAll(s, destinatario, subs), destinatario);
            && first.emails == Composed(s.users, destinatario, subs)
            && |first.emails| == |subs|
            && Drain(first.stores, destinatario).emails == []
  {
    DeliverAllAppends(s, destinatario, subs);
  }
}
