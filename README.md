# In-memory mail server: stores, sessions and dispatcher

This project models the core of a small store-and-forward mail server written in Python
(`servidor.py`). Clients connect over TCP, register, log in, send messages to other
registered users and later pull and clear their own mailbox. The server keeps all of its
state in two process-wide dictionaries:

- `users` is the credential store. It maps a username to a display name (`nome`) and a bcrypt hash (`senha`).
- `emails` is the mailbox store. It maps a username to its pending emails in delivery order.

Each connection has its own session, the local `client_username`, which is either anonymous or one username.

The model has four parts:

- `Mail` (`mail.dfy`) gives the stores as a value (`Stores`) and the four locked operations as functions:
  - `Register` is `register_user`.
  - `Authenticate` is `authenticate_user`.
  - `Deliver` is `send_email`.
  - `Drain` is `get_emails`.

  It also holds the store invariant `Stores.Valid` and the lemmas that relate several operations. `Valid` says that a mailbox exists exactly for each registered user, that usernames and display names are non-empty, and that every pending email is addressed to its mailbox's owner under its sender's registered name.
- `Dispatcher` (`dispatcher.dfy`) has:
  - `Step`: one iteration of the request loop of `handle_client`, taking request, session and stores to a reply, a new session and new stores, or to the connection closing;
  - `Run`: the whole loop over one connection's requests;
  - the lemmas of the session state machine.
- `Server` (`server.dfy`) is the imperative form. Class `MailServer` holds the fields `users` and `emails`, and its methods update them in place. Each method is proved to have exactly the effect of its `Mail` function.
- `Connection` (`connection.dfy`) has `Dispatch`, the branch on `operation`, and `HandleClient`, the `while` loop that keeps `client_username`. Both are proved against `Step` and `Run`.

`Scenario` (`scenario.dfy`) replays the Alice/Bob exchange on the stores. `Text` (`text.dfy`) renders the count in the `"N e-mails recebidos"` reply. `Wrappers` (`wrappers.dfy`) holds `Option`.

Environment inputs are parameters:

- The password hash is a `Hasher` value, a pair `hash(salt, password)` and `check(password, stored)`. `Hasher.Sound` states the ideal-hash property where a lemma needs it.
- Each request comes with an `Env` holding the salt and the formatted current time.
- A request is its decoded field map. `Request.Get` is `request.get`, and a missing field is `None`.

Two behaviours of the code worth noting:

- A login with a registered username and no `senha` field makes `senha.encode` raise (servidor.py:122). The exception ends the request loop (servidor.py:93-97), so the connection closes without a reply (`Login.Raised`, `Outcome.Closed`).
- Stored and returned emails carry a `destinatario` field (servidor.py:138).

## Model

| member | source | states |
|---|---|---|
| Mail.Register | servidor.py:99-113 | succeeds iff `nome`, `username` and `senha` are all present and non-empty (`Mail.Blank` is Python's `not x`) and `username` is new; on failure the stores are unchanged; missing fields give the "all fields required" error, a taken username with all fields filled gives "user already exists", and success gives "registered"; on success exactly that username is added, with the display name and `hash(salt, senha)`, plus an empty mailbox; other users and mailboxes are kept; the store invariant is preserved |
| Mail.RegisterTwiceFails | servidor.py:102-106 | after a successful registration, any further registration of the same username fails and leaves the stores unchanged, and with `nome` and `senha` filled in the reply is "user already exists" |
| Mail.Authenticate | servidor.py:115-127 | grants iff the username is registered, a password is given and `check` accepts it against the stored hash, and then returns the stored display name; a registered username without a password raises; reads the stores only |
| Mail.AuthenticateAfterRegister | servidor.py:108-124 | with an ideal hash, right after registering `(nome, u, pw)`, logging in as `u` with `guess` is granted with `nome` exactly when `guess == pw`, and refused otherwise |
| Mail.AuthenticateStable | servidor.py:118-124 | the answer to a login depends only on the user's record, so it is the same in every later state that kept that record |
| Mail.Deliver | servidor.py:129-147 | succeeds iff the recipient is registered, replying "e-mail sent"; on failure nothing changes and the reply is "recipient does not exist"; on success exactly one email, the `Mail.Compose` of servidor.py:135-142, is appended at the end of the recipient's mailbox, carrying the sender's registered display name and the given subject, body and time; users and every other mailbox are unchanged; the invariant is preserved |
| Mail.Drain | servidor.py:149-161 | returns the whole mailbox in delivery order and leaves it empty; a username with no mailbox gets an empty list and no change; the reply reports the count of returned emails; users and other mailboxes are unchanged |
| Mail.DrainTwiceEmpty | servidor.py:155-161 | an immediately repeated drain returns no emails and reports zero |
| Mail.DeliverAll | servidor.py:132-144 | a serialized run of deliveries to one recipient keeps the invariant and the users, and leaves every other mailbox unchanged |
| Mail.DeliverAllAppends | servidor.py:135-144 | mailboxes are FIFO: a run of deliveries appends exactly the composed emails, in the order they were sent |
| Mail.DeliveriesThenDrain | servidor.py:135-161 | from an empty mailbox, one drain after any serialized run of deliveries returns exactly those emails in order, one per submission, and a second drain returns none |
| Text.NatToString | servidor.py:161 | the count in the retrieval reply is a non-empty string of decimal digits without a leading zero |
| Text.ParseNatToString | servidor.py:161 | the count printed in the retrieval reply reads back as the number of emails |
| Dispatcher.Step | servidor.py:55-89 | reads the request with `Dispatcher.Request.Get` (`request.get`), tests the session with `Dispatcher.SignedIn` (the truthiness of `client_username`) and attaches the drained list with `Dispatcher.WithEmails` (servidor.py:83); keeps the store invariant and keeps the session anonymous or registered, so `users[remetente]` is always defined; never changes or removes an existing user; closes the connection iff the request is a login that raises; only `register`, `send_email` and `receive_emails` can change the stores; only `login` and `logout` can change the session |
| Dispatcher.Run | servidor.py:49-91 | over a whole connection the store invariant holds and registered users are kept; at most one reply per request |
| Dispatcher.RunStopsOnlyOnRaisingLogin | servidor.py:49-97 | every request gets its reply unless the connection closes, and it closes only at a `login` request with no `senha` |
| Dispatcher.AnonymousIsRefused | servidor.py:74-85 | `send_email` or `receive_emails` without a session gets "user not authenticated", and the session and stores are unchanged |
| Dispatcher.LoginSetsSessionOnSuccess | servidor.py:66-72 | a login that authenticates replies with the display name and sets the session to the requested username, replacing any earlier one; a refused login replies "invalid credentials" and keeps the session and stores; a raising login closes the connection |
| Dispatcher.CheckConnectionAnswers | servidor.py:60-61 | `check_connection` always replies success with "service available" and changes neither the session nor the stores |
| Dispatcher.LogoutClears | servidor.py:87-89 | `logout` always clears the session, replies success and leaves the stores alone |
| Dispatcher.UnknownOperationIsHarmless | servidor.py:56-89 | an operation name outside the six known ones gets "unknown operation", with session and stores unchanged |
| Dispatcher.SendUsesSessionUser | servidor.py:74-76 | a signed-in `send_email` is exactly one delivery whose sender is the session's username |
| Dispatcher.ReceiveUsesSessionUser | servidor.py:80-83 | a signed-in `receive_emails` drains exactly the session user's mailbox and replies with the drain's reply plus the drained list; the session is kept |
| Dispatcher.RegisterKeepsSession | servidor.py:63-64 | `register` is exactly `Register` on the request's `nome`, `username` and `senha`, whatever the session, and leaves the session as it was |
| Dispatcher.StepExtendsMailbox | servidor.py:55-89 | any step from any connection other than the owner's own `receive_emails` keeps a mailbox's pending emails as a prefix of its new contents, so interleaved registrations, other deliveries and other drains never reorder or drop a user's mail |
| Dispatcher.OtherStepKeepsSession | servidor.py:74-76 | a step by one connection keeps every other connection's session anonymous or registered, so `users[remetente]` stays defined when connections interleave |
| Server.MailServer.constructor | servidor.py:9-10 | a started server has empty `users` and `emails` and satisfies the invariant |
| Server.MailServer.RegisterUser | servidor.py:99-113 | updates `users` and `emails` in place exactly as `Mail.Register` and keeps the invariant |
| Server.MailServer.AuthenticateUser | servidor.py:115-127 | returns exactly `Mail.Authenticate` of the current stores and modifies nothing |
| Server.MailServer.SendEmail | servidor.py:129-147 | appends in place exactly as `Mail.Deliver` and keeps the invariant |
| Server.MailServer.GetEmails | servidor.py:149-161 | returns the list and reply of `Mail.Drain` and resets the mailbox in place, keeping the invariant |
| Connection.Dispatch | servidor.py:55-89 | one iteration of the request loop on the live server has exactly the reply, new session and new stores of `Step`, or closes the connection with the stores untouched |
| Connection.HandleClient | servidor.py:45-97 | the connection loop, starting anonymous, writes exactly the replies of `Run` and leaves the stores `Run` computes; the session stays anonymous or registered throughout |
| Scenario.Registrations | servidor.py:99-113 | registering "Alice A"/alice and "Bob B"/bob on a fresh server succeeds twice and leaves two accounts with empty mailboxes |
| Scenario.AliceWritesToBob | servidor.py:115-161 | for any hash under which a password passes the check against its own hash, both logins return the registered names; Alice's email to Bob is delivered; Bob's first fetch returns exactly that email under "Alice A", and his second fetch returns none |

## Left out

- Socket I/O is not modelled: accepting, `recv`/`send` and the single-read framing. A connection is the sequence of its decoded requests, and its end of stream is the end of that sequence.
- JSON encoding and decoding are not modelled. A request that fails to decode closes the connection in the source; the model starts from decoded requests.
- A request that decodes to a JSON value other than an object, such as `[]`, makes `request.get` raise and closes the connection (servidor.py:55). Such requests are outside the model: `Dispatcher.Request` is always a field map.
- Strings are sequences of Unicode scalar values. A JSON escape can give a Python string holding a lone surrogate. Encoding such a `senha` as UTF-8 raises in `register_user` (servidor.py:16, called at 108) and in `authenticate_user` (servidor.py:122). A logging `print` of such a value can raise too (servidor.py:58, 112, 123, 126, 146). At 112 and 146 that happens after the stores were already changed. Each of these exceptions closes the connection. The model cannot express these strings: its `Register` always replies, and its `Authenticate` raises only on a missing `senha`.
- Field values that are not strings are not modelled: numbers, lists and objects. An explicit JSON `null` is the same as a missing field, `None`.
- `start_server`, `stop_server` and the `__main__` block are not modelled. They are listener, bootstrap and thread spawning. The `running` flag that could stop the request loop is also left out.
- Threads and the `lock` are not modelled. Each store operation runs under the single lock, so it is one atomic step. Concurrent senders are modelled as one serialized sequence of deliveries (`Mail.DeliverAll`).
- bcrypt is an external library. It is the `Hasher` parameter, because its per-password random salt makes the real hash nondeterministic. `Hasher.hash` and `Hasher.check` never raise. A bcrypt version that raises on passwords longer than 72 bytes would make `hash_password` (servidor.py:16, called at 108) raise during `register` too, closing the connection with the stores unchanged, where the model's `Register` replies success.
- Mail.AuthenticateAfterRegister: assumes an ideal hash (`Hasher.Sound`), in which only the registered password passes the check. This does not hold for a bcrypt that compares only the first 72 bytes of a password, under which longer passwords sharing that prefix also pass. Nor does it hold for a bcrypt version that raises on passwords longer than 72 bytes, which would close the connection instead. The source pins no bcrypt version. `Scenario.AliceWritesToBob` needs only `Hasher.AcceptsOwn`, that a password passes the check against its own hash, which a truncating bcrypt also meets.
- `datetime.now().strftime(...)` is not modelled. The formatted time is the `now` field of `Env`.
- Logging `print` calls and the catch-all `except` that logs and closes the connection are not modelled, apart from the one exception the core itself can raise.
- `cliente.py` is not part of this model. It is an interactive menu over the same protocol.
