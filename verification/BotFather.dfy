/**
 The BotFather conversation: pending steps, bot creation and token revocation over whole runs.

 Replies are kinds of reply with the values they show. Secrets, and case folding outside ASCII, are
 arguments. Other operations on accounts run in between, as do other users' conversations.
 */
module BotFather {
  import opened Prelude
  import opened BotText
  import Messaging

  datatype Account = Account(username: string, isBot: bool, owner: int, token: string, name: string)

  /** The step a user's conversation waits at; a pending username carries the draft name. */
  datatype Pending = Idle | NewBotName | NewBotUsername(draft: string) | RevokeSelect

  datatype State = State(userSeq: nat, users: map<int, Account>, pending: map<int, Pending>)

  /** Case mappings of characters outside ASCII. */
  datatype Casing = Casing(lower: char -> char, fold: char -> char)

  datatype Reply =
    | Intro | AskName | AskUsername | AskRevoke | Cancelled | NothingToDo | NoBots | BadName | NotUnderstood
    | BadUsername | UsernameTaken | NotYours
    | BotList(bots: seq<(string, string)>)
    | Created(username: string, token: string)
    | Revoked(username: string, token: string)

  const START := State(0, map[Messaging.BOT_FATHER_ID := Account("BotFather", true, 0, "", "BotFather")], map[])

  function PendingOf(s: State, u: int): Pending {
    if u in s.pending then s.pending[u] else Idle
  }

  function WaitFor(s: State, u: int, p: Pending): State {
    s.(pending := s.pending[u := p])
  }

  function Clear(s: State, u: int): State {
    s.(pending := s.pending - {u})
  }

  /** The ids among 1..n of the accounts owned by `owner`, oldest first. */
  function OwnedUpTo(users: map<int, Account>, owner: int, n: nat): (ids: seq<nat>)
    ensures forall id :: id in ids <==> 1 <= id <= n && id in users && users[id].owner == owner
    ensures forall i, j | 0 <= i < j < |ids| :: ids[i] < ids[j]
  {
    if n == 0 then []
    else
      var init := OwnedUpTo(users, owner, n - 1);
      assert forall i | 0 <= i < |init| :: init[i] in init;
      init + if n in users && users[n].owner == owner then [n] else []
  }

  /** No user id is greater. */
  function LastId(s: State): nat {
    if s.userSeq < Messaging.BOT_FATHER_ID then Messaging.BOT_FATHER_ID else s.userSeq
  }

  function Owned(s: State, owner: int): seq<nat> {
    OwnedUpTo(s.users, owner, LastId(s))
  }

  ghost predicate UsernameInUse(s: State, username: string) {
    exists u :: u in s.users && s.users[u].username == username
  }

  /** The first of the listed accounts whose username equals the text under case folding. */
  function FirstNamed(users: map<int, Account>, fold: char -> char, ids: seq<nat>,
      username: string): (first: Option<nat>)
    requires forall id | id in ids :: id in users
    requires forall i, j | 0 <= i < j < |ids| :: ids[i] < ids[j]
    ensures first.Some? ==> first.value in ids && EqualFold(fold, users[first.value].username, username)
    ensures first.Some? ==> forall v | v in ids && v < first.value :: !EqualFold(fold, users[v].username, username)
    ensures first.None? ==> forall id | id in ids :: !EqualFold(fold, users[id].username, username)
  {
    if ids == [] then None
    else
      assert ids == [ids[0]] + ids[1..];
      assert forall v | v in ids[1..] :: ids[0] < v;
      if EqualFold(fold, users[ids[0]].username, username) then Some(ids[0])
      else FirstNamed(users, fold, ids[1..], username)
  }

  function ListOf(users: map<int, Account>, ids: seq<nat>): seq<(string, string)>
    requires forall id | id in ids :: id in users
  {
    seq(|ids|, i requires 0 <= i < |ids| => (users[ids[i]].username, users[ids[i]].token))
  }

  // --- the engine --------------------------------------------------------------------------

  function AddOwnedBot(s: State, owner: int, username: string, name: string, secret: string): State {
    var id := s.userSeq + 1;
    s.(userSeq := id, users := s.users[id := Account(username, true, owner, TokenOf(id, secret), name)])
  }

  ghost function Command(s: State, u: int, cmd: string): (State, Reply) {
    if cmd == "/start" || cmd == "/help" then (s, Intro)
    else if cmd == "/newbot" then (WaitFor(s, u, NewBotName), AskName)
    else if cmd == "/mybots" || cmd == "/token" then
      (s, if Owned(s, u) == [] then NoBots else BotList(ListOf(s.users, Owned(s, u))))
    else if cmd == "/revoke" then
      (if Owned(s, u) == [] then (s, NoBots) else (WaitFor(s, u, RevokeSelect), AskRevoke))
    else if cmd == "/cancel" then
      (if PendingOf(s, u).Idle? then (s, NothingToDo) else (Clear(s, u), Cancelled))
    else (s, NotUnderstood)
  }

  function SetName(s: State, u: int, name: string): (State, Reply) {
    if !ValidBotName(name) then (s, BadName) else (WaitFor(s, u, NewBotUsername(name)), AskUsername)
  }

  ghost function CreateBot(s: State, u: int, name: string, text: string, secret: string): (State, Reply) {
    var username := TrimAt(text);
    if !AcceptableUsername(username) then (s, BadUsername)
    else if UsernameInUse(s, username) then (s, UsernameTaken)
    else
      var t := AddOwnedBot(s, u, username, name, secret);
      (Clear(t, u), Created(username, t.users[t.userSeq].token))
  }

  function Revoke(fold: char -> char, s: State, u: int, text: string, secret: string): (State, Reply) {
    match FirstNamed(s.users, fold, Owned(s, u), TrimAt(text))
    case None => (s, NotYours)
    case Some(id) =>
      var token := TokenOf(id, secret);
      var t := if s.users[id].isBot then s.(users := s.users[id := s.users[id].(token := token)]) else s;
      (Clear(t, u), Revoked(s.users[id].username, token))
  }

  /** What one message to BotFather does and answers. */
  ghost function Engine(c: Casing, s: State, u: int, text: string, secret: string): (State, Reply) {
    var t := TrimSpace(text);
    match BotCommand(c.lower, t)
    case Some(cmd) => Command(s, u, cmd)
    case None =>
      match PendingOf(s, u)
      case Idle => (s, NotUnderstood)
      case NewBotName => SetName(s, u, t)
      case NewBotUsername(draft) => CreateBot(s, u, draft, t, secret)
      case RevokeSelect => Revoke(c.fold, s, u, t, secret)
  }

  // --- runs --------------------------------------------------------------------------------------

  /** A message to BotFather, or another operation on accounts. */
  datatype Op =
    | Say(user: int, text: string, secret: string)
    | AddUser(name: string)
    | AddBot(token: string, username: string, name: string)
    | Rename(user: int, username: string)

  ghost predicate TokenInUse(s: State, token: string) {
    exists u :: u in s.users && s.users[u].token == token
  }

  function AddAccount(s: State, a: Account): State {
    s.(userSeq := s.userSeq + 1, users := s.users[s.userSeq + 1 := a])
  }

  /** Users talk for themselves, and ids do not reach the built-in account's. */
  predicate Enabled(s: State, op: Op) {
    match op
    case Say(u, _, _) => u >= 1 && s.userSeq + 1 != Messaging.BOT_FATHER_ID
    case Rename(_, _) => true
    case _ => s.userSeq + 1 != Messaging.BOT_FATHER_ID
  }

  ghost function Step(c: Casing, s: State, op: Op): State {
    match op
    case Say(u, text, secret) => Engine(c, s, u, text, secret).0
    case AddUser(name) => AddAccount(s, Account("", false, 0, "", name))
    case AddBot(token, username, name) =>
      if (token != "" && TokenInUse(s, token)) || (username != "" && UsernameInUse(s, username)) then s
      else AddAccount(s, Account(username, true, 0, token, name))
    case Rename(u, username) =>
      if u !in s.users || (username != "" && exists v :: v in s.users && v != u && s.users[v].username == username)
          then s
      else s.(users := s.users[u := s.users[u].(username := username)])
  }

  ghost function Run(c: Casing, s: State, ops: seq<Op>): State {
    if ops == [] then s else Step(c, Run(c, s, ops[..|ops| - 1]), ops[|ops| - 1])
  }

  ghost predicate Legal(c: Casing, s: State, ops: seq<Op>) {
    forall n | 0 <= n < |ops| :: Enabled(Run(c, s, ops[..n]), ops[n])
  }

  lemma LegalPrefix(c: Casing, s: State, ops: seq<Op>, n: nat)
    requires Legal(c, s, ops) && n <= |ops|
    ensures Legal(c, s, ops[..n])
  {
    assert forall m | 0 <= m < n :: ops[..n][..m] == ops[..m];
  }

  // --- the invariant ------------------------------------------------------------------------------

  predicate IdsOk(s: State) {
    && Messaging.BOT_FATHER_ID in s.users
    && s.users[Messaging.BOT_FATHER_ID].owner == 0
    && forall u | u in s.users :: 1 <= u <= s.userSeq || u == Messaging.BOT_FATHER_ID
  }

  /** A pending username step remembers an acceptable name. */
  predicate DraftsOk(s: State) {
    forall u | u in s.pending && s.pending[u].NewBotUsername? :: ValidBotName(s.pending[u].draft)
  }

  predicate UsernamesOk(s: State) {
    forall u, v | u in s.users && v in s.users && u != v && s.users[u].username != "" ::
      s.users[u].username != s.users[v].username
  }

  ghost predicate HasOwnToken(s: State, u: int)
    requires u in s.users
  {
    u >= 0 && s.users[u].isBot && MadeFor(s.users[u].token, u)
  }

  ghost predicate MadeFor(token: string, id: nat) {
    exists secret :: token == TokenOf(id, secret)
  }

  ghost predicate TokensOk(s: State) {
    forall u | u in s.users && s.users[u].owner != 0 :: HasOwnToken(s, u)
  }

  ghost predicate Inv(s: State) {
    IdsOk(s) && DraftsOk(s) && UsernamesOk(s) && TokensOk(s)
  }

  lemma WaitKeeps(s: State, u: int, p: Pending)
    requires Inv(s) && (p.NewBotUsername? ==> ValidBotName(p.draft))
    ensures Inv(WaitFor(s, u, p))
  {
    forall v | v in s.users && s.users[v].owner != 0 ensures HasOwnToken(WaitFor(s, u, p), v) {
      assert HasOwnToken(s, v);
    }
  }

  lemma ClearKeeps(s: State, u: int)
    requires Inv(s)
    ensures Inv(Clear(s, u)) && PendingOf(Clear(s, u), u) == Idle
  {
    forall v | v in s.users && s.users[v].owner != 0 ensures HasOwnToken(Clear(s, u), v) {
      assert HasOwnToken(s, v);
    }
  }

  /** A fresh account with a free username, and its own token if it is owned, keeps the invariant. */
  lemma AddKeeps(s: State, a: Account)
    requires Inv(s) && s.userSeq + 1 != Messaging.BOT_FATHER_ID
    requires a.username == "" || !UsernameInUse(s, a.username)
    requires a.owner != 0 ==> a.isBot && MadeFor(a.token, s.userSeq + 1)
    ensures Inv(AddAccount(s, a)) && s.userSeq + 1 !in s.users
  {
    var t := AddAccount(s, a);
    forall v | v in t.users && t.users[v].owner != 0 ensures HasOwnToken(t, v) {
      if v != s.userSeq + 1 {
        assert HasOwnToken(s, v);
      }
    }
  }

  lemma RevokeKeeps(c: Casing, s: State, u: int, text: string, secret: string)
    requires Inv(s) && u >= 1
    ensures Inv(Revoke(c.fold, s, u, text, secret).0)
  {
    var found := FirstNamed(s.users, c.fold, Owned(s, u), TrimAt(text));
    if found.Some? {
      var id := found.value;
      assert HasOwnToken(s, id);
      var t := s.(users := s.users[id := s.users[id].(token := TokenOf(id, secret))]);
      forall v | v in t.users && t.users[v].owner != 0 ensures HasOwnToken(t, v) {
        if v != id {
          assert HasOwnToken(s, v);
        }
      }
      ClearKeeps(t, u);
    }
  }

  lemma EngineKeeps(c: Casing, s: State, u: int, text: string, secret: string)
    requires Inv(s) && u >= 1 && s.userSeq + 1 != Messaging.BOT_FATHER_ID
    ensures Inv(Engine(c, s, u, text, secret).0)
  {
    var t := TrimSpace(text);
    match BotCommand(c.lower, t)
    case Some(cmd) =>
      WaitKeeps(s, u, NewBotName);
      WaitKeeps(s, u, RevokeSelect);
      ClearKeeps(s, u);
    case None =>
      match PendingOf(s, u)
      case Idle =>
      case NewBotName =>
        if ValidBotName(t) {
          WaitKeeps(s, u, NewBotUsername(t));
        }
      case NewBotUsername(draft) => CreateKeeps(s, u, draft, t, secret);
      case RevokeSelect => RevokeKeeps(c, s, u, t, secret);
  }

  lemma CreateKeeps(s: State, u: int, name: string, text: string, secret: string)
    requires Inv(s) && u >= 1 && s.userSeq + 1 != Messaging.BOT_FATHER_ID
    ensures Inv(CreateBot(s, u, name, text, secret).0)
  {
    var username := TrimAt(text);
    if AcceptableUsername(username) && !UsernameInUse(s, username) {
      AddKeeps(s, Account(username, true, u, TokenOf(s.userSeq + 1, secret), name));
      ClearKeeps(AddOwnedBot(s, u, username, name, secret), u);
    }
  }

  lemma StepKeeps(c: Casing, s: State, op: Op)
    requires Inv(s) && Enabled(s, op)
    ensures Inv(Step(c, s, op))
  {
    match op
    case Say(u, text, secret) => EngineKeeps(c, s, u, text, secret);
    case AddUser(name) => AddKeeps(s, Account("", false, 0, "", name));
    case AddBot(token, username, name) =>
      if !(token != "" && TokenInUse(s, token)) && !(username != "" && UsernameInUse(s, username)) {
        AddKeeps(s, Account(username, true, 0, token, name));
      }
    case Rename(u, username) => RenameKeeps(c, s, u, username);
  }

  lemma RenameKeeps(c: Casing, s: State, u: int, username: string)
    requires Inv(s)
    ensures Inv(Step(c, s, Rename(u, username)))
  {
    var t := Step(c, s, Rename(u, username));
    forall v | v in t.users && t.users[v].owner != 0 ensures HasOwnToken(t, v) {
      assert HasOwnToken(s, v);
    }
  }

  lemma {:induction false} RunKeeps(c: Casing, s: State, ops: seq<Op>)
    requires Inv(s) && Legal(c, s, ops)
    ensures Inv(Run(c, s, ops))
  {
    if ops != [] {
      var n := |ops| - 1;
      LegalPrefix(c, s, ops, n);
      RunKeeps(c, s, ops[..n]);
      StepKeeps(c, Run(c, s, ops[..n]), ops[n]);
    }
  }

  // --- what every run guarantees --------------------------------------------------------------

  /** The state after some run from the start. */
  ghost predicate Reached(c: Casing, s: State) {
    exists ops :: Legal(c, START, ops) && Run(c, START, ops) == s
  }

  lemma ReachedInv(c: Casing, s: State)
    requires Reached(c, s)
    ensures Inv(s)
  {
    var ops :| Legal(c, START, ops) && Run(c, START, ops) == s;
    RunKeeps(c, START, ops);
  }

  /** Every owned bot's token names the bot, so no two of them share a token, revoked or not. */
  lemma TokensIdentifyBots(c: Casing, s: State, a: int, b: int)
    requires Reached(c, s)
    requires a in s.users && b in s.users && s.users[a].owner != 0 && s.users[b].owner != 0
    ensures BotIdOf(s.users[a].token) == a
    ensures s.users[a].token == s.users[b].token ==> a == b
  {
    ReachedInv(c, s);
    assert HasOwnToken(s, a) && HasOwnToken(s, b);
    var f :| s.users[a].token == TokenOf(a, f);
    var g :| s.users[b].token == TokenOf(b, g);
    TokenNamesItsBot(a, f);
    TokenNamesItsBot(b, g);
  }

  /** The account is a bot with this token, as a login by token looks for it. */
  predicate HoldsToken(s: State, u: int, token: string) {
    u in s.users && s.users[u].isBot && s.users[u].token == token
  }

  /**
   A login with an owned bot's token can only reach that bot exactly when no imported bot holds the
   token: the other holders, if any, are bots nobody owns.
   */
  lemma TokenReachesItsBotIff(c: Casing, s: State, a: int)
    requires Reached(c, s) && a in s.users && s.users[a].owner != 0
    ensures HoldsToken(s, a, s.users[a].token)
    ensures (forall u | HoldsToken(s, u, s.users[a].token) :: u == a) <==>
            !exists v :: HoldsToken(s, v, s.users[a].token) && s.users[v].owner == 0
  {
    ReachedInv(c, s);
    assert HasOwnToken(s, a);
    forall u | HoldsToken(s, u, s.users[a].token) && s.users[u].owner != 0 ensures u == a {
      TokensIdentifyBots(c, s, u, a);
    }
  }

  /** No two bots without an owner share a token. */
  predicate ImportedApart(s: State) {
    forall u, v | u in s.users && v in s.users && s.users[u].owner == 0 && s.users[v].owner == 0 ::
      s.users[u].token == s.users[v].token != "" ==> u == v
  }

  /** Talking to BotFather changes owned accounts only. */
  lemma EngineKeepsImported(c: Casing, s: State, u: int, text: string, secret: string, v: int)
    requires Inv(s) && u >= 1 && s.userSeq + 1 != Messaging.BOT_FATHER_ID
    ensures var t := Engine(c, s, u, text, secret).0;
            v in t.users && t.users[v].owner == 0 ==> v in s.users && s.users[v] == t.users[v]
  {
    var t := TrimSpace(text);
    if BotCommand(c.lower, t).None? && PendingOf(s, u).RevokeSelect? {
      RevokeKeepsImported(c, s, u, t, secret, v);
    }
  }

  lemma RevokeKeepsImported(c: Casing, s: State, u: int, text: string, secret: string, v: int)
    requires Inv(s) && u >= 1
    ensures var t := Revoke(c.fold, s, u, text, secret).0;
            v in t.users && t.users[v].owner == 0 ==> v in s.users && s.users[v] == t.users[v]
  {
  }

  lemma StepImported(c: Casing, s: State, op: Op)
    requires Inv(s) && Enabled(s, op) && ImportedApart(s)
    ensures ImportedApart(Step(c, s, op))
  {
    var t := Step(c, s, op);
    if op.Say? {
      forall v | v in t.users && t.users[v].owner == 0 ensures v in s.users && s.users[v] == t.users[v] {
        EngineKeepsImported(c, s, op.user, op.text, op.secret, v);
      }
    }
  }

  lemma {:induction false} RunImported(c: Casing, ops: seq<Op>)
    requires Legal(c, START, ops)
    ensures Inv(Run(c, START, ops)) && ImportedApart(Run(c, START, ops))
  {
    if ops != [] {
      var n := |ops| - 1;
      LegalPrefix(c, START, ops, n);
      RunImported(c, ops[..n]);
      StepKeeps(c, Run(c, START, ops[..n]), ops[n]);
      StepImported(c, Run(c, START, ops[..n]), ops[n]);
    }
  }

  /** Over every run, a token is held by at most one imported bot. */
  lemma ImportedTokensDiffer(c: Casing, s: State, u: int, v: int)
    requires Reached(c, s) && u in s.users && v in s.users && s.users[u].owner == 0 && s.users[v].owner == 0
    ensures s.users[u].token == s.users[v].token != "" ==> u == v
  {
    var ops :| Legal(c, START, ops) && Run(c, START, ops) == s;
    RunImported(c, ops);
  }

  /** A pending username step carries an acceptable name; no username belongs to two accounts. */
  lemma DraftsAndUsernames(c: Casing, s: State, u: int, v: int)
    requires Reached(c, s)
    ensures PendingOf(s, u).NewBotUsername? ==>
              var name := PendingOf(s, u).draft;
              name != "" && |Utf8All(name)| <= 64 && name[0] != '/'
    ensures u in s.users && v in s.users && s.users[u].username == s.users[v].username != "" ==> u == v
  {
    ReachedInv(c, s);
    if PendingOf(s, u).NewBotUsername? {
      Utf8LengthIs(PendingOf(s, u).draft);
    }
  }

  /**
   An owned account that appears in a step of a run was made by its owner's message answering the
   username question, with an acceptable, free username, the accepted draft name and its own token.
   */
  lemma CreatedBotsAreSound(c: Casing, s: State, op: Op, id: int)
    requires Reached(c, s) && Enabled(s, op)
    requires id !in s.users && id in Step(c, s, op).users && Step(c, s, op).users[id].owner != 0
    ensures var t := Step(c, s, op);
            var a := t.users[id];
            && op.Say? && a.owner == op.user && a.isBot
            && AcceptableUsername(a.username) && !UsernameInUse(s, a.username)
            && PendingOf(s, op.user) == NewBotUsername(a.name) && ValidBotName(a.name)
            && id >= 0 && a.token == TokenOf(id, op.secret)
            && PendingOf(t, op.user) == Idle
  {
    ReachedInv(c, s);
    CreationIsSound(c, s, op, id);
  }

  lemma CreationIsSound(c: Casing, s: State, op: Op, id: int)
    requires Inv(s) && Enabled(s, op)
    requires id !in s.users && id in Step(c, s, op).users && Step(c, s, op).users[id].owner != 0
    ensures op.Say? && PendingOf(s, op.user).NewBotUsername? && ValidBotName(PendingOf(s, op.user).draft)
    ensures var username := TrimAt(TrimSpace(op.text));
            && AcceptableUsername(username) && !UsernameInUse(s, username) && id == s.userSeq + 1
            && Step(c, s, op) == Clear(AddOwnedBot(s, op.user, username, PendingOf(s, op.user).draft, op.secret),
                op.user)
  {
  }

  // --- the dialogue, with anything in between ---------------------------------------------------

  /** Not a message of `u`. */
  predicate Foreign(op: Op, u: int) {
    !(op.Say? && op.user == u)
  }

  lemma EngineLeavesOthers(c: Casing, s: State, v: int, text: string, secret: string, u: int)
    requires u != v
    ensures PendingOf(Engine(c, s, v, text, secret).0, u) == PendingOf(s, u)
  {
  }

  lemma {:induction false} PendingUndisturbed(c: Casing, s: State, ops: seq<Op>, u: int)
    requires forall n | 0 <= n < |ops| :: Foreign(ops[n], u)
    ensures PendingOf(Run(c, s, ops), u) == PendingOf(s, u)
  {
    if ops != [] {
      var op := ops[|ops| - 1];
      PendingUndisturbed(c, s, ops[..|ops| - 1], u);
      assert Foreign(op, u);
      if op.Say? {
        EngineLeavesOthers(c, Run(c, s, ops[..|ops| - 1]), op.user, op.text, op.secret, u);
      }
    }
  }

  /**
   After /cancel nothing is pending until the user's next message, whatever others do; the answer tells
   whether something was pending, and no account changed.
   */
  lemma CancelLeavesNothingPending(c: Casing, s: State, u: int, text: string, secret: string, others: seq<Op>)
    requires IsCommandText(text, "/cancel")
    requires forall n | 0 <= n < |others| :: Foreign(others[n], u)
    ensures var (t, reply) := Engine(c, s, u, text, secret);
            && PendingOf(Run(c, t, others), u) == Idle
            && (reply == Cancelled <==> PendingOf(s, u) != Idle)
            && t.users == s.users
            && forall v | v != u :: PendingOf(t, v) == PendingOf(s, v)
  {
    CommandRead(c.lower, text, "/cancel");
    Cancels(c, s, u, text, secret);
    PendingUndisturbed(c, Engine(c, s, u, text, secret).0, others, u);
  }

  lemma Cancels(c: Casing, s: State, u: int, text: string, secret: string)
    requires BotCommand(c.lower, TrimSpace(text)) == Some("/cancel")
    ensures Engine(c, s, u, text, secret) ==
            if PendingOf(s, u) == Idle then (s, NothingToDo) else (Clear(s, u), Cancelled)
  {
  }

  // --- what a text does, however it is written ----------------------------------------------------

  /** The user's bots in the order of their ids, each with its username and token. */
  ghost predicate ListsBots(s: State, u: int, bots: seq<(string, string)>) {
    exists ids: seq<nat> :: BotIds(s, u, ids) && |bots| == |ids|
      && forall i | 0 <= i < |ids| :: bots[i] == (s.users[ids[i]].username, s.users[ids[i]].token)
  }

  /** The ids of the accounts `u` owns, oldest first. */
  ghost predicate BotIds(s: State, u: int, ids: seq<nat>) {
    && (forall id :: id in ids <==> id in s.users && s.users[id].owner == u)
    && (forall i, j | 0 <= i < j < |ids| :: ids[i] < ids[j])
  }

  ghost predicate OwnsNone(s: State, u: int) {
    forall id | id in s.users :: s.users[id].owner != u
  }

  lemma OwnedIds(s: State, u: int)
    requires IdsOk(s)
    ensures BotIds(s, u, Owned(s, u)) && (Owned(s, u) == [] <==> OwnsNone(s, u))
  {
    var ids := Owned(s, u);
    if ids != [] {
      assert ids[0] in ids;
    }
  }

  /** /start, /help and /newbot, in any case, with white space, a bot's name or arguments around them. */
  lemma IntroAndNewBot(c: Casing, s: State, u: int, text: string, secret: string)
    ensures IsCommandText(text, "/start") || IsCommandText(text, "/help") ==>
              Engine(c, s, u, text, secret) == (s, Intro)
    ensures IsCommandText(text, "/newbot") ==>
              Engine(c, s, u, text, secret) == (s.(pending := s.pending[u := NewBotName]), AskName)
  {
    if IsCommandText(text, "/start") {
      CommandRead(c.lower, text, "/start");
    }
    if IsCommandText(text, "/help") {
      CommandRead(c.lower, text, "/help");
    }
    if IsCommandText(text, "/newbot") {
      CommandRead(c.lower, text, "/newbot");
    }
  }

  /** /mybots and /token change nothing and list the user's bots, oldest first. */
  lemma MyBots(c: Casing, s: State, u: int, text: string, secret: string)
    requires IdsOk(s) && (IsCommandText(text, "/mybots") || IsCommandText(text, "/token"))
    ensures var (t, reply) := Engine(c, s, u, text, secret);
            && t == s
            && (OwnsNone(s, u) ==> reply == NoBots)
            && (!OwnsNone(s, u) ==> reply.BotList? && ListsBots(s, u, reply.bots))
  {
    if IsCommandText(text, "/mybots") {
      CommandRead(c.lower, text, "/mybots");
    } else {
      CommandRead(c.lower, text, "/token");
    }
    OwnedIds(s, u);
  }

  /** /revoke asks which bot, unless the user has none. */
  lemma AsksWhichBot(c: Casing, s: State, u: int, text: string, secret: string)
    requires IdsOk(s) && IsCommandText(text, "/revoke")
    ensures Engine(c, s, u, text, secret) ==
            if OwnsNone(s, u) then (s, NoBots) else (s.(pending := s.pending[u := RevokeSelect]), AskRevoke)
  {
    CommandRead(c.lower, text, "/revoke");
    OwnedIds(s, u);
  }

  /** A text that is no command is an answer to what is pending, and means nothing when nothing is. */
  lemma NameAnswered(c: Casing, s: State, u: int, text: string, name: string, secret: string)
    requires IsAnswerText(text, name)
    ensures PendingOf(s, u) == Idle ==> Engine(c, s, u, text, secret) == (s, NotUnderstood)
    ensures PendingOf(s, u) == NewBotName ==>
              Engine(c, s, u, text, secret) ==
              if name != "" && |Utf8All(name)| <= 64
              then (s.(pending := s.pending[u := NewBotUsername(name)]), AskUsername) else (s, BadName)
  {
    AnswerRead(c.lower, text, name);
    Utf8LengthIs(name);
  }

  /** The username may be given with or without "@", and with white space around it. */
  lemma UsernameAnswered(c: Casing, s: State, u: int, draft: string, text: string, wanted: string, secret: string)
    requires PendingOf(s, u) == NewBotUsername(draft) && GivesUsername(text, wanted)
    ensures var (t, reply) := Engine(c, s, u, text, secret);
            if !AcceptableUsername(wanted) then t == s && reply == BadUsername
            else if exists v :: v in s.users && s.users[v].username == wanted then t == s && reply == UsernameTaken
            else
              && t.userSeq == s.userSeq + 1
              && t.users == s.users[t.userSeq := Account(wanted, true, u, TokenOf(t.userSeq, secret), draft)]
              && t.pending == s.pending - {u}
              && reply == Created(wanted, TokenOf(t.userSeq, secret))
  {
    UsernameRead(c.lower, text, wanted);
  }

  /** So may the username of the bot to revoke; nothing changes unless the user has a bot so named up to case. */
  lemma RevokeAnswered(c: Casing, s: State, u: int, text: string, wanted: string, secret: string)
    requires Reached(c, s) && u >= 1 && PendingOf(s, u) == RevokeSelect && GivesUsername(text, wanted)
    ensures var (t, reply) := Engine(c, s, u, text, secret);
            if exists id :: IsNamed(c, s, u, id, wanted) then
              exists id: nat ::
                && IsNamed(c, s, u, id, wanted) && (forall v | IsNamed(c, s, u, v, wanted) :: id <= v)
                && t == s.(users := s.users[id := s.users[id].(token := TokenOf(id, secret))],
                           pending := s.pending - {u})
                && reply == Revoked(s.users[id].username, TokenOf(id, secret))
            else t == s && reply == NotYours
  {
    UsernameRead(c.lower, text, wanted);
    ReachedInv(c, s);
    OwnedIds(s, u);
    RevokeFinds(c, s, u, TrimSpace(text), wanted, secret);
  }

  /** The account is owned by `u` and has the username up to case. */
  ghost predicate IsNamed(c: Casing, s: State, u: int, id: int, wanted: string) {
    id in s.users && s.users[id].owner == u && EqualFold(c.fold, s.users[id].username, wanted)
  }

  lemma RevokeFinds(c: Casing, s: State, u: int, text: string, wanted: string, secret: string)
    requires Inv(s) && u >= 1 && BotIds(s, u, Owned(s, u)) && TrimAt(text) == wanted
    ensures var (t, reply) := Revoke(c.fold, s, u, text, secret);
            if exists id :: IsNamed(c, s, u, id, wanted) then
              exists id: nat ::
                && IsNamed(c, s, u, id, wanted) && (forall v | IsNamed(c, s, u, v, wanted) :: id <= v)
                && t == s.(users := s.users[id := s.users[id].(token := TokenOf(id, secret))],
                           pending := s.pending - {u})
                && reply == Revoked(s.users[id].username, TokenOf(id, secret))
            else t == s && reply == NotYours
  {
    var first := FirstNamed(s.users, c.fold, Owned(s, u), wanted);
    if first.Some? {
      assert IsNamed(c, s, u, first.value, wanted);
      assert HasOwnToken(s, first.value);
      forall v | IsNamed(c, s, u, v, wanted) ensures first.value <= v {
        assert v in Owned(s, u);
      }
    } else {
      assert forall id | id in s.users && s.users[id].owner == u :: id in Owned(s, u);
    }
  }

  /**
   Whatever others do in between, the dialogue /newbot, name, username ends with the bot exactly when
   the username is acceptable and free when it is sent; each text may be written in any of its forms.
   */
  lemma NewBotDialogue(c: Casing, s: State, u: int, command: string, others: seq<Op>, nameText: string, name: string,
                       more: seq<Op>, text: string, wanted: string, secret: string)
    requires IsCommandText(command, "/newbot")
    requires IsAnswerText(nameText, name) && name != "" && |Utf8All(name)| <= 64
    requires GivesUsername(text, wanted)
    requires (forall n | 0 <= n < |others| :: Foreign(others[n], u))
        && (forall n | 0 <= n < |more| :: Foreign(more[n], u))
    ensures var asked := Run(c, Engine(c, s, u, command, secret).0, others);
            var named := Run(c, Engine(c, asked, u, nameText, secret).0, more);
            var (t, reply) := Engine(c, named, u, text, secret);
            && (reply.Created? <==>
                  AcceptableUsername(wanted) && forall v | v in named.users :: named.users[v].username != wanted)
            && (reply.Created? ==>
                  && t.userSeq == named.userSeq + 1
                  && t.users == named.users[t.userSeq :=
                      Account(wanted, true, u, TokenOf(t.userSeq, secret), name)]
                  && reply == Created(wanted, TokenOf(t.userSeq, secret))
                  && PendingOf(t, u) == Idle)
            && (!reply.Created? ==> t == named && PendingOf(t, u) == NewBotUsername(name))
  {
    var begun := Engine(c, s, u, command, secret).0;
    IntroAndNewBot(c, s, u, command, secret);
    PendingUndisturbed(c, begun, others, u);
    var asked := Run(c, begun, others);
    NameAnswered(c, asked, u, nameText, name, secret);
    var answered := Engine(c, asked, u, nameText, secret).0;
    PendingUndisturbed(c, answered, more, u);
    UsernameAnswered(c, Run(c, answered, more), u, name, text, wanted, secret);
  }

  // --- revoking -------------------------------------------------------------------------------------

  /**
   Sending a bot's exact username to /revoke replaces the token of that bot exactly when the owner has
   no older bot whose username differs only in case.
   */
  lemma RevokesTheNamedBotIff(c: Casing, s: State, u: int, id: nat, text: string, secret: string)
    requires Reached(c, s) && u >= 1 && PendingOf(s, u) == RevokeSelect && id in Owned(s, u)
    requires GivesUsername(text, s.users[id].username)
    ensures var (t, reply) := Engine(c, s, u, text, secret);
            (t.users == s.users[id := s.users[id].(token := TokenOf(id, secret))]
             && reply == Revoked(s.users[id].username, TokenOf(id, secret))) <==>
            forall v | v in Owned(s, u) && v < id :: !EqualFold(c.fold, s.users[v].username, s.users[id].username)
  {
    ReachedInv(c, s);
    UsernameRead(c.lower, text, s.users[id].username);
    RevokeIff(c, s, u, id, TrimSpace(text), secret);
  }

  lemma RevokeIff(c: Casing, s: State, u: int, id: nat, text: string, secret: string)
    requires Inv(s) && u >= 1 && id in Owned(s, u) && TrimAt(text) == s.users[id].username
    ensures var (t, reply) := Revoke(c.fold, s, u, text, secret);
            (t.users == s.users[id := s.users[id].(token := TokenOf(id, secret))]
             && reply == Revoked(s.users[id].username, TokenOf(id, secret))) <==>
            forall v | v in Owned(s, u) && v < id :: !EqualFold(c.fold, s.users[v].username, s.users[id].username)
  {
    var first := FirstNamed(s.users, c.fold, Owned(s, u), TrimAt(text));
    assert EqualFold(c.fold, s.users[id].username, TrimAt(text));
    assert HasOwnToken(s, first.value);
    TokenNamesItsBot(first.value, secret);
    TokenNamesItsBot(id, secret);
  }

  // --- an instance ------------------------------------------------------------------------------------

  lemma {:induction false} BeforeAll(s: string, p: char -> bool)
    requires forall i | 0 <= i < |s| :: !p(s[i])
    ensures Before(s, p) == s
  {
    if s != "" {
      BeforeAll(s[1..], p);
      assert s == [s[0]] + s[1..];
    }
  }

  /** A lower-case word after a slash is its own command. */
  lemma PlainCommand(lower: char -> char, cmd: string)
    requires cmd != "" && cmd[0] == '/' && forall i | 0 <= i < |cmd| :: cmd[i] == '/' || 'a' <= cmd[i] <= 'z'
    ensures TrimSpace(cmd) == cmd && BotCommand(lower, cmd) == Some(cmd)
  {
    BeforeAll(cmd, IsSpace);
    BeforeAll(cmd, IsAtSign);
    assert LowerAll(lower, cmd) == cmd;
  }

  /** ASCII case folding. */
  function AsciiFold(c: char): char {
    if IsUpper(c) then (c as int + 32) as char else c
  }

  const ASCII := Casing(c => c, AsciiFold)

  lemma ReachedStep(c: Casing, s: State, op: Op)
    requires Reached(c, s) && Enabled(s, op)
    ensures Reached(c, Step(c, s, op))
  {
    var ops :| Legal(c, START, ops) && Run(c, START, ops) == s;
    var all := ops + [op];
    assert all[..|ops|] == ops;
    forall n | 0 <= n < |all| ensures Enabled(Run(c, START, all[..n]), all[n]) {
      assert n < |ops| ==> all[..n] == ops[..n];
    }
    assert Run(c, START, all) == Step(c, s, op);
  }

  lemma SaysCommand(s: State, cmd: string)
    requires cmd == "/newbot" || cmd == "/revoke"
    ensures Step(ASCII, s, Say(1, cmd, "")) == Command(s, 1, cmd).0
  {
    PlainCommand(ASCII.lower, cmd);
  }

  lemma SaysName(s: State)
    requires PendingOf(s, 1) == NewBotName
    ensures Step(ASCII, s, Say(1, "N", "")) == WaitFor(s, 1, NewBotUsername("N"))
  {
    assert TrimSpace("N") == "N";
    assert ValidBotName("N") by {
      assert Utf8Length("N") == Utf8Length("N"[..0]) + 1;
    }
  }

  lemma SaysUsername(s: State, username: string, secret: string)
    requires PendingOf(s, 1) == NewBotUsername("N") && AcceptableUsername(username) && !UsernameInUse(s, username)
    ensures Step(ASCII, s, Say(1, username, secret)) == Clear(AddOwnedBot(s, 1, username, "N", secret), 1)
  {
    assert TrimSpace(username) == username;
  }

  /** User 1 makes a bot in one uninterrupted dialogue. */
  lemma MakeBot(s: State, username: string, secret: string) returns (t: State)
    requires Reached(ASCII, s) && s.userSeq < 10 && AcceptableUsername(username) && !UsernameInUse(s, username)
    ensures Reached(ASCII, t) && t.userSeq == s.userSeq + 1
    ensures t.users == s.users[t.userSeq := Account(username, true, 1, TokenOf(t.userSeq, secret), "N")]
  {
    SaysCommand(s, "/newbot");
    ReachedStep(ASCII, s, Say(1, "/newbot", ""));
    var s1 := WaitFor(s, 1, NewBotName);
    SaysName(s1);
    ReachedStep(ASCII, s1, Say(1, "N", ""));
    var s2 := WaitFor(s1, 1, NewBotUsername("N"));
    assert forall u :: u in s2.users <==> u in s.users;
    SaysUsername(s2, username, secret);
    ReachedStep(ASCII, s2, Say(1, username, secret));
    t := Clear(AddOwnedBot(s2, 1, username, "N", secret), 1);
  }

  /** User 1 owns AaBot and then aabot, and has asked to revoke. */
  lemma TwoBots() returns (s: State)
    ensures Reached(ASCII, s) && s.userSeq == 3 && 2 in s.users && 3 in s.users
    ensures 1 in s.users && s.users[1].owner == 0
    ensures s.users[2] == Account("AaBot", true, 1, TokenOf(2, "x"), "N")
    ensures s.users[3] == Account("aabot", true, 1, TokenOf(3, "y"), "N")
    ensures PendingOf(s, 1) == RevokeSelect
  {
    TwoNames();
    var one := OneUser();
    NameApart(one, "AaBot");
    var two := MakeBot(one, "AaBot", "x");
    NameApart(one, "aabot");
    StillFree(one, two, 2, Account("AaBot", true, 1, TokenOf(2, "x"), "N"), "aabot");
    var three := MakeBot(two, "aabot", "y");
    s := AsksToRevoke(three);
  }

  lemma TwoNames()
    ensures AcceptableUsername("AaBot") && AcceptableUsername("aabot") && "AaBot" != "aabot"
  {
    assert "AaBot"[0] != "aabot"[0];
  }

  lemma StillFree(s: State, t: State, id: int, a: Account, name: string)
    requires t.users == s.users[id := a] && a.username != name && !UsernameInUse(s, name)
    ensures !UsernameInUse(t, name)
  {
  }

  lemma OneUser() returns (s: State)
    ensures Reached(ASCII, s) && s.userSeq == 1
    ensures s.users == START.users[1 := Account("", false, 0, "", "U")]
  {
    assert Run(ASCII, START, []) == START && Legal(ASCII, START, []);
    ReachedStep(ASCII, START, AddUser("U"));
    s := AddAccount(START, Account("", false, 0, "", "U"));
  }

  lemma NameApart(s: State, name: string)
    requires s.users == START.users[1 := Account("", false, 0, "", "U")] && |name| == 5
    ensures !UsernameInUse(s, name)
  {
  }

  lemma AsksToRevoke(s: State) returns (t: State)
    requires Reached(ASCII, s) && s.userSeq < 10 && 2 in s.users && s.users[2].owner == 1 && s.userSeq >= 2
    ensures Reached(ASCII, t) && t.userSeq == s.userSeq && t.users == s.users && PendingOf(t, 1) == RevokeSelect
  {
    assert 2 in Owned(s, 1);
    SaysCommand(s, "/revoke");
    ReachedStep(ASCII, s, Say(1, "/revoke", ""));
    t := WaitFor(s, 1, RevokeSelect);
  }

  /**
   An owner of AaBot and aabot, in this order, who revokes aabot replaces the token of AaBot instead.
   */
  lemma RevokeCanHitAnotherBot(secret: string)
    ensures exists s ::
              && Reached(ASCII, s) && 2 in Owned(s, 1) && 3 in Owned(s, 1)
              && s.users[2].username == "AaBot" && s.users[3].username == "aabot"
              && PendingOf(s, 1) == RevokeSelect
              && Engine(ASCII, s, 1, "aabot", secret).1 == Revoked("AaBot", TokenOf(2, secret))
              && Engine(ASCII, s, 1, "aabot", secret).0.users == s.users[2 := s.users[2].(token := TokenOf(2, secret))]
  {
    var s := TwoBots();
    assert 2 in Owned(s, 1) && 3 in Owned(s, 1);
    assert TrimSpace("aabot") == "aabot" && TrimAt("aabot") == "aabot";
    FoldedNames();
    FirstOfTwo(s);
  }

  lemma FoldedNames()
    ensures EqualFold(AsciiFold, "AaBot", "aabot")
  {
    var a, b := "AaBot", "aabot";
    assert a[0] == 'A' && a[1] == 'a' && a[2] == 'B' && a[3] == 'o' && a[4] == 't';
    assert b[0] == 'a' && b[1] == 'a' && b[2] == 'b' && b[3] == 'o' && b[4] == 't';
    forall i | 0 <= i < 5 ensures AsciiFold(a[i]) == AsciiFold(b[i]) {
      assert i == 0 || i == 1 || i == 2 || i == 3 || i == 4;
    }
  }

  lemma FirstOfTwo(s: State)
    requires s.userSeq == 3 && 2 in Owned(s, 1) && 3 in Owned(s, 1)
    requires s.users[2].username == "AaBot" && 1 in s.users && s.users[1].owner != 1
    ensures FirstNamed(s.users, AsciiFold, Owned(s, 1), "aabot") == Some(2)
  {
    FoldedNames();
  }

  /** An imported bot may hold the token an owned bot is given later. */
  lemma ImportedBotCanHoldToken(secret: string)
    ensures exists s ::
              && Reached(ASCII, s) && HoldsToken(s, 2, TokenOf(3, secret)) && HoldsToken(s, 3, TokenOf(3, secret))
              && s.users[2].owner == 0 && s.users[3].owner == 1
  {
    var one := OneUser();
    var imported := Account("", true, 0, TokenOf(3, secret), "B");
    var token := TokenOf(3, secret);
    TokenFree(one, token);
    ReachedStep(ASCII, one, AddBot(token, "", "B"));
    var two := AddAccount(one, imported);
    NameApart(one, "aabot");
    StillFree(one, two, 2, imported, "aabot");
    TwoNames();
    var s := MakeBot(two, "aabot", secret);
    assert HoldsToken(s, 2, token) && HoldsToken(s, 3, token);
  }

  lemma TokenFree(s: State, token: string)
    requires s.users == START.users[1 := Account("", false, 0, "", "U")] && token != ""
    ensures !TokenInUse(s, token)
  {
  }
}
