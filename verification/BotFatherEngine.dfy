/** The BotFather handler over tables updated in place, and the lookups it makes in any map order. */
module BotFatherEngine {
  import opened Prelude
  import opened BotText
  import opened BotFather

  const BY_ID_ASCENDING: nat -> int := (id: nat) => -(id as int)

  class Conversations {
    var userSeq: nat
    var users: map<int, Account>
    var pending: map<int, Pending>
    const casing: Casing

    ghost function Abs(): State
      reads this
    {
      State(userSeq, users, pending)
    }

    ghost predicate Valid()
      reads this
    {
      Inv(Abs())
    }

    constructor (casing: Casing)
      ensures Valid() && Abs() == START && this.casing == casing
    {
      userSeq, pending := 0, map[];
      users := map[Messaging.BOT_FATHER_ID := Account("BotFather", true, 0, "", "BotFather")];
      this.casing := casing;
    }

    // --- lookups -------------------------------------------------------------------------

    /** The owner's bots, collected in any order and sorted by id. */
    method BotsByOwner(owner: int) returns (ids: seq<nat>)
      requires Valid()
      ensures ids == Owned(Abs(), owner)
    {
      var found: seq<nat> := [];
      var rest := users.Keys;
      while rest != {}
        invariant rest <= users.Keys
        invariant forall id :: id in found <==> id in users && id !in rest && users[id].owner == owner
        invariant forall i, j | 0 <= i < j < |found| :: found[i] != found[j]
      {
        var id := Next(rest);
        rest := rest - {id};
        if users[id].owner == owner {
          assert forall i | 0 <= i < |found| :: found[i] in found;
          found := found + [id];
        }
      }
      ids := SortDescending(found, BY_ID_ASCENDING);
      SortedDistinct(found, ids, BY_ID_ASCENDING);
      OwnedSorted(Abs(), owner, ids);
    }

    lemma OwnedSorted(s: State, owner: int, ids: seq<nat>)
      requires Inv(s) && StrictlyDescending(ids, BY_ID_ASCENDING)
      requires forall id :: id in ids <==> id in s.users && s.users[id].owner == owner
      ensures ids == Owned(s, owner)
    {
      var all := Owned(s, owner);
      forall id ensures id in ids <==> id in all {
      }
      assert StrictlyDescending(all, BY_ID_ASCENDING);
      SortedUnique(ids, all, BY_ID_ASCENDING);
    }

    method UserByUsername(username: string) returns (taken: bool)
      ensures taken <==> UsernameInUse(Abs(), username)
    {
      var rest := users.Keys;
      while rest != {}
        invariant rest <= users.Keys
        invariant forall u | u in users && u !in rest :: users[u].username != username
      {
        var u := Next(rest);
        rest := rest - {u};
        if users[u].username == username {
          return true;
        }
      }
      return false;
    }

    /** The empty username is never taken. */
    method IsUsernameTaken(username: string) returns (taken: bool)
      ensures taken <==> username != "" && UsernameInUse(Abs(), username)
    {
      if username == "" {
        return false;
      }
      taken := UserByUsername(username);
    }

    /** Any bot with the token, searched in any order. */
    method BotByToken(token: string) returns (found: Option<int>)
      ensures found.Some? ==> HoldsToken(Abs(), found.value, token)
      ensures found.None? <==> !exists u :: HoldsToken(Abs(), u, token)
    {
      var rest := users.Keys;
      while rest != {}
        invariant rest <= users.Keys
        invariant forall u | u in users && u !in rest :: !HoldsToken(Abs(), u, token)
      {
        var u := Next(rest);
        rest := rest - {u};
        if users[u].isBot && users[u].token == token {
          assert HoldsToken(Abs(), u, token);
          return Some(u);
        }
      }
      return None;
    }

    /** The loop over the owner's bots. */
    method FindNamed(ids: seq<nat>, username: string) returns (target: Option<nat>)
      requires forall id | id in ids :: id in users
      requires forall i, j | 0 <= i < j < |ids| :: ids[i] < ids[j]
      ensures target == FirstNamed(users, casing.fold, ids, username)
    {
      for i := 0 to |ids|
        invariant forall k | 0 <= k < i :: !EqualFold(casing.fold, users[ids[k]].username, username)
      {
        if EqualFold(casing.fold, users[ids[i]].username, username) {
          ghost var first := FirstNamed(users, casing.fold, ids, username);
          ghost var k :| 0 <= k < |ids| && ids[k] == first.value;
          assert k >= i;
          return Some(ids[i]);
        }
      }
      return None;
    }

    // --- table updates -------------------------------------------------------------------

    method CreateOwnedBot(username: string, name: string, owner: int, secret: string) returns (id: Option<nat>)
      modifies this`users, this`userSeq
      ensures id.None? <==> username != "" && UsernameInUse(old(Abs()), username)
      ensures id.None? ==> Abs() == old(Abs())
      ensures id.Some? ==> id.value == userSeq && Abs() == AddOwnedBot(old(Abs()), owner, username, name, secret)
    {
      var taken := IsUsernameTaken(username);
      if taken {
        return None;
      }
      userSeq := userSeq + 1;
      users := users[userSeq := Account(username, true, owner, TokenOf(userSeq, secret), name)];
      id := Some(userSeq);
    }

    method SetBotToken(id: int, token: string)
      modifies this`users
      ensures users == if id in old(users) && old(users)[id].isBot
                       then old(users)[id := old(users)[id].(token := token)] else old(users)
    {
      if id in users && users[id].isBot {
        users := users[id := users[id].(token := token)];
      }
    }

    // --- the handler ----------------------------------------------------------------------

    method HandleCommand(u: int, cmd: string) returns (reply: Reply)
      requires Valid() && u >= 1
      modifies this`pending
      ensures (Abs(), reply) == Command(old(Abs()), u, cmd)
    {
      if cmd == "/start" || cmd == "/help" {
        reply := Intro;
      } else if cmd == "/newbot" {
        pending := pending[u := NewBotName];
        reply := AskName;
      } else if cmd == "/mybots" || cmd == "/token" {
        var bots := BotsByOwner(u);
        reply := if |bots| == 0 then NoBots else BotList(ListOf(users, bots));
      } else if cmd == "/revoke" {
        var bots := BotsByOwner(u);
        if |bots| == 0 {
          return NoBots;
        }
        pending := pending[u := RevokeSelect];
        reply := AskRevoke;
      } else if cmd == "/cancel" {
        if u !in pending || pending[u].Idle? {
          return NothingToDo;
        }
        pending := pending - {u};
        reply := Cancelled;
      } else {
        reply := NotUnderstood;
      }
    }

    method HandleName(u: int, name: string) returns (reply: Reply)
      modifies this`pending
      ensures (Abs(), reply) == SetName(old(Abs()), u, name)
    {
      if !ValidBotName(name) {
        return BadName;
      }
      pending := pending[u := NewBotUsername(name)];
      reply := AskUsername;
    }

    method HandleUsername(u: int, name: string, text: string, secret: string) returns (reply: Reply)
      modifies this`users, this`userSeq, this`pending
      ensures (Abs(), reply) == CreateBot(old(Abs()), u, name, text, secret)
    {
      var username := TrimAt(text);
      var ok := ValidBotUsername(casing.lower, username);
      if !ok {
        return BadUsername;
      }
      var taken := UserByUsername(username);
      if taken {
        return UsernameTaken;
      }
      var id := CreateOwnedBot(username, name, u, secret);
      pending := pending - {u};
      reply := Created(username, users[id.value].token);
    }

    method HandleRevoke(u: int, text: string, secret: string) returns (reply: Reply)
      requires Valid() && u >= 1
      modifies this`users, this`pending
      ensures (Abs(), reply) == Revoke(casing.fold, old(Abs()), u, text, secret)
    {
      var bots := BotsByOwner(u);
      var target := FindNamed(bots, TrimAt(text));
      if target.None? {
        return NotYours;
      }
      var username := users[target.value].username;
      var token := TokenOf(target.value, secret);
      SetBotToken(target.value, token);
      pending := pending - {u};
      reply := Revoked(username, token);
    }

    /** One message to BotFather. */
    method HandleMessage(u: int, text: string, secret: string) returns (reply: Reply)
      requires Valid() && Enabled(Abs(), Say(u, text, secret))
      modifies this
      ensures Valid() && (Abs(), reply) == Engine(casing, old(Abs()), u, text, secret)
    {
      EngineKeeps(casing, Abs(), u, text, secret);
      var t := TrimSpace(text);
      var cmd := BotCommand(casing.lower, t);
      if cmd.Some? {
        reply := HandleCommand(u, cmd.value);
        return;
      }
      var p := if u in pending then pending[u] else Idle;
      match p
      case Idle => reply := NotUnderstood;
      case NewBotName => reply := HandleName(u, t);
      case NewBotUsername(draft) => reply := HandleUsername(u, draft, t, secret);
      case RevokeSelect => reply := HandleRevoke(u, t, secret);
    }
  }
}
