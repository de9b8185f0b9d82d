/**
 The difference handler: the log turned into new messages, other updates, users and a state.

 `Receive` is what a client does with the reply; it looks at nothing but the reply. The handler
 reports the account's current pts even when the cap cut the list, so its reply equals a page of
 the log exactly when at most `DIFFERENCE_LIMIT` entries were pending.
 */
module UpdatesHandler {
  import opened Prelude
  import opened Messaging
  import opened Structure
  import opened UpdateLog
  import opened History
  import opened Difference
  import opened CatchUp
  import opened Invariant
  import opened Convergence
  import opened Readers
  import opened MemoryDb

  const DIFFERENCE_LIMIT := 1000

  datatype OtherUpdate =
    | EditMessage(message: View, pts: int, ptsCount: int)
    | DeleteMessages(messages: seq<int>, pts: int, ptsCount: int)
    | ReadHistoryInbox(peer: int, maxId: int, pts: int, ptsCount: int)
    | ReadHistoryOutbox(peer: int, maxId: int, pts: int, ptsCount: int)

  datatype Reply =
    | DifferenceEmpty
    | DifferenceReply(newMessages: seq<View>, otherUpdates: seq<OtherUpdate>, users: seq<ReplyUser>, pts: int)

  // --- what the lists stand for ----------------------------------------------------

  /** The current views of the messages the `new` entries announce, in log order. */
  function NewMessages(s: Sight, entries: seq<Entry>): seq<View> {
    if entries == [] then []
    else
      var init := NewMessages(s, entries[..|entries| - 1]);
      match entries[|entries| - 1].update
      case New(g) => (match ViewByGlobal(s, g) case Some(v) => init + [v] case None => init)
      case _ => init
  }

  /** The wire form of an entry that is not `new`; an unresolvable edit has none. */
  function Translated(s: Sight, e: Entry): seq<OtherUpdate> {
    match e.update
    case New(_) => []
    case Edit(g) => (match ViewByGlobal(s, g) case Some(v) => [EditMessage(v, e.pts, e.ptsCount)] case None => [])
    case Delete(ids) => [DeleteMessages(ids, e.pts, e.ptsCount)]
    case ReadInbox(peer, maxId) => [ReadHistoryInbox(peer, maxId, e.pts, e.ptsCount)]
    case ReadOutbox(peer, maxId) => [ReadHistoryOutbox(peer, maxId, e.pts, e.ptsCount)]
  }

  function OtherUpdates(s: Sight, entries: seq<Entry>): seq<OtherUpdate> {
    if entries == [] then []
    else OtherUpdates(s, entries[..|entries| - 1]) + Translated(s, entries[|entries| - 1])
  }

  /** The user ids a view mentions. */
  function Parties(v: View): set<int> {
    {v.from, v.peer}
  }

  function Mentioned(u: OtherUpdate): set<int> {
    match u
    case EditMessage(v, _, _) => Parties(v)
    case DeleteMessages(_, _, _) => {}
    case ReadHistoryInbox(peer, _, _, _) => {peer}
    case ReadHistoryOutbox(peer, _, _, _) => {peer}
  }

  /** Everybody the two lists mention, and the caller. */
  ghost function Everybody(self: int, newMessages: seq<View>, others: seq<OtherUpdate>): set<int> {
    {self}
    + (set v, id | v in newMessages && id in Parties(v) :: id)
    + (set u, id | u in others && id in Mentioned(u) :: id)
  }

  // --- the handler -------------------------------------------------------------------

  lemma EverybodyGrows(self: int, news: seq<View>, others: seq<OtherUpdate>, v: View, u: OtherUpdate)
    ensures Everybody(self, news + [v], others) == Everybody(self, news, others) + Parties(v)
    ensures Everybody(self, news, others + [u]) == Everybody(self, news, others) + Mentioned(u)
  {
    assert forall x :: x in news + [v] <==> x in news || x == v;
    assert forall x :: x in others + [u] <==> x in others || x == u;
  }

  method MessageOf(db: DB, self: int, e: Entry) returns (found: Option<View>)
    requires db.Valid()
    ensures found ==
        if e.update.New? || e.update.Edit? then ViewByGlobal(SightOf(db.Abs(), self), e.update.globalId) else None
  {
    if !e.update.New? && !e.update.Edit? {
      return None;
    }
    found := db.MessageByGlobal(self, e.update.globalId);
  }

  /** The loop over the entries. */
  method Split(db: DB, self: int, entries: seq<Entry>)
    returns (newMessages: seq<View>, otherUpdates: seq<OtherUpdate>, userIds: set<int>)
    requires db.Valid()
    ensures newMessages == NewMessages(SightOf(db.Abs(), self), entries)
    ensures otherUpdates == OtherUpdates(SightOf(db.Abs(), self), entries)
    ensures userIds == Everybody(self, newMessages, otherUpdates)
  {
    ghost var s := SightOf(db.Abs(), self);
    newMessages, otherUpdates, userIds := [], [], {self};
    for n := 0 to |entries|
      invariant newMessages == NewMessages(s, entries[..n])
      invariant otherUpdates == OtherUpdates(s, entries[..n])
      invariant userIds == Everybody(self, newMessages, otherUpdates)
    {
      var e := entries[n];
      assert entries[..n + 1][..n] == entries[..n];
      match e.update
      case New(g) =>
        var msg := MessageOf(db, self, e);
        if msg.Some? {
          EverybodyGrows(self, newMessages, otherUpdates, msg.value, DeleteMessages([], 0, 0));
          newMessages := newMessages + [msg.value];
          userIds := userIds + {msg.value.from, msg.value.peer};
        }
      case Edit(g) =>
        var msg := MessageOf(db, self, e);
        if msg.Some? {
          userIds, otherUpdates := Append(self, newMessages, otherUpdates, userIds,
              EditMessage(msg.value, e.pts, e.ptsCount));
        }
      case Delete(ids) =>
        userIds, otherUpdates := Append(self, newMessages, otherUpdates, userIds,
            DeleteMessages(ids, e.pts, e.ptsCount));
      case ReadInbox(peer, maxId) =>
        userIds, otherUpdates := Append(self, newMessages, otherUpdates, userIds,
            ReadHistoryInbox(peer, maxId, e.pts, e.ptsCount));
      case ReadOutbox(peer, maxId) =>
        userIds, otherUpdates := Append(self, newMessages, otherUpdates, userIds,
            ReadHistoryOutbox(peer, maxId, e.pts, e.ptsCount));
    }
    assert entries[..|entries|] == entries;
  }

  method Append(ghost self: int, ghost news: seq<View>, others: seq<OtherUpdate>, ids: set<int>, u: OtherUpdate)
    returns (userIds: set<int>, updates: seq<OtherUpdate>)
    requires ids == Everybody(self, news, others)
    ensures updates == others + [u] && userIds == Everybody(self, news, updates)
  {
    userIds, updates := ids + Mentioned(u), others + [u];
    if news == [] {
      assert Everybody(self, [], updates) == userIds by {
        assert forall x :: x in updates <==> x in others || x == u;
      }
    } else {
      EverybodyGrows(self, news, others, news[0], u);
    }
  }

  /** The stored users among `ids`, in any order, each once; the caller is marked. */
  method UsersByIds(db: DB, self: int, ids: set<int>) returns (users: seq<ReplyUser>)
    requires db.Represented()
    ensures forall x :: x in users <==> x.id in ids && x.id in db.Abs().accounts && x.self == (x.id == self)
    ensures forall i, j | 0 <= i < j < |users| :: users[i].id != users[j].id
  {
    users := [];
    var rest := ids;
    while rest != {}
      invariant rest <= ids
      invariant forall x ::
                  x in users <==>
                  x.id in ids && x.id !in rest && x.id in db.Abs().accounts && x.self == (x.id == self)
      invariant forall i, j | 0 <= i < j < |users| :: users[i].id != users[j].id
    {
      var id := Next(rest);
      rest := rest - {id};
      if id in db.users {
        assert forall i | 0 <= i < |users| :: users[i] in users;
        users := users + [ReplyUser(id, id == self)];
      }
    }
  }

  ghost predicate UsersListed(w: World, self: int, ids: set<int>, users: seq<ReplyUser>) {
    && (forall x :: x in users <==> x.id in ids && x.id in w.accounts && x.self == (x.id == self))
    && (forall i, j | 0 <= i < j < |users| :: users[i].id != users[j].id)
  }

  /** The reply, apart from the order of its users. */
  ghost predicate Answers(w: World, self: int, since: int, reply: Reply) {
    var page := Limited(Pending(Log(w, self), since), DIFFERENCE_LIMIT);
    if page == [] then reply == DifferenceEmpty
    else
      && reply.DifferenceReply?
      && reply.newMessages == NewMessages(SightOf(w, self), page)
      && reply.otherUpdates == OtherUpdates(SightOf(w, self), page)
      && UsersListed(w, self, Everybody(self, reply.newMessages, reply.otherUpdates), reply.users)
      && reply.pts == PtsOf(w, self)
  }

  method UpdatesGetDifference(db: DB, caller: int, pts: int) returns (reply: Reply)
    requires db.Valid() && caller in db.Abs().accounts
    ensures Answers(db.Abs(), caller, pts, reply)
  {
    var got := db.GetDifference(caller, pts, DIFFERENCE_LIMIT);
    var entries, currentPts := got.value.0, got.value.1;
    if |entries| == 0 {
      return DifferenceEmpty;
    }
    var newMessages, otherUpdates, userIds := Split(db, caller, entries);
    var users := UsersByIds(db, caller, userIds);
    reply := DifferenceReply(newMessages, otherUpdates, users, currentPts);
  }

  /** Nobody a message of the reply names is missing from its users. */
  lemma MessagesHaveTheirUsers(w: World, self: int, since: int, reply: Reply, v: View)
    requires Reachable(w) && self in w.accounts && Answers(w, self, since, reply)
    requires reply.DifferenceReply?
    requires v in reply.newMessages || EditsListed(reply.otherUpdates, v)
    ensures ReplyUser(v.from, v.from == self) in reply.users
    ensures ReplyUser(v.peer, v.peer == self) in reply.users
  {
    var page := Limited(Pending(Log(w, self), since), DIFFERENCE_LIMIT);
    var s := SightOf(w, self);
    var ids := Everybody(self, reply.newMessages, reply.otherUpdates);
    if EditsListed(reply.otherUpdates, v) {
      var u :| u in reply.otherUpdates && u.EditMessage? && u.message == v;
      EditsResolve(s, page, u);
      MentionedCounts(self, reply.newMessages, reply.otherUpdates, u);
    } else {
      NewsResolve(s, page, v);
      PartiesCount(self, reply.newMessages, reply.otherUpdates, v);
    }
    var g :| ViewByGlobal(s, g) == Some(v);
    PartiesExist(w, self, g, v);
    assert UsersListed(w, self, ids, reply.users);
  }

  ghost predicate EditsListed(others: seq<OtherUpdate>, v: View) {
    exists u :: u in others && u.EditMessage? && u.message == v
  }

  lemma PartiesCount(self: int, news: seq<View>, others: seq<OtherUpdate>, v: View)
    requires v in news
    ensures Parties(v) <= Everybody(self, news, others)
  {
  }

  lemma MentionedCounts(self: int, news: seq<View>, others: seq<OtherUpdate>, u: OtherUpdate)
    requires u in others
    ensures Mentioned(u) <= Everybody(self, news, others)
  {
  }

  lemma PartiesExist(w: World, self: int, g: int, v: View)
    requires Reachable(w) && self in w.accounts && ViewByGlobal(SightOf(w, self), g) == Some(v)
    ensures Parties(v) <= w.accounts.Keys
  {
    ReachableInv(w);
    assert MessagesOk(w);
    assert v.from == w.messages[g - 1].from && v.peer == Other(self, w.messages[g - 1]);
  }

  lemma {:induction false} NewsResolve(s: Sight, entries: seq<Entry>, v: View)
    requires v in NewMessages(s, entries)
    ensures exists g :: ViewByGlobal(s, g) == Some(v)
  {
    var e := entries[|entries| - 1];
    var init := NewMessages(s, entries[..|entries| - 1]);
    if v in init {
      NewsResolve(s, entries[..|entries| - 1], v);
    } else {
      assert ViewByGlobal(s, e.update.globalId) == Some(v);
    }
  }

  lemma {:induction false} EditsResolve(s: Sight, entries: seq<Entry>, u: OtherUpdate)
    requires u in OtherUpdates(s, entries) && u.EditMessage?
    ensures exists g :: ViewByGlobal(s, g) == Some(u.message)
  {
    var e := entries[|entries| - 1];
    if u in OtherUpdates(s, entries[..|entries| - 1]) {
      EditsResolve(s, entries[..|entries| - 1], u);
    } else {
      assert u in Translated(s, e);
      assert ViewByGlobal(s, e.update.globalId) == Some(u.message);
    }
  }

  // --- the client's side ----------------------------------------------------------------

  function AddMessages(held: map<int, View>, messages: seq<View>): map<int, View> {
    if messages == [] then held
    else
      var v := messages[|messages| - 1];
      AddMessages(held, messages[..|messages| - 1])[v.localId := v]
  }

  function Change(held: map<int, View>, u: OtherUpdate): map<int, View> {
    match u
    case EditMessage(v, _, _) => if v.localId in held then held[v.localId := v] else held
    case DeleteMessages(ids, _, _) => map l | l in held && l !in ids :: held[l]
    case ReadHistoryInbox(_, _, _, _) => held
    case ReadHistoryOutbox(_, _, _, _) => held
  }

  function ChangeAll(held: map<int, View>, us: seq<OtherUpdate>): map<int, View> {
    if us == [] then held else Change(ChangeAll(held, us[..|us| - 1]), us[|us| - 1])
  }

  /** New messages first, other updates second, then the reported pts. */
  function Receive(c: Client, reply: Reply): Client {
    match reply
    case DifferenceEmpty => c
    case DifferenceReply(news, others, _, pts) => Client(pts, ChangeAll(AddMessages(c.held, news), others))
  }

  lemma {:induction false} AddingIsApplying(s: Sight, held: map<int, View>, entries: seq<Entry>)
    ensures AddMessages(held, NewMessages(s, entries)) == ApplyAll(s, held, News(entries))
  {
    if entries != [] {
      var n := |entries| - 1;
      var init, e := entries[..n], entries[n];
      AddingIsApplying(s, held, init);
      if e.update.New? {
        assert (News(init) + [e])[..|News(init)|] == News(init);
        if ViewByGlobal(s, e.update.globalId).Some? {
          var all := NewMessages(s, entries);
          assert all[..|all| - 1] == NewMessages(s, init);
        }
      } else {
        assert News(entries) == News(init);
      }
    }
  }

  lemma OneIsApplied(s: Sight, held: map<int, View>, e: Entry)
    requires !e.update.New?
    ensures |Translated(s, e)| <= 1
    ensures Translated(s, e) == [] ==> Apply(s, held, e.update) == held
    ensures |Translated(s, e)| == 1 ==> Apply(s, held, e.update) == Change(held, Translated(s, e)[0])
  {
  }

  lemma {:induction false} ChangingIsApplying(s: Sight, held: map<int, View>, entries: seq<Entry>)
    ensures ChangeAll(held, OtherUpdates(s, entries)) == ApplyAll(s, held, Others(entries))
  {
    if entries == [] {
      assert OtherUpdates(s, []) == [] && Others([]) == [];
    } else {
      var n := |entries| - 1;
      assert entries == entries[..n] + [entries[n]];
      ChangingIsApplying(s, held, entries[..n]);
      ChangeOneMore(s, held, entries[..n], entries[n]);
    }
  }

  lemma ChangeOneMore(s: Sight, held: map<int, View>, init: seq<Entry>, e: Entry)
    requires ChangeAll(held, OtherUpdates(s, init)) == ApplyAll(s, held, Others(init))
    ensures ChangeAll(held, OtherUpdates(s, init + [e])) == ApplyAll(s, held, Others(init + [e]))
  {
    var entries := init + [e];
    var us := OtherUpdates(s, init);
    assert entries[..|entries| - 1] == init && entries[|entries| - 1] == e;
    assert OtherUpdates(s, entries) == us + Translated(s, e);
    if e.update.New? {
      assert Others(entries) == Others(init) && OtherUpdates(s, entries) == us;
    } else {
      OneIsApplied(s, ChangeAll(held, us), e);
      assert Others(entries) == Others(init) + [e] && (Others(init) + [e])[..|Others(init)|] == Others(init);
      if |Translated(s, e)| == 0 {
        assert OtherUpdates(s, entries) == us;
      } else {
        var all := OtherUpdates(s, entries);
        assert all[..|all| - 1] == us && all[|all| - 1] == Translated(s, e)[0];
      }
    }
  }

  /** What a client becomes with any reply the handler may give. */
  ghost function AfterReply(w: World, u: int, c: Client): Client {
    var page := Limited(Pending(Log(w, u), c.pts), DIFFERENCE_LIMIT);
    if page == [] then c
    else Client(PtsOf(w, u), Fetch(w, u, DIFFERENCE_LIMIT, c).held)
  }

  /** The two lists carry everything the page says: the client's messages are those of the log. */
  lemma ReplyCarriesThePage(w: World, u: int, c: Client, reply: Reply)
    requires Answers(w, u, c.pts, reply)
    ensures Receive(c, reply) == AfterReply(w, u, c)
  {
    var s := SightOf(w, u);
    var page := Limited(Pending(Log(w, u), c.pts), DIFFERENCE_LIMIT);
    AddingIsApplying(s, c.held, page);
    ChangingIsApplying(s, ApplyAll(s, c.held, News(page)), page);
  }

  /**
   The reply leaves the client where a page of the log does exactly when the cap did not cut it.
   Otherwise the entries behind the cap are no longer above the client's pts.
   */
  lemma CapIsHarmlessIff(w: World, u: int, c: Client)
    requires Reachable(w)
    ensures AfterReply(w, u, c) == Fetch(w, u, DIFFERENCE_LIMIT, c) <==> |Pending(Log(w, u), c.pts)| <= DIFFERENCE_LIMIT
    ensures |Pending(Log(w, u), c.pts)| > 0 ==> Pending(Log(w, u), AfterReply(w, u, c).pts) == []
  {
    ReachableInv(w);
    LogGapless(w, u);
    CutEndsEarlyIff(Log(w, u), PtsOf(w, u), c.pts, DIFFERENCE_LIMIT);
    assert NothingNew(w, u, c);
    PendingFromBoundary(Log(w, u), PtsOf(w, u), |Log(w, u)|);
  }

  /** A page ends at the current pts exactly when it is all that was pending. */
  lemma CutEndsEarlyIff(log: seq<Entry>, pts: int, since: int, limit: int)
    requires Gapless(log, pts) && limit >= 1
    ensures var page := Limited(Pending(log, since), limit);
            page != [] ==> (PtsAfter(page, since) == pts <==> |Pending(log, since)| <= limit)
  {
    var k := PendingIsSuffix(log, pts, since);
    if |log| - k > limit {
      PtsIncrease(log, pts, k + limit - 1, |log| - 1);
    }
  }

  /** Whatever happens to the server, a log only grows. */
  lemma {:induction false} LogGrows(w: World, ops: seq<Op>, u: int)
    requires Inv(w) && Run(w, ops).Some?
    ensures Inv(Run(w, ops).value) && Log(w, u) <= Log(Run(w, ops).value, u)
  {
    if ops != [] {
      var init := ops[..|ops| - 1];
      LogGrows(w, init, u);
      StepInv(Run(w, init).value, ops[|ops| - 1]);
      StepEvolves(Run(w, init).value, ops[|ops| - 1], u);
    }
  }

  /**
   What lay behind the cap is never sent again: after any later operations, a client that took a reply
   is sent exactly the entries logged after that reply, however many were pending then.
   */
  lemma CutEntriesAreNeverSent(w: World, u: int, c: Client, ops: seq<Op>)
    requires Reachable(w) && Run(w, ops).Some? && Pending(Log(w, u), c.pts) != []
    ensures var later := Log(Run(w, ops).value, u);
            && Log(w, u) <= later
            && Pending(later, AfterReply(w, u, c).pts) == later[|Log(w, u)|..]
  {
    ReachableInv(w);
    var v := Run(w, ops).value;
    LogGrows(w, ops, u);
    LogGapless(w, u);
    LogGapless(v, u);
    assert PtsBefore(Log(v, u), |Log(w, u)|) == PtsOf(w, u);
    PendingFromBoundary(Log(v, u), PtsOf(v, u), |Log(w, u)|);
  }

  ghost predicate NothingNew(w: World, u: int, c: Client) {
    ApplyAll(SightOf(w, u), ApplyAll(SightOf(w, u), c.held, News([])), Others([])) == c.held
  }

  /** Server operations and handler calls of `u`'s client, interleaved in any order. */
  datatype Turn = Served(op: Op) | Asked

  function TurnEvent(t: Turn): Event {
    match t
    case Served(op) => Serve(op)
    case Asked => Poll(DIFFERENCE_LIMIT)
  }

  ghost function Converse(u: int, turns: seq<Turn>): Option<Scene> {
    if turns == [] then Some(Scene(INITIAL, Client(0, map[])))
    else
      match Converse(u, turns[..|turns| - 1])
      case None => None
      case Some(x) =>
        match turns[|turns| - 1]
        case Served(op) => if Enabled(x.world, op) then Some(Scene(Step(x.world, op), x.client)) else None
        case Asked => Some(Scene(x.world, AfterReply(x.world, u, x.client)))
  }

  /** The client never asks with more than the cap pending. */
  ghost predicate NeverCut(u: int, turns: seq<Turn>) {
    forall n | 0 <= n < |turns| && turns[n].Asked? && Converse(u, turns[..n]).Some? ::
      var x := Converse(u, turns[..n]).value;
      |Pending(Log(x.world, u), x.client.pts)| <= DIFFERENCE_LIMIT
  }

  function EventsOf(turns: seq<Turn>): seq<Event> {
    seq(|turns|, i requires 0 <= i < |turns| => TurnEvent(turns[i]))
  }

  lemma {:induction false} ConverseIsPlay(u: int, turns: seq<Turn>)
    requires NeverCut(u, turns)
    ensures Play(u, EventsOf(turns)) == Converse(u, turns)
    ensures Converse(u, turns).Some? ==> Reachable(Converse(u, turns).value.world)
  {
    if turns == [] {
      assert Run(INITIAL, []) == Some(INITIAL);
    } else {
      var n := |turns| - 1;
      var init := turns[..n];
      assert forall m | 0 <= m < n :: init[..m] == turns[..m];
      ConverseIsPlay(u, init);
      assert EventsOf(turns)[..n] == EventsOf(init);
      if Converse(u, init).Some? {
        var x := Converse(u, init).value;
        if turns[n].Asked? {
          CapIsHarmlessIff(x.world, u, x.client);
        } else if Enabled(x.world, turns[n].op) {
          ReachableStep(x.world, turns[n].op);
        }
      }
    }
  }

  /**
   Over every interleaving of server operations and handler calls, none of them cut: right after
   a call the client's pts is current and it holds what a full replay of the log gives.
   */
  lemma HandlerConverges(u: int, turns: seq<Turn>)
    requires turns != [] && turns[|turns| - 1].Asked?
    requires NeverCut(u, turns) && Converse(u, turns).Some?
    ensures var x := Converse(u, turns).value;
            && x.client.pts == PtsOf(x.world, u)
            && x.client.held == Replay(SightOf(x.world, u), Log(x.world, u))
  {
    var init := turns[..|turns| - 1];
    var x, y := Converse(u, turns).value, Converse(u, init).value;
    ConverseIsPlay(u, turns);
    PlayOnTrack(u, EventsOf(turns));
    LogGapless(x.world, u);
    var k :| 0 <= k <= |Log(x.world, u)| && x.client.pts == PtsBefore(Log(x.world, u), k)
             && Synced(SightOf(x.world, u), Log(x.world, u), k, x.client.held);
    if Pending(Log(y.world, u), y.client.pts) == [] {
      PendingFromBoundary(Log(x.world, u), PtsOf(x.world, u), k);
      assert k == |Log(x.world, u)|;
    }
    CatchUpConverges(u, EventsOf(turns));
  }

  // --- what a cut reply loses -----------------------------------------------------------

  /** Two `new` entries of one log announce different local ids. */
  lemma AnnouncedApart(s: Sight, a: Account, i: int, j: int)
    requires Sound(s) && s.box == a.box && LogOk(a)
    requires 0 <= i < j < |a.log| && a.log[i].update.New? && a.log[j].update.New?
    ensures LocalOf(s, a.log[i].update.globalId) < LocalOf(s, a.log[j].update.globalId)
  {
    NewEntryLocal(s, a, i);
    NewEntryLocal(s, a, j);
    NewIdsAt(a.log[..j], i);
    assert a.log[..j][..i] == a.log[..i];
  }

  lemma AnnouncedOnce(s: Sight, a: Account, n: int, l: int)
    requires Sound(s) && s.box == a.box && LogOk(a) && 0 <= n <= |a.log|
    requires l in Announced(s, a.log[..n])
    ensures l !in Announced(s, a.log[n..])
  {
    var log := a.log;
    var d :| d in log[..n] && d.update.New? && LocalOf(s, d.update.globalId) == l;
    var i :| 0 <= i < n && log[i] == d;
    if l in Announced(s, log[n..]) {
      var e :| e in log[n..] && e.update.New? && LocalOf(s, e.update.globalId) == l;
      var k :| 0 <= k < |log| - n && log[n..][k] == e;
      AnnouncedApart(s, a, i, n + k);
    }
  }

  /**
   A client synchronised with the first `n` entries already holds the final messages exactly when
   the rest announces nothing that stays, deletes nothing it holds, and no view it holds is stale.
   */
  lemma MissesNothingIff(w: World, u: int, n: int, held: map<int, View>)
    requires Reachable(w) && Synced(SightOf(w, u), Log(w, u), n, held)
    ensures var s, rest := SightOf(w, u), Log(w, u)[n..];
            held == Replay(s, Log(w, u)) <==>
            && Announced(s, rest) <= DeletedIds(rest)
            && held.Keys !! DeletedIds(rest)
            && forall l | l in held :: Current(s, l, held[l])
  {
    ReachableInv(w);
    WorldReplayable(w, u);
    BoxesOkHere(w, u);
    var s, log := SightOf(w, u), Log(w, u);
    ReplaySynced(s, log);
    assert log == log[..n] + log[n..] && log[..|log|] == log && log[|log|..] == [];
    BatchConcat(s, log[..n], log[n..]);
    ReplayablePart(s, log, n, |log|);
    assert log[n..|log|] == log[n..];
    assert Touched(s, []) == {};
    var full := Replay(s, log);
    if held == full {
      forall l | l in Announced(s, log[n..]) ensures l in DeletedIds(log[n..]) {
        if u in w.accounts && l in Announced(s, log[..n]) {
          assert LogOk(w.accounts[u]);
          AnnouncedOnce(s, w.accounts[u], n, l);
        }
      }
    }
    if Announced(s, log[n..]) <= DeletedIds(log[n..]) && held.Keys !! DeletedIds(log[n..])
       && forall l | l in held :: Current(s, l, held[l]) {
      assert Synced(s, log, |log|, held);
      SyncedIsUnique(s, log, held, full);
    }
  }

  /** `n` notes the built-in account sends to itself. */
  function Notes(n: nat): seq<Op> {
    seq(n, _ => SendOp(BOT_FATHER_ID, BOT_FATHER_ID, "", 0, 0, 0))
  }

  ghost predicate Noted(w: World, n: nat) {
    && BOT_FATHER_ID in w.accounts
    && w.accounts[BOT_FATHER_ID].lastId == w.accounts[BOT_FATHER_ID].pts == n
    && |Box(w, BOT_FATHER_ID)| == |Log(w, BOT_FATHER_ID)| == n
    && forall i | 0 <= i < n :: Log(w, BOT_FATHER_ID)[i].update.New? && Log(w, BOT_FATHER_ID)[i].pts == i + 1
  }

  lemma NoteSent(w: World, n: nat)
    requires Inv(w) && Noted(w, n)
    ensures Noted(Send(w, BOT_FATHER_ID, BOT_FATHER_ID, "", 0, 0, 0), n + 1)
  {
    SendBoxes(w, BOT_FATHER_ID, BOT_FATHER_ID, "", 0, 0, 0, BOT_FATHER_ID);
  }

  lemma NotesStep(n: nat, w: World)
    requires Run(INITIAL, Notes(n)) == Some(w) && BOT_FATHER_ID in w.accounts
    ensures Run(INITIAL, Notes(n + 1)) == Some(Send(w, BOT_FATHER_ID, BOT_FATHER_ID, "", 0, 0, 0))
  {
    assert Notes(n + 1)[..n] == Notes(n);
  }

  lemma {:induction false} NotesRun(n: nat)
    ensures Run(INITIAL, Notes(n)).Some? && Noted(Run(INITIAL, Notes(n)).value, n)
    ensures Reachable(Run(INITIAL, Notes(n)).value)
  {
    if n > 0 {
      NotesRun(n - 1);
      var w := Run(INITIAL, Notes(n - 1)).value;
      ReachableInv(w);
      NoteSent(w, n - 1);
      NotesStep(n - 1, w);
    }
  }

  /**
   A client that starts with nothing after `n` notes: one reply makes its pts current, yet it holds
   only the first `DIFFERENCE_LIMIT` of them. So 1001 pending messages are enough to lose one.
   */
  lemma CutReplyLosesMessages(n: nat)
    ensures Run(INITIAL, Notes(n)).Some?
    ensures var w := Run(INITIAL, Notes(n)).value;
            var after := AfterReply(w, BOT_FATHER_ID, Client(0, map[]));
            && after.pts == PtsOf(w, BOT_FATHER_ID) == n
            && (forall l :: l in after.held <==> 1 <= l <= n && l <= DIFFERENCE_LIMIT)
            && (forall l :: l in Replay(SightOf(w, BOT_FATHER_ID), Log(w, BOT_FATHER_ID)) <==> 1 <= l <= n)
  {
    NotesRun(n);
    var w := Run(INITIAL, Notes(n)).value;
    var u := BOT_FATHER_ID;
    var s, log := SightOf(w, u), Log(w, u);
    ReachableInv(w);
    WorldReplayable(w, u);
    LogGapless(w, u);
    PendingFromBoundary(log, n, 0);
    var m := if n <= DIFFERENCE_LIMIT then n else DIFFERENCE_LIMIT;
    assert Limited(log, DIFFERENCE_LIMIT) == log[..m] && log[0..] == log;
    NotesHeld(w, n, m);
    NotesHeld(w, n, n);
    assert log[..n] == log;
    ReplayablePart(s, log, 0, m);
    assert log[0..m] == log[..m];
    ReorderingIsHarmless(s, map[], log[..m]);
  }

  lemma NoteLocal(w: World, n: nat, i: nat)
    requires Inv(w) && Noted(w, n) && i < n
    ensures LocalOf(SightOf(w, BOT_FATHER_ID), Log(w, BOT_FATHER_ID)[i].update.globalId) == i + 1
  {
    var a := w.accounts[BOT_FATHER_ID];
    BoxesOkHere(w, BOT_FATHER_ID);
    assert LogOk(a);
    NewEntryLocal(SightOf(w, BOT_FATHER_ID), a, i);
    AllNew(a.log[..i]);
  }

  lemma AnnouncedRange(s: Sight, part: seq<Entry>)
    requires forall i | 0 <= i < |part| :: part[i].update.New? && LocalOf(s, part[i].update.globalId) == i + 1
    ensures forall l :: l in Announced(s, part) <==> 1 <= l <= |part|
  {
    forall l ensures l in Announced(s, part) <==> 1 <= l <= |part| {
      if 1 <= l <= |part| {
        assert part[l - 1] in part;
      }
    }
  }

  lemma NotesAnnounce(w: World, n: nat, m: nat)
    requires Inv(w) && Noted(w, n) && m <= n
    ensures forall l :: l in Announced(SightOf(w, BOT_FATHER_ID), Log(w, BOT_FATHER_ID)[..m]) <==> 1 <= l <= m
  {
    var part := Log(w, BOT_FATHER_ID)[..m];
    forall i | 0 <= i < m ensures LocalOf(SightOf(w, BOT_FATHER_ID), part[i].update.globalId) == i + 1 {
      NoteLocal(w, n, i);
    }
    AnnouncedRange(SightOf(w, BOT_FATHER_ID), part);
  }

  /** Applying the first `m` notes yields the local ids 1..m. */
  lemma NotesHeld(w: World, n: nat, m: nat)
    requires Reachable(w) && Noted(w, n) && m <= n
    ensures forall l :: l in ApplyAll(SightOf(w, BOT_FATHER_ID), map[], Log(w, BOT_FATHER_ID)[..m]) <==> 1 <= l <= m
  {
    ReachableInv(w);
    var s, log := SightOf(w, BOT_FATHER_ID), Log(w, BOT_FATHER_ID);
    WorldReplayable(w, BOT_FATHER_ID);
    ReplayablePart(s, log, 0, m);
    assert log[0..m] == log[..m];
    ApplyAllOutcome(s, map[], log[..m]);
    NotesAnnounce(w, n, m);
    assert DeletedIds(log[..m]) == {};
  }

  lemma {:induction false} AllNew(log: seq<Entry>)
    requires forall i | 0 <= i < |log| :: log[i].update.New?
    ensures |NewIds(log)| == |log|
  {
    if log != [] {
      AllNew(log[..|log| - 1]);
    }
  }
}
