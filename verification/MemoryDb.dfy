/**
 The in-memory database: maps, counters and flags updated in place, loops over unordered maps.

 `Abs()` reads the maps as a `World`. Every mutating method is proved to be one step of the
 messaging state machine, so `Valid()` (a represented, reachable world) holds between calls.
 */
module MemoryDb {
  import opened Prelude
  import opened Tables
  import opened DbSteps
  import opened Readers
  import opened Messaging
  import opened Structure
  import opened History
  import opened Invariant
  import opened ReadState
  import opened CatchUp
  import opened Watermarks
  import opened UpdateLog
  import opened Difference
  import opened MessageLaws

  /** The per-account counters of a stored user. */
  datatype MemUser = MemUser(pts: int, lastMessageId: int)

  class DB {
    var users: map<int, MemUser>
    var userSeq: int
    var messages: map<int, Message>
    var msgSeq: int
    var refs: map<int, map<int, Ref>>
    var updates: map<int, seq<Entry>>

    /** The maps are keyed the way the counters say. */
    ghost predicate Represented()
      reads this
    {
      && msgSeq >= 0
      && (forall g :: g in messages <==> 1 <= g <= msgSeq)
      && refs.Keys <= users.Keys
      && (forall u | u in refs :: Dense(refs[u]))
      && updates.Keys <= users.Keys
    }

    ghost function Boxed(u: int): seq<Ref>
      requires Represented()
      reads this
    {
      assert u !in refs ==> Dense(map[]);
      BoxSeq(RefsOf(refs, u))
    }

    ghost function Abs(): World
      requires Represented()
      reads this
    {
      World(userSeq,
            map u | u in users :: Account(users[u].pts, users[u].lastMessageId, Boxed(u), UpdatesOf(updates, u)),
            MessageSeq(messages, msgSeq))
    }

    lemma BoxedIsBox(u: int)
      requires Represented()
      ensures Boxed(u) == Box(Abs(), u)
      ensures Dense(RefsOf(refs, u)) && |RefsOf(refs, u)| == |Box(Abs(), u)|
      ensures Mirrors(messages, Abs().messages)
      ensures forall l | l in RefsOf(refs, u) :: 1 <= l <= |Box(Abs(), u)| && RefsOf(refs, u)[l] == Box(Abs(), u)[l - 1]
    {
    }

    ghost predicate Valid()
      reads this
    {
      Represented() && Reachable(Abs())
    }

    constructor ()
      ensures Valid() && Abs() == INITIAL
    {
      users := map[BOT_FATHER_ID := MemUser(0, 0)];
      userSeq := 0;
      messages := map[];
      msgSeq := 0;
      refs := map[];
      updates := map[];
      new;
      assert Abs() == INITIAL;
      assert Run(INITIAL, []) == Some(INITIAL);
      assert Reachable(INITIAL);
    }

    // --- helpers; each is one update of one account --------------------------------

    method Allocate(userId: int) returns (localId: int, pts: int)
      requires Represented() && userId in Abs().accounts
      modifies this`users
      ensures Represented()
      ensures var a := old(Abs().accounts[userId]);
              && localId == a.lastId + 1 && pts == a.pts + 1
              && Abs() == WithAccount(old(Abs()), userId, a.(pts := pts, lastId := localId))
    {
      var mu := users[userId];
      users := users[userId := MemUser(mu.pts + 1, mu.lastMessageId + 1)];
      localId, pts := mu.lastMessageId + 1, mu.pts + 1;
    }

    method AllocatePts(userId: int, count: int) returns (pts: int)
      requires Represented() && userId in Abs().accounts
      modifies this`users
      ensures Represented()
      ensures var a := old(Abs().accounts[userId]);
              && pts == a.pts + count
              && Abs() == WithAccount(old(Abs()), userId, a.(pts := pts))
    {
      ghost var accounts := Abs().accounts;
      var mu := users[userId];
      pts := mu.pts + count;
      users := users[userId := mu.(pts := pts)];
      assert Abs().accounts == accounts[userId := accounts[userId].(pts := pts)];
    }

    /** The local ids stay dense as long as no id is skipped. */
    ghost predicate FitsNext(userId: int, localId: int)
      reads this
    {
      Represented() && userId in Abs().accounts && 1 <= localId <= |Abs().accounts[userId].box| + 1
    }

    method StoreRef(userId: int, r: Ref)
      modifies this`refs
      ensures refs == old(refs)[userId := RefsOf(old(refs), userId)[r.localId := r]]
      ensures old(FitsNext(userId, r.localId)) ==>
                var a := old(Abs().accounts[userId]);
                Represented() && Abs() == WithAccount(old(Abs()), userId, a.(box := PutRef(a.box, r)))
    {
      var m := RefsOf(refs, userId);
      ghost var fits := FitsNext(userId, r.localId);
      refs := refs[userId := m[r.localId := r]];
      if fits {
        PutKeepsDense(m, r);
      }
    }

    /** Storing under the next id or an old one. */
    method StoreFitting(userId: int, r: Ref)
      requires Represented() && userId in Abs().accounts
      requires 1 <= r.localId <= |Abs().accounts[userId].box| + 1
      modifies this`refs
      ensures Represented()
      ensures var a := old(Abs().accounts[userId]);
              Abs() == WithAccount(old(Abs()), userId, a.(box := PutRef(a.box, r)))
    {
      StoreRef(userId, r);
    }

    method LogUpdate(userId: int, pts: int, ptsCount: int, update: Update, now: int)
      requires Represented() && userId in Abs().accounts
      modifies this`updates
      ensures Represented()
      ensures var a := old(Abs().accounts[userId]);
              Abs() == WithAccount(old(Abs()), userId, a.(log := a.log + [Entry(pts, ptsCount, update, now)]))
    {
      updates := updates[userId := UpdatesOf(updates, userId) + [Entry(pts, ptsCount, update, now)]];
    }

    // --- mutating methods ---------------------------------------------------------

    /** The tail of CreateUser, CreateBot and CreateOwnedBot: a user record under the next id. */
    method CreateAccount() returns (id: int)
      requires Valid()
      modifies this`users, this`userSeq
      ensures Represented() && Abs() == Create(old(Abs())) && id == old(userSeq) + 1
      ensures id != BOT_FATHER_ID ==> Valid() && id !in old(users)
    {
      ghost var w := Abs();
      id := AddUser();
      if id != BOT_FATHER_ID {
        ReachableFresh(w);
      }
    }

    method AddUser() returns (id: int)
      requires Represented()
      modifies this`users, this`userSeq
      ensures Represented() && Abs() == Create(old(Abs())) && id == old(userSeq) + 1
    {
      ghost var w := Abs();
      userSeq := userSeq + 1;
      id := userSeq;
      users := users[id := MemUser(0, 0)];
      assert Boxed(id) == Box(w, id) && UpdatesOf(updates, id) == Log(w, id);
      assert Abs().accounts == w.accounts[id := Account(0, 0, Box(w, id), Log(w, id))];
    }

    /** The canonical record of a new message, under the next global id. */
    method StoreMessage(fromId: int, peerId: int, text: string, randomId: int, mediaFileId: int, now: int)
      returns (m: Message)
      requires Represented()
      modifies this`msgSeq, this`messages
      ensures Represented()
      ensures m == Message(|old(Abs()).messages| + 1, fromId, peerId, text, now, None, randomId, mediaFileId, false)
      ensures Abs() == old(Abs()).(messages := old(Abs()).messages + [m])
    {
      msgSeq := msgSeq + 1;
      m := Message(msgSeq, fromId, peerId, text, now, None, randomId, mediaFileId, false);
      messages := messages[msgSeq := m];
    }

    /** One participant's share of a send: allocate, store the reference, log the message. */
    method DeliverTo(userId: int, globalId: int, out: bool, now: int) returns (localId: int, pts: int)
      requires Represented() && userId in Abs().accounts
      requires Abs().accounts[userId].lastId == |Abs().accounts[userId].box|
      modifies this`users, this`refs, this`updates
      ensures Represented() && Abs() == Deliver(old(Abs()), userId, globalId, out, now)
      ensures localId == old(Abs().accounts[userId]).lastId + 1 && pts == old(Abs().accounts[userId]).pts + 1
    {
      ghost var w := Abs();
      localId, pts := AddRef(userId, globalId, out);
      LogNew(userId, localId, pts, globalId, out, now, w);
    }

    /** The last step of a delivery: the log entry. */
    method LogNew(userId: int, localId: int, pts: int, globalId: int, out: bool, now: int, ghost w: World)
      requires Represented() && userId in w.accounts
      requires localId == w.accounts[userId].lastId + 1 && pts == w.accounts[userId].pts + 1
      requires var a := w.accounts[userId];
               Abs() == WithAccount(w, userId,
                          a.(pts := pts, lastId := localId, box := PutRef(a.box, Ref(localId, globalId, out, !out))))
      modifies this`updates
      ensures Represented() && Abs() == Deliver(w, userId, globalId, out, now)
    {
      LogUpdate(userId, pts, 1, New(globalId), now);
      ghost var a := w.accounts[userId];
      ghost var b := a.(pts := pts, lastId := localId, box := PutRef(a.box, Ref(localId, globalId, out, !out)));
      Overwrite(w.accounts, userId, b, Receive(a, globalId, out, now));
    }

    /** Allocate a local id and a pts, and store the reference under the id. */
    method AddRef(userId: int, globalId: int, out: bool) returns (localId: int, pts: int)
      requires Represented() && userId in Abs().accounts
      requires Abs().accounts[userId].lastId == |Abs().accounts[userId].box|
      modifies this`users, this`refs
      ensures Represented()
      ensures var a := old(Abs().accounts[userId]);
              && localId == a.lastId + 1 && pts == a.pts + 1
              && Abs() == WithAccount(old(Abs()), userId,
                            a.(pts := pts, lastId := localId, box := PutRef(a.box, Ref(localId, globalId, out, !out))))
    {
      ghost var w := Abs();
      localId, pts := Allocate(userId);
      StoreFitting(userId, Ref(localId, globalId, out, !out));
      ghost var a := w.accounts[userId];
      ghost var b := a.(pts := pts, lastId := localId);
      Overwrite(w.accounts, userId, b, b.(box := PutRef(a.box, Ref(localId, globalId, out, !out))));
    }

    method SendMessage(fromId: int, peerId: int, text: string, randomId: int, mediaFileId: int, now: int)
      returns (sent: SentMessage)
      requires Valid() && fromId in Abs().accounts && peerId in Abs().accounts
      modifies this
      ensures Valid() && Abs() == Send(old(Abs()), fromId, peerId, text, randomId, mediaFileId, now)
      ensures sent.globalId == |Abs().messages| && sent.date == now && sent.selfChat == (fromId == peerId)
      ensures sent.senderLocalId == |Box(Abs(), fromId)| && sent.senderPts == old(Abs().accounts[fromId]).pts + 1
      ensures fromId != peerId ==>
                sent.recipientLocalId == |Box(Abs(), peerId)|
                    && sent.recipientPts == old(Abs().accounts[peerId]).pts + 1
      ensures fromId == peerId ==> sent.recipientLocalId == 0 && sent.recipientPts == 0
    {
      ghost var w := Abs();
      ReachableSend(w, fromId, peerId, text, randomId, mediaFileId, now);
      var m := StoreMessage(fromId, peerId, text, randomId, mediaFileId, now);
      var senderLocalId, senderPts := DeliverTo(fromId, m.globalId, true, now);
      sent := SentMessage(m.globalId, now, senderLocalId, senderPts, 0, 0, fromId == peerId);
      if !sent.selfChat {
        var recipientLocalId, recipientPts := DeliverTo(peerId, m.globalId, false, now);
        sent := sent.(recipientLocalId := recipientLocalId, recipientPts := recipientPts);
      }
    }

    /** The account's reference to a canonical message, searched in any order. */
    method RefByGlobal(userId: int, globalId: int) returns (found: Option<Ref>)
      requires Represented() && Increasing(Boxed(userId))
      ensures found == Find(Boxed(userId), globalId)
    {
      var m := RefsOf(refs, userId);
      var rest := m.Keys;
      while rest != {}
        invariant rest <= m.Keys
        invariant forall l | l in m && l !in rest :: m[l].globalId != globalId
      {
        var l := Next(rest);
        rest := rest - {l};
        if m[l].globalId == globalId {
          assert Boxed(userId)[l - 1] == m[l];
          FindUnique(Boxed(userId), m[l]);
          return Some(m[l]);
        }
      }
      forall i | 0 <= i < |Boxed(userId)| ensures Boxed(userId)[i].globalId != globalId {
        assert Boxed(userId)[i] == m[i + 1] && i + 1 in m;
      }
      return None;
    }

    /** Advance the pts by `count` and log the update that used them. */
    method PostUpdate(userId: int, count: int, update: Update, now: int) returns (pts: int)
      requires Represented() && userId in Abs().accounts
      modifies this`users, this`updates
      ensures Represented() && Abs() == Post(old(Abs()), userId, count, update, now)
      ensures pts == old(Abs().accounts[userId]).pts + count
    {
      ghost var w := Abs();
      ghost var a := w.accounts[userId];
      pts := AllocatePts(userId, count);
      assert Abs().accounts[userId] == a.(pts := pts);
      LogUpdate(userId, pts, count, update, now);
      Overwrite(w.accounts, userId, a.(pts := pts), Posted(a, count, update, now));
    }

    method SetMessage(globalId: int, m: Message)
      requires Represented() && Known(Abs().messages, globalId)
      modifies this`messages
      ensures Represented() && Abs() == old(Abs()).(messages := old(Abs()).messages[globalId - 1 := m])
    {
      messages := messages[globalId := m];
    }

    /** The new text; None stands for ErrMessageID. */
    method EditMessage(self: int, localId: int, text: string, now: int) returns (res: Option<EditResult>)
      requires Valid()
      modifies this`messages, this`users, this`updates
      ensures Valid() && Abs() == EditText(old(Abs()), self, localId, text, now)
      ensures res.Some? <==>
                var m := Behind(old(Abs()), self, localId);
                m.Some? && !m.value.deleted && m.value.from == self
      ensures res.Some? ==> EditReported(old(Abs()), self, localId, now, res.value)
    {
      var target := EditTarget(self, localId);
      if target.None? {
        return None;
      }
      var edit := PerformEdit(self, localId, target.value.0, target.value.1, text, now);
      res := Some(edit);
    }

    method PerformEdit(self: int, localId: int, g: int, m: Message, text: string, now: int) returns (res: EditResult)
      requires Valid() && Editable(Abs(), self, localId)
      requires g == Box(Abs(), self)[localId - 1].globalId && m == MessageAt(Abs().messages, g)
      modifies this`messages, this`users, this`updates
      ensures Valid() && Abs() == EditText(old(Abs()), self, localId, text, now)
      ensures EditReported(old(Abs()), self, localId, now, res)
    {
      ghost var w := Abs();
      EditPeerFinds(w, self, localId);
      res := ApplyEdit(self, localId, g, m, text, now);
      ReportFits(w, self, localId, g, m, now, res);
      ReachableEdited(w, self, localId, text, now);
    }

    /** The message an edit is about, with its global id; None where the edit is refused. */
    method EditTarget(self: int, localId: int) returns (target: Option<(int, Message)>)
      requires Represented()
      ensures target.Some? <==> Editable(Abs(), self, localId)
      ensures target.Some? ==>
                && target.value.0 == Box(Abs(), self)[localId - 1].globalId
                && target.value.1 == MessageAt(Abs().messages, target.value.0)
    {
      BoxedIsBox(self);
      var box := RefsOf(refs, self);
      if localId !in box {
        return None;
      }
      var r := box[localId];
      if r.globalId !in messages {
        return None;
      }
      var m := messages[r.globalId];
      if m.deleted || m.from != self {
        return None;
      }
      return Some((r.globalId, m));
    }

    /** The accepted edit: change the message, log it for the sender and for the other side. */
    method ApplyEdit(self: int, localId: int, g: int, m: Message, text: string, now: int) returns (res: EditResult)
      requires Represented() && Editable(Abs(), self, localId)
      requires g == Box(Abs(), self)[localId - 1].globalId && m == MessageAt(Abs().messages, g)
      requires m.peer in Abs().accounts && Finds(Box(Abs(), m.peer), g)
      modifies this`messages, this`users, this`updates
      ensures Represented() && Abs() == EditText(old(Abs()), self, localId, text, now)
      ensures res.selfLocalId == localId && res.peerUserId == m.peer && res.date == m.date && res.editDate == now
      ensures res.selfPts == old(Abs()).accounts[self].pts + 1
      ensures m.peer == self ==> res.peerLocalId == 0 && res.peerPts == 0
      ensures m.peer != self ==>
                && res.peerLocalId == Find(Box(old(Abs()), m.peer), g).value.localId
                && res.peerPts == old(Abs()).accounts[m.peer].pts + 1
    {
      EditFacts(Abs(), self, localId, text, now);
      var selfPts := LogOwnEdit(self, g, m.(text := text, editDate := Some(now)), now);
      res := EditResult(localId, selfPts, m.peer, 0, 0, m.date, now);
      if m.peer != self {
        var peerLocalId, peerPts := LogPeerEdit(m.peer, g, now);
        res := res.(peerLocalId := peerLocalId, peerPts := peerPts);
      }
    }

    /** The sender's share of an edit: the changed message and the log entry. */
    method LogOwnEdit(self: int, g: int, edited: Message, now: int) returns (pts: int)
      requires Represented() && Known(Abs().messages, g) && self in Abs().accounts
      modifies this`messages, this`users, this`updates
      ensures Represented()
      ensures Abs() == Post(old(Abs()).(messages := old(Abs()).messages[g - 1 := edited]), self, 1, Edit(g), now)
      ensures pts == old(Abs()).accounts[self].pts + 1
    {
      SetMessage(g, edited);
      pts := PostUpdate(self, 1, Edit(g), now);
    }

    /** The other side's share of an edit. */
    method LogPeerEdit(peer: int, g: int, now: int) returns (peerLocalId: int, peerPts: int)
      requires Represented() && peer in Abs().accounts && Increasing(Box(Abs(), peer))
      modifies this`users, this`updates
      ensures Represented() && Abs() == Post(old(Abs()), peer, 1, Edit(g), now)
      ensures peerPts == old(Abs()).accounts[peer].pts + 1
      ensures peerLocalId == match Find(Box(old(Abs()), peer), g) case Some(q) => q.localId case None => 0
    {
      BoxedIsBox(peer);
      var pr := RefByGlobal(peer, g);
      peerLocalId := if pr.Some? then pr.value.localId else 0;
      peerPts := PostUpdate(peer, 1, Edit(g), now);
    }

    /** Repeated ids count again; ids the account does not have are skipped. */
    method DeleteMessages(self: int, localIds: seq<int>, now: int) returns (res: DeleteResult)
      requires Valid()
      modifies this`messages, this`users, this`updates
      ensures Valid() && Abs() == DeleteIds(old(Abs()), self, localIds, now)
      ensures res.localIds == Held(Box(old(Abs()), self), localIds) && res.ptsCount == |res.localIds|
      ensures res.ptsCount == |Hits(Box(old(Abs()), self), localIds)|
      ensures res.localIds != [] ==> self in Abs().accounts && res.pts == Abs().accounts[self].pts
      ensures res.localIds == [] ==> res.pts == 0
    {
      ghost var w := Abs();
      ReachableStep(w, DeleteOp(self, localIds, now));
      HeldFromBox(Box(w, self), localIds);
      HeldHits(Box(w, self), localIds);
      var deleted := MarkDeleted(self, localIds);
      res := DeleteResult(0, |deleted|, deleted);
      if |deleted| > 0 {
        var pts := PostUpdate(self, |deleted|, Delete(deleted), now);
        res := res.(pts := pts);
      } else {
        assert GlobalIds(Box(w, self), []) == {};
        assert Marked(w.messages, {}) == w.messages;
      }
    }

    /** The loop over the requested ids. */
    method MarkDeleted(self: int, localIds: seq<int>) returns (deleted: seq<int>)
      requires Represented()
      modifies this`messages
      ensures Represented() && deleted == Held(Box(old(Abs()), self), localIds)
      ensures Abs() == old(Abs()).(messages := Marked(old(Abs()).messages, GlobalIds(Box(old(Abs()), self), deleted)))
    {
      ghost var w := Abs();
      ghost var box := Box(w, self);
      deleted := [];
      assert Marked(w.messages, GlobalIds(box, [])) == w.messages;
      for n := 0 to |localIds|
        invariant Represented()
        invariant deleted == Held(box, localIds[..n])
        invariant Abs() == w.(messages := Marked(w.messages, GlobalIds(box, deleted)))
      {
        assert localIds[..n + 1][..n] == localIds[..n];
        ghost var before := deleted;
        var found := MarkOne(self, localIds[n]);
        if found {
          deleted := deleted + [localIds[n]];
          MarkedOneMore(w, box, before, localIds[n]);
        }
      }
      assert localIds[..|localIds|] == localIds;
    }

    method MarkOne(self: int, localId: int) returns (found: bool)
      requires Represented()
      modifies this`messages
      ensures Represented() && (found <==> 1 <= localId <= |Box(old(Abs()), self)|)
      ensures Abs() == if found then MarkedAt(old(Abs()), Box(old(Abs()), self)[localId - 1].globalId) else old(Abs())
    {
      var m := RefsOf(refs, self);
      assert Box(Abs(), self) == BoxSeq(m);
      found := localId in m;
      if found {
        MarkStored(m[localId].globalId);
      }
    }

    /** Set the shared flag of a message, if it is stored. */
    method MarkStored(globalId: int)
      requires Represented()
      modifies this`messages
      ensures Represented() && Abs() == MarkedAt(old(Abs()), globalId)
    {
      if globalId in messages {
        SetMessage(globalId, messages[globalId].(deleted := true));
      }
    }

    // --- reading a conversation ---------------------------------------------------

    method ReadHistory(self: int, peer: int, maxId: int, now: int) returns (res: ReadResult)
      requires Valid() && self in Abs().accounts
      modifies this`refs, this`users, this`updates
      ensures Valid() && Abs() == Read(old(Abs()), self, peer, maxId, now)
      ensures res.outboxMaxId == ReceiptId(old(Abs()), self, peer, maxId)
      ensures res.unreadCount == |StillUnread(Abs().messages, self, peer, Box(Abs(), self))|
      ensures res.inboxPts == old(Abs()).accounts[self].pts + 1
      ensures res.outboxMaxId > 0 && peer != self ==>
                peer in Abs().accounts && res.outboxPts == old(Abs()).accounts[peer].pts + 1
      ensures !(res.outboxMaxId > 0 && peer != self) ==> res.outboxPts == 0
    {
      ghost var w := Abs();
      ReadFacts(w, self, peer, maxId, now);
      var readGlobals := MarkRead(self, peer, maxId);
      var readSet := set g | g in readGlobals;
      var outboxMaxId := Receipt(peer, readSet);
      var unreadCount := Remaining(self, peer);
      var inboxPts, outboxPts := LogRead(self, peer, maxId, outboxMaxId, now);
      res := ReadResult(inboxPts, unreadCount, outboxPts, outboxMaxId);
    }

    /** Log the read for the reader and, when something of the peer's was read, the receipt for the peer. */
    method LogRead(self: int, peer: int, maxId: int, outboxMaxId: int, now: int) returns (inboxPts: int, outboxPts: int)
      requires Represented() && self in Abs().accounts
      requires outboxMaxId > 0 ==> peer in Abs().accounts
      modifies this`users, this`updates
      ensures Represented()
      ensures var logged := Post(old(Abs()), self, 1, ReadInbox(peer, maxId), now);
              Abs() == if outboxMaxId > 0 && peer != self
                  then Post(logged, peer, 1, ReadOutbox(self, outboxMaxId), now) else logged
      ensures inboxPts == old(Abs()).accounts[self].pts + 1
      ensures outboxPts == if outboxMaxId > 0 && peer != self then old(Abs()).accounts[peer].pts + 1 else 0
    {
      inboxPts := PostUpdate(self, 1, ReadInbox(peer, maxId), now);
      outboxPts := 0;
      if outboxMaxId > 0 && peer != self {
        outboxPts := PostUpdate(peer, 1, ReadOutbox(self, outboxMaxId), now);
      }
    }

    method Receipt(peer: int, readSet: set<int>) returns (max: int)
      requires Represented() && Numbered(Box(Abs(), peer))
      ensures max == Max0(OutgoingIds(Box(Abs(), peer), readSet))
    {
      BoxedIsBox(peer);
      max := OutboxMax(RefsOf(refs, peer), readSet, Boxed(peer));
    }

    method Remaining(self: int, peer: int) returns (n: int)
      requires Represented() && Numbered(Box(Abs(), self))
      ensures n == |StillUnread(Abs().messages, self, peer, Box(Abs(), self))|
    {
      BoxedIsBox(self);
      n := CountUnread(RefsOf(refs, self), messages, self, peer, Boxed(self), Abs().messages);
    }

    /** Clear the unread flag of every reference the read touches, in any order. */
    method MarkRead(self: int, peer: int, maxId: int) returns (readGlobals: seq<int>)
      requires Represented() && self in Abs().accounts && Numbered(Box(Abs(), self))
      modifies this`refs
      ensures Represented()
      ensures Abs() == WithBox(old(Abs()), self, ReadBox(old(Abs()).messages, self, peer, maxId, Box(old(Abs()), self)))
      ensures (set g | g in readGlobals) == ReadGlobals(old(Abs()).messages, self, peer, maxId, Box(old(Abs()), self))
    {
      ghost var w := Abs();
      ghost var ms, box := w.messages, Box(w, self);
      BoxedIsBox(self);
      readGlobals := [];
      var rest := RefsOf(refs, self).Keys;
      ghost var part, globals := box, {};
      MarkingStarts(ms, self, peer, maxId, box, rest);
      WithBoxTwice(w, self, box, box);
      while rest != {}
        invariant Represented() && (forall l :: l in rest ==> 1 <= l <= |box|)
        invariant part == PartRead(ms, self, peer, maxId, box, rest)
        invariant globals == PartGlobals(ms, self, peer, maxId, box, rest)
        invariant Abs() == WithBox(w, self, part)
        invariant forall g :: g in readGlobals <==> g in globals
      {
        var l := Next(rest);
        MarkingStep(w, self, peer, maxId, box, rest, l);
        var touched, g := MarkAt(self, peer, maxId, l);
        rest := rest - {l};
        part := PartRead(ms, self, peer, maxId, box, rest);
        globals := PartGlobals(ms, self, peer, maxId, box, rest);
        if touched {
          readGlobals := readGlobals + [g];
        }
      }
      MarkingEnds(ms, self, peer, maxId, box);
      GlobalsSet(readGlobals, globals);
    }

    /** One visit of the marking loop. */
    method MarkAt(self: int, peer: int, maxId: int, l: int) returns (touched: bool, g: int)
      requires Represented() && self in Abs().accounts
      requires 1 <= l <= |Box(Abs(), self)| && Box(Abs(), self)[l - 1].localId == l
      modifies this`refs
      ensures Represented()
      ensures var box := Box(old(Abs()), self);
              && touched == Reads(old(Abs()).messages, self, peer, maxId, box[l - 1])
              && g == box[l - 1].globalId
              && Abs() == WithBox(old(Abs()), self, if touched then PutRef(box, box[l - 1].(unread := false)) else box)
    {
      BoxedIsBox(self);
      var r := RefsOf(refs, self)[l];
      touched, g := Touches(self, peer, maxId, r), r.globalId;
      if touched {
        StoreFitting(self, r.(unread := false));
      }
    }

    /** The loop's filter: incoming, not above `maxId`, known, and in the conversation with `peer`. */
    predicate Touches(self: int, peer: int, maxId: int, r: Ref)
      requires Represented()
      reads this
      ensures Touches(self, peer, maxId, r) <==> Reads(Abs().messages, self, peer, maxId, r)
    {
      !r.out && r.localId <= maxId && r.globalId in messages && Other(self, messages[r.globalId]) == peer
    }

    // --- read-only methods ------------------------------------------------------------

    method GetHistory(self: int, peer: int, offsetId: int, limit: int) returns (page: seq<View>)
      requires Valid()
      ensures page == Page(Abs().messages, self, peer, offsetId, limit, Box(Abs(), self))
    {
      ReachableBox(Abs(), self);
      BoxedIsBox(self);
      page := HistoryPage(RefsOf(refs, self), messages, self, peer, offsetId, limit, Boxed(self), Abs().messages);
    }

    /** Deleted messages are still found. */
    method MessageByGlobal(self: int, globalId: int) returns (found: Option<View>)
      requires Valid()
      ensures found == ViewByGlobal(SightOf(Abs(), self), globalId)
    {
      ReachableBox(Abs(), self);
      BoxedIsBox(self);
      var r := RefByGlobal(self, globalId);
      if r.None? || globalId !in messages {
        return None;
      }
      return Some(ViewOf(self, r.value, messages[globalId]));
    }

    /** None stands for the error of an unknown user. */
    method GetState(self: int) returns (pts: Option<int>)
      requires Represented()
      ensures pts == if self in Abs().accounts then Some(Abs().accounts[self].pts) else None
    {
      if self !in users {
        return None;
      }
      return Some(users[self].pts);
    }

    method GetDifference(self: int, sincePts: int, limit: int) returns (res: Option<(seq<Entry>, int)>)
      requires Valid()
      ensures res == if self in Abs().accounts
                     then Some((Limited(Pending(Log(Abs(), self), sincePts), limit), Abs().accounts[self].pts))
                     else None
    {
      if self !in users {
        return None;
      }
      ReachableInv(Abs());
      assert LogOk(Abs().accounts[self]);
      var page := DifferencePage(UpdatesOf(updates, self), sincePts, limit, users[self].pts);
      return Some((page, users[self].pts));
    }

    /** One pass over the references, one entry per conversation; then sorted by top message and cut. */
    method GetDialogs(self: int, limit: int) returns (dialogs: seq<Dialog>)
      requires Valid()
      ensures exists list :: IsDialogList(Abs(), self, list) && dialogs == Limited(list, limit)
    {
      ReachableBox(Abs(), self);
      var byPeer := FoldDialogs(self);
      var sorted := OrderDialogs(byPeer, Abs(), self);
      dialogs := Limited(sorted, limit);
    }

    /** The accumulation loop, in any order of the references. */
    method FoldDialogs(self: int) returns (byPeer: map<int, Dialog>)
      requires Valid()
      ensures forall p :: p in byPeer <==> LiveRefs(Abs().messages, self, p, Box(Abs(), self)) != {}
      ensures forall p | p in byPeer :: byPeer[p] == DialogOf(Abs(), self, p)
    {
      ghost var w := Abs();
      ReachableBox(w, self);
      BoxedIsBox(self);
      var m := RefsOf(refs, self);
      var rest := m.Keys;
      byPeer := map[];
      AccumulateNone(w, self, rest);
      while rest != {}
        invariant rest <= m.Keys
        invariant Accumulated(w, self, rest, byPeer)
      {
        var l := Next(rest);
        byPeer := VisitDialog(self, l, byPeer, rest);
        rest := rest - {l};
      }
      AccumulateAll(w, self, byPeer);
    }

    /** One visit of the accumulation loop. */
    method VisitDialog(self: int, l: int, byPeer: map<int, Dialog>, ghost rest: set<int>)
        returns (next: map<int, Dialog>)
      requires Valid() && l in rest && l in RefsOf(refs, self)
      requires Accumulated(Abs(), self, rest, byPeer)
      ensures Accumulated(Abs(), self, rest - {l}, next)
    {
      ghost var w := Abs();
      ReachableBox(w, self);
      BoxedIsBox(self);
      var r := RefsOf(refs, self)[l];
      if r.globalId !in messages || messages[r.globalId].deleted {
        AccumulateSkip(w, self, rest, byPeer, l);
        return byPeer;
      }
      var peer := Other(self, messages[r.globalId]);
      var d := if peer in byPeer then byPeer[peer] else Dialog(peer, 0, 0, 0, 0);
      var read := PeerHasRead(peer, r.globalId);
      AccumulateOne(w, self, rest, byPeer, l, peer, read, Fold(d, r, read));
      return byPeer[peer := Fold(d, r, read)];
    }

    /** Whether the peer's own reference to the message is marked read. */
    method PeerHasRead(peer: int, globalId: int) returns (read: bool)
      requires Valid()
      ensures read == HasRead(Box(Abs(), peer), globalId)
    {
      ReachableBox(Abs(), peer);
      BoxedIsBox(peer);
      read := PeerRead(RefsOf(refs, peer), globalId, Boxed(peer));
    }
  }
}
