/** What the replies of the dialog handlers hold: their size, order, drafts, users and messages. */
module DialogReplies {
  import opened Prelude
  import opened Messaging
  import opened History
  import opened Watermarks
  import opened Readers
  import opened DbSteps
  import opened DialogsHandler

  // --- messages.getDialogs ---------------------------------------------------------------

  /** At most 100 conversations, or fewer when asked for fewer; one message for each of them. */
  lemma ReplySize(w: World, self: int, limit: int, drafts: seq<Draft>, reply: DialogsReply, list: seq<Dialog>)
    requires Reachable(w) && DialogsAnswer(w, self, limit, drafts, reply) && IsDialogList(w, self, list)
    ensures var most := if 1 <= limit <= 100 then limit else 100;
            |reply.messages| == if |list| < most then |list| else most
    ensures |reply.messages| <= |reply.dialogs|
    ensures forall i | 0 <= i < |reply.messages| ::
              reply.dialogs[|reply.dialogs| - |reply.messages| + i].dialog == list[i]
  {
    var own, page, alone := MergedParts(w, self, limit, drafts, reply);
    DialogListUnique(w, self, own, list);
    TopsMatch(w, self, list, |page|);
  }

  /** The users are the caller, and the peer of every entry. */
  lemma DialogUsers(w: World, self: int, limit: int, drafts: seq<Draft>, reply: DialogsReply, x: ReplyUser)
    requires Reachable(w) && DialogsAnswer(w, self, limit, drafts, reply)
    ensures |reply.users| == 1 + |reply.dialogs| && reply.users[0] == ReplyUser(self, true)
    ensures x in reply.users <==>
            || x == ReplyUser(self, true)
            || (!x.self && exists i :: 0 <= i < |reply.dialogs| && reply.dialogs[i].dialog.peer == x.id)
  {
    var list :| IsDialogList(w, self, list) && Merged(w, self, Limited(list, Clamped(limit)), drafts, reply);
    PageIsShown(w, self, list, limit);
    UsersOfEntries(self, Limited(list, Clamped(limit)), drafts,
                   Uncovered(w.accounts.Keys, Peers(Limited(list, Clamped(limit))), drafts), x);
  }

  lemma UsersOfEntries(self: int, page: seq<Dialog>, drafts: seq<Draft>, alone: seq<Draft>, x: ReplyUser)
    ensures var users := [ReplyUser(self, true)] + Strangers(PeerList(page)) + Strangers(DraftPeers(alone));
            var all := DraftOnly(alone) + Entries(page, drafts);
            && |users| == 1 + |all| && users[0] == ReplyUser(self, true)
            && (x in users <==>
                  || x == ReplyUser(self, true)
                  || (!x.self && exists i :: 0 <= i < |all| && all[i].dialog.peer == x.id))
  {
    var users := [ReplyUser(self, true)] + Strangers(PeerList(page)) + Strangers(DraftPeers(alone));
    var all := DraftOnly(alone) + Entries(page, drafts);
    var n := |alone|;
    if i :| 0 <= i < |all| && all[i].dialog.peer == x.id && !x.self {
      assert users[if i < n then 1 + |page| + i else 1 + i - n] == x;
    }
    if x in users && x != ReplyUser(self, true) {
      var k :| 0 <= k < |users| && users[k] == x;
      assert all[if k <= |page| then n + k - 1 else k - 1 - |page|].dialog.peer == x.id;
    }
  }

  ghost predicate NewestFirst(drafts: seq<Draft>) {
    forall i, j | 0 <= i < j < |drafts| :: drafts[i].date >= drafts[j].date
  }

  lemma {:induction false} UncoveredNewestFirst(accounts: set<int>, covered: set<int>, drafts: seq<Draft>)
    requires NewestFirst(drafts)
    ensures NewestFirst(Uncovered(accounts, covered, drafts))
  {
    if drafts != [] {
      var init := drafts[..|drafts| - 1];
      UncoveredNewestFirst(accounts, covered, init);
      UncoveredMembers(accounts, covered, init);
      var rest := Uncovered(accounts, covered, init);
      forall i | 0 <= i < |rest| ensures rest[i].date >= drafts[|drafts| - 1].date {
        assert rest[i] in init;
      }
    }
  }

  /** Drafts of their own come first, the newest first; then the conversations, the newest first. */
  lemma EntriesInOrder(w: World, self: int, limit: int, drafts: seq<Draft>, reply: DialogsReply, i: int, j: int)
    requires Reachable(w) && DialogsAnswer(w, self, limit, drafts, reply) && NewestFirst(drafts)
    requires 0 <= i < j < |reply.dialogs|
    ensures InOrder(reply.dialogs, |reply.dialogs| - |reply.messages|, i, j)
  {
    var page, alone := PartsInOrder(w, self, limit, drafts, reply);
    MergedInOrder(page, drafts, alone, i, j);
  }

  lemma PartsInOrder(w: World, self: int, limit: int, drafts: seq<Draft>, reply: DialogsReply)
    returns (page: seq<Dialog>, alone: seq<Draft>)
    requires Reachable(w) && DialogsAnswer(w, self, limit, drafts, reply) && NewestFirst(drafts)
    ensures reply.dialogs == DraftOnly(alone) + Entries(page, drafts) && |reply.messages| == |page|
    ensures StrictlyDescending(page, BY_TOP) && NewestFirst(alone)
  {
    var list;
    list, page := MergedPage(w, self, limit, drafts, reply);
    alone := Uncovered(w.accounts.Keys, Peers(page), drafts);
    TopsMatch(w, self, list, |page|);
    UncoveredNewestFirst(w.accounts.Keys, Peers(page), drafts);
  }

  /** Two entries, of which the first `alone` are drafts of their own. */
  predicate InOrder(all: seq<DialogEntry>, alone: int, i: int, j: int)
    requires 0 <= i < j < |all|
  {
    && (j < alone ==> all[i].draft.Some? && all[j].draft.Some? && all[i].draft.value.date >= all[j].draft.value.date)
    && (alone <= i ==> all[i].dialog.top > all[j].dialog.top)
  }

  lemma MergedInOrder(page: seq<Dialog>, drafts: seq<Draft>, alone: seq<Draft>, i: int, j: int)
    requires StrictlyDescending(page, BY_TOP) && NewestFirst(alone) && 0 <= i < j < |alone| + |page|
    ensures InOrder(DraftOnly(alone) + Entries(page, drafts), |alone|, i, j)
  {
    if |alone| <= i {
      assert BY_TOP(page[i - |alone|]) > BY_TOP(page[j - |alone|]);
    }
  }

  /** Every draft for a stored user is shown, with the conversation or on its own. */
  lemma EveryDraftIsShown(w: World, self: int, limit: int, drafts: seq<Draft>, reply: DialogsReply, d: Draft)
    requires Reachable(w) && DialogsAnswer(w, self, limit, drafts, reply) && OnePerPeer(drafts)
    requires d in drafts && d.peer in w.accounts
    ensures exists i :: 0 <= i < |reply.dialogs| && reply.dialogs[i].dialog.peer == d.peer
                        && reply.dialogs[i].draft == Some(d)
  {
    var list, page, alone := MergedParts(w, self, limit, drafts, reply);
    var i := ShownAt(page, drafts, alone, d);
    assert reply.dialogs[i].dialog.peer == d.peer;
  }

  lemma ShownAt(page: seq<Dialog>, drafts: seq<Draft>, alone: seq<Draft>, d: Draft) returns (i: int)
    requires OnePerPeer(drafts) && d in drafts && (d in alone <==> d.peer !in Peers(page))
    ensures var all := DraftOnly(alone) + Entries(page, drafts);
            0 <= i < |all| && all[i].dialog.peer == d.peer && all[i].draft == Some(d)
  {
    if d in alone {
      i :| 0 <= i < |alone| && alone[i] == d;
    } else {
      var e :| e in page && e.peer == d.peer;
      var k :| 0 <= k < |page| && page[k] == e;
      SoleDraft(drafts, d);
      i := |alone| + k;
    }
  }

  // --- messages.getPeerDialogs ------------------------------------------------------------

  /** Each requested peer is looked at on its own, in order. */
  lemma {:induction false} ResolvedConcat(hashes: map<int, int>, caller: int, a: seq<InputPeer>, b: seq<InputPeer>)
    ensures ResolvedAll(hashes, caller, a + b) == ResolvedAll(hashes, caller, a) + ResolvedAll(hashes, caller, b)
    decreases |b|
  {
    if b == [] {
      assert a + b == a;
    } else {
      ResolvedConcat(hashes, caller, a, b[..|b| - 1]);
      assert (a + b)[..|a + b| - 1] == a + b[..|b| - 1];
    }
  }

  /** The caller resolves; so does a stored user with its access hash; a wrong hash contributes nothing. */
  lemma OneResolved(hashes: map<int, int>, caller: int, id: int, hash: int)
    ensures ResolvedAll(hashes, caller, [InputPeerSelf]) == [caller]
    ensures ResolvedAll(hashes, caller, [InputPeerOther]) == []
    ensures id in hashes && hash == hashes[id] ==> ResolvedAll(hashes, caller, [InputPeerUser(id, hash)]) == [id]
    ensures id !in hashes || hash != hashes[id] ==> ResolvedAll(hashes, caller, [InputPeerUser(id, hash)]) == []
  {
    assert [InputPeerSelf][..0] == [] && [InputPeerOther][..0] == [] && [InputPeerUser(id, hash)][..0] == [];
  }

  /** Nobody has an entry but the caller, if asked for, and users whose access hash was given. */
  lemma {:induction false} EntriesAreAllowed(hashes: map<int, int>, caller: int, peers: seq<InputPeer>, id: int)
    ensures id in ResolvedAll(hashes, caller, peers) <==>
            || (id == caller && InputPeerSelf in peers)
            || (id in hashes && InputPeerUser(id, hashes[id]) in peers)
  {
    if peers != [] {
      EntriesAreAllowed(hashes, caller, peers[..|peers| - 1], id);
      assert peers == peers[..|peers| - 1] + [peers[|peers| - 1]];
    }
  }

  /** The newest message of a conversation is in the list exactly for the requested conversations that have one. */
  lemma {:induction false} TopsOfPeers(w: World, self: int, ids: seq<int>, v: View)
    ensures v in Tops(w, self, ids) <==> exists id :: id in ids && v in TopOf(w, self, id)
  {
    if ids != [] {
      var init, last := ids[..|ids| - 1], ids[|ids| - 1];
      assert ids == init + [last];
      TopsOfPeers(w, self, init, v);
      if id :| id in init && v in TopOf(w, self, id) {
        assert id in ids;
      }
    }
  }

  /** The messages of the reply are the tops of the requested conversations that have messages. */
  lemma PeerMessages(w: World, caller: int, ids: seq<int>, drafts: seq<Draft>, reply: PeerDialogsReply, id: int)
    requires Reachable(w) && PeerDialogsAnswer(w, caller, ids, drafts, reply)
    ensures (exists v :: v in reply.messages && v.peer == id) <==>
            id in ids && LiveRefs(w.messages, caller, id, Box(w, caller)) != {}
    ensures forall v | v in reply.messages && v.peer == id :: v.localId == DialogOf(w, caller, id).top
  {
    forall v | v in reply.messages && v.peer == id
      ensures id in ids && LiveRefs(w.messages, caller, id, Box(w, caller)) != {}
      ensures v.localId == DialogOf(w, caller, id).top
    {
      PeerMessageIsTop(w, caller, ids, v);
    }
    if id in ids && LiveRefs(w.messages, caller, id, Box(w, caller)) != {} {
      var v := PeerHasMessage(w, caller, ids, id);
    }
  }

  lemma PeerMessageIsTop(w: World, caller: int, ids: seq<int>, v: View)
    requires Reachable(w) && v in Tops(w, caller, ids)
    ensures v.peer in ids && LiveRefs(w.messages, caller, v.peer, Box(w, caller)) != {}
    ensures v.localId == DialogOf(w, caller, v.peer).top
  {
    TopsOfPeers(w, caller, ids, v);
    var p :| p in ids && v in TopOf(w, caller, p);
    NewestIsWithPeer(w, caller, p);
    TopHasLive(w, caller, p);
    TopIsNewest(w, caller, p);
  }

  lemma PeerHasMessage(w: World, caller: int, ids: seq<int>, id: int) returns (v: View)
    requires Reachable(w) && id in ids && LiveRefs(w.messages, caller, id, Box(w, caller)) != {}
    ensures v in Tops(w, caller, ids) && v.peer == id
  {
    TopIsNewest(w, caller, id);
    NewestIsWithPeer(w, caller, id);
    v := TopOf(w, caller, id)[0];
    TopsOfPeers(w, caller, ids, v);
  }

  /** The users are the caller and the other requested users, each once. */
  lemma PeerUsers(w: World, caller: int, ids: seq<int>, drafts: seq<Draft>, reply: PeerDialogsReply, x: ReplyUser)
    requires PeerDialogsAnswer(w, caller, ids, drafts, reply)
    ensures x in reply.users <==> x == ReplyUser(caller, true) || (!x.self && x.id != caller && x.id in ids)
    ensures forall i, j | 0 <= i < j < |reply.users| :: reply.users[i].id != reply.users[j].id
  {
    NewcomersOnce(caller, ids);
    var others := Newcomers(caller, ids);
    var users := [ReplyUser(caller, true)] + Strangers(others);
    forall i | 0 <= i < |others| ensures others[i] != caller && others[i] in ids {
      assert others[i] in others;
    }
    if x in users && x != ReplyUser(caller, true) {
      var k :| 0 <= k < |users| && users[k] == x;
      assert others[k - 1] == x.id;
    }
    if !x.self && x.id != caller && x.id in ids {
      var k :| 0 <= k < |others| && others[k] == x.id;
      assert users[k + 1] == x;
    }
  }

  predicate Distinct(ids: seq<int>) {
    forall i, j | 0 <= i < j < |ids| :: ids[i] != ids[j]
  }

  lemma {:induction false} NewcomersOnce(caller: int, ids: seq<int>)
    ensures forall id :: id in Newcomers(caller, ids) <==> id in ids && id != caller
    ensures Distinct(Newcomers(caller, ids))
  {
    if ids != [] {
      var init, last := ids[..|ids| - 1], ids[|ids| - 1];
      assert ids == init + [last];
      NewcomersOnce(caller, init);
      assert forall i | 0 <= i < |Newcomers(caller, init)| :: Newcomers(caller, init)[i] in Newcomers(caller, init);
    }
  }

  /** A conversation whose newest message there is has live messages. */
  lemma TopHasLive(w: World, self: int, peer: int)
    requires Reachable(w) && TopOf(w, self, peer) != []
    ensures LiveRefs(w.messages, self, peer, Box(w, self)) != {}
  {
    ReachableBox(w, self);
    ConversationMembers(w.messages, self, peer, 0, Box(w, self));
    var v := TopOf(w, self, peer)[0];
    assert v in Conversation(w.messages, self, peer, 0, Box(w, self));
    var r :| r in Box(w, self) && Listed(w.messages, self, peer, 0, r)
      && v == ViewOf(self, r, MessageAt(w.messages, r.globalId));
    assert r in LiveRefs(w.messages, self, peer, Box(w, self));
  }
}
