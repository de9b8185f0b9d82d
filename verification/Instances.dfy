/** Reachable states in which a statement one would like to make fails. */
module Instances {
  import opened Prelude
  import opened Messaging
  import opened Structure
  import opened UpdateLog
  import opened ReadState
  import opened ReadLog
  import opened Invariant
  import opened CatchUp
  import opened Convergence
  import opened DbSteps
  import opened Watermarks
  import opened Readers
  import opened DialogsHandler

  lemma InitialReachable()
    ensures Reachable(INITIAL)
  {
    assert Run(INITIAL, []) == Some(INITIAL);
  }

  lemma CreatedOne() returns (w: World)
    ensures Reachable(w) && w.accounts.Keys == {BOT_FATHER_ID, 1} && w.messages == []
    ensures forall u :: Box(w, u) == [] && Log(w, u) == []
  {
    InitialReachable();
    ReachableStep(INITIAL, CreateOp);
    w := Create(INITIAL);
  }

  // --- a deletion the other side is not told about -------------------------------------------

  /** The built-in account has written to user 1. */
  lemma FirstMessage() returns (w: World)
    ensures Reachable(w) && |w.messages| == 1
    ensures Box(w, BOT_FATHER_ID) == [Ref(1, 1, true, false)] && Box(w, 1) == [Ref(1, 1, false, true)]
    ensures |Log(w, BOT_FATHER_ID)| == 1 && Log(w, BOT_FATHER_ID)[0].update == New(1)
  {
    var one := CreatedOne();
    ReachableSend(one, BOT_FATHER_ID, 1, "a", 0, 0, 0);
    FirstSeen(one, BOT_FATHER_ID);
    FirstSeen(one, 1);
    w := Send(one, BOT_FATHER_ID, 1, "a", 0, 0, 0);
  }

  lemma FirstSeen(w: World, u: int)
    requires Reachable(w) && BOT_FATHER_ID in w.accounts && 1 in w.accounts
    requires w.messages == [] && Box(w, u) == [] && Log(w, u) == [] && (u == BOT_FATHER_ID || u == 1)
    ensures var v := Send(w, BOT_FATHER_ID, 1, "a", 0, 0, 0);
            && |v.messages| == 1 && Box(v, u) == [Ref(1, 1, u == BOT_FATHER_ID, u != BOT_FATHER_ID)]
            && |Log(v, u)| == 1 && Log(v, u)[0].update == New(1)
  {
    ReachableInv(w);
    SendViews(w, BOT_FATHER_ID, 1, "a", 0, 0, 0, u);
  }

  /** User 1 has deleted that message. */
  lemma FirstMessageDeleted() returns (w: World)
    ensures Reachable(w) && |w.messages| == 1 && w.messages[0].deleted
    ensures Box(w, BOT_FATHER_ID) == [Ref(1, 1, true, false)] && DeletedIds(Log(w, BOT_FATHER_ID)) == {}
  {
    var sent := FirstMessage();
    ReachableStep(sent, DeleteOp(1, [1], 0));
    HeldFromBox(Box(sent, 1), [1]);
    DeleteViews(sent, 1, [1], 0, BOT_FATHER_ID);
    w := DeleteIds(sent, 1, [1], 0);
    var held := Held(Box(sent, 1), [1]);
    assert 1 in held && Box(sent, 1)[1 - 1].globalId in GlobalIds(Box(sent, 1), held);
  }

  /** A replay of the sender's log holds the message, and none of the sender's histories lists it. */
  lemma ReplayCanExceedHistory()
    ensures exists w :: Reachable(w)
              && 1 in Replay(SightOf(w, BOT_FATHER_ID), Log(w, BOT_FATHER_ID))
              && !InSomeHistory(SightOf(w, BOT_FATHER_ID), 1)
  {
    var w := FirstMessageDeleted();
    NotListed(w);
    HeldByReplay(w);
  }

  lemma NotListed(w: World)
    requires Reachable(w) && |w.messages| == 1 && w.messages[0].deleted
    requires Box(w, BOT_FATHER_ID) == [Ref(1, 1, true, false)]
    ensures !InSomeHistory(SightOf(w, BOT_FATHER_ID), 1)
  {
    ReachableInv(w);
    BoxesOkHere(w, BOT_FATHER_ID);
    HistoryIsLive(SightOf(w, BOT_FATHER_ID), 1);
  }

  lemma HeldByReplay(w: World)
    requires Reachable(w) && Box(w, BOT_FATHER_ID) == [Ref(1, 1, true, false)]
        && DeletedIds(Log(w, BOT_FATHER_ID)) == {}
    ensures 1 in Replay(SightOf(w, BOT_FATHER_ID), Log(w, BOT_FATHER_ID))
  {
    ReachableInv(w);
    var s, log := SightOf(w, BOT_FATHER_ID), Log(w, BOT_FATHER_ID);
    WorldReplayable(w, BOT_FATHER_ID);
    ReplaySynced(s, log);
    assert log[..|log|] == log;
    AllAnnounced(s, w.accounts[BOT_FATHER_ID]);
  }

  // --- a user id that reaches the built-in account's --------------------------------------------

  /** The built-in account has sent itself a note, and `n` users were created. */
  lemma {:induction false} NoteThenUsers(n: nat) returns (w: World)
    requires n < BOT_FATHER_ID
    ensures Reachable(w) && w.userSeq == n && BOT_FATHER_ID in w.accounts && w.accounts[BOT_FATHER_ID].pts == 1
  {
    if n == 0 {
      InitialReachable();
      ReachableSend(INITIAL, BOT_FATHER_ID, BOT_FATHER_ID, "", 0, 0, 0);
      w := Send(INITIAL, BOT_FATHER_ID, BOT_FATHER_ID, "", 0, 0, 0);
    } else {
      var v := NoteThenUsers(n - 1);
      ReachableFresh(v);
      w := Create(v);
    }
  }

  /** One more user then takes the built-in account's id, and the invariant is lost. */
  lemma CreateCanBreakInvariant()
    ensures exists w :: Reachable(w) && !Inv(Create(w))
  {
    var w := NoteThenUsers(BOT_FATHER_ID - 1);
    ReachableInv(w);
    CreateKeepsInvariantIff(w);
  }

  // --- a conversation behind the first hundred ------------------------------------------------------

  /** The built-in account has written one message to each of the users 1..n, in this order. */
  ghost predicate Talked(w: World, n: nat) {
    && Reachable(w) && w.userSeq == n
    && |w.messages| == |Box(w, BOT_FATHER_ID)| == n
    && forall i | 0 <= i < n ::
         && Box(w, BOT_FATHER_ID)[i] == Ref(i + 1, i + 1, true, false)
         && w.messages[i].from == BOT_FATHER_ID && w.messages[i].peer == i + 1 && !w.messages[i].deleted
  }

  lemma TalkOneMore(w: World, n: nat) returns (v: World)
    requires Talked(w, n) && n + 1 < BOT_FATHER_ID
    ensures Talked(v, n + 1)
  {
    var more := Joined(w);
    v := Written(more, n + 1);
  }

  /** One more user; no message and no box changes. */
  lemma Joined(w: World) returns (v: World)
    requires Reachable(w) && w.userSeq + 1 != BOT_FATHER_ID
    ensures Reachable(v) && v.userSeq == w.userSeq + 1 && v.messages == w.messages
    ensures Box(v, BOT_FATHER_ID) == Box(w, BOT_FATHER_ID) && BOT_FATHER_ID in v.accounts && w.userSeq + 1 in v.accounts
  {
    ReachableFresh(w);
    ReachableInv(w);
    v := Create(w);
  }

  lemma Written(w: World, peer: int) returns (v: World)
    requires Reachable(w) && peer in w.accounts && BOT_FATHER_ID in w.accounts
    ensures Reachable(v) && v.userSeq == w.userSeq && |v.messages| == |w.messages| + 1 && w.messages <= v.messages
    ensures var m := v.messages[|w.messages|]; m.from == BOT_FATHER_ID && m.peer == peer && !m.deleted
    ensures Box(v, BOT_FATHER_ID) == Box(w, BOT_FATHER_ID)
        + [Ref(|Box(w, BOT_FATHER_ID)| + 1, |w.messages| + 1, true, false)]
  {
    ReachableSend(w, BOT_FATHER_ID, peer, "", 0, 0, 0);
    ReachableInv(w);
    SendBoxes(w, BOT_FATHER_ID, peer, "", 0, 0, 0, BOT_FATHER_ID);
    v := Send(w, BOT_FATHER_ID, peer, "", 0, 0, 0);
  }

  lemma {:induction false} Talk(n: nat) returns (w: World)
    requires n < BOT_FATHER_ID
    ensures Talked(w, n)
  {
    if n == 0 {
      InitialReachable();
      w := INITIAL;
    } else {
      var v := Talk(n - 1);
      w := TalkOneMore(v, n - 1);
    }
  }

  lemma TalkedLive(ms: seq<Message>, box: seq<Ref>, n: nat, p: int)
    requires |ms| == |box| == n < BOT_FATHER_ID
    requires forall i | 0 <= i < n ::
               && box[i] == Ref(i + 1, i + 1, true, false)
               && ms[i].from == BOT_FATHER_ID && ms[i].peer == i + 1 && !ms[i].deleted
    ensures LiveRefs(ms, BOT_FATHER_ID, p, box) == if 1 <= p <= n then {box[p - 1]} else {}
  {
    if 1 <= p <= n {
      assert box[p - 1] in box;
    }
    forall r | r in LiveRefs(ms, BOT_FATHER_ID, p, box) ensures 1 <= p <= n && r == box[p - 1] {
      var i :| 0 <= i < n && box[i] == r;
    }
  }

  lemma TalkedTop(w: World, n: nat, p: int)
    requires Talked(w, n) && n < BOT_FATHER_ID
    ensures LiveRefs(w.messages, BOT_FATHER_ID, p, Box(w, BOT_FATHER_ID)) != {} <==> 1 <= p <= n
    ensures 1 <= p <= n ==> DialogOf(w, BOT_FATHER_ID, p).top == p
  {
    TalkedLive(w.messages, Box(w, BOT_FATHER_ID), n, p);
    if 1 <= p <= n {
      assert LocalIds({Box(w, BOT_FATHER_ID)[p - 1]}) == {p};
    }
  }

  /** The newest conversation is with user n, the oldest with user 1. */
  lemma TalkedList(w: World, n: nat) returns (list: seq<Dialog>)
    requires Talked(w, n) && n < BOT_FATHER_ID
    ensures IsDialogList(w, BOT_FATHER_ID, list) && |list| == n
    ensures forall i | 0 <= i < n :: list[i].peer == n - i
  {
    list := seq(n, i requires 0 <= i < n => DialogOf(w, BOT_FATHER_ID, n - i));
    TalkedPeers(w, n);
    TalkedTops(w, n, list);
    AllListed(w, list, n);
  }

  lemma TalkedPeers(w: World, n: nat)
    requires Talked(w, n) && n < BOT_FATHER_ID
    ensures forall p :: LiveRefs(w.messages, BOT_FATHER_ID, p, Box(w, BOT_FATHER_ID)) != {} <==> 1 <= p <= n
  {
    forall p ensures LiveRefs(w.messages, BOT_FATHER_ID, p, Box(w, BOT_FATHER_ID)) != {} <==> 1 <= p <= n {
      TalkedTop(w, n, p);
    }
  }

  lemma TalkedTops(w: World, n: nat, list: seq<Dialog>)
    requires Talked(w, n) && n < BOT_FATHER_ID && |list| == n
    requires forall i | 0 <= i < n :: list[i] == DialogOf(w, BOT_FATHER_ID, n - i)
    ensures forall i | 0 <= i < n :: list[i].top == n - i
  {
    forall i | 0 <= i < n ensures list[i].top == n - i {
      TalkedTop(w, n, n - i);
    }
  }

  lemma AllListed(w: World, list: seq<Dialog>, n: nat)
    requires |list| == n
    requires forall i | 0 <= i < n :: list[i] == DialogOf(w, BOT_FATHER_ID, n - i) && list[i].top == n - i
    requires forall p :: LiveRefs(w.messages, BOT_FATHER_ID, p, Box(w, BOT_FATHER_ID)) != {} <==> 1 <= p <= n
    ensures IsDialogList(w, BOT_FATHER_ID, list)
  {
    forall p | 1 <= p <= n ensures DialogOf(w, BOT_FATHER_ID, p) in list {
      assert list[n - p] == DialogOf(w, BOT_FATHER_ID, p);
    }
  }

  /** With 101 conversations, asking for the oldest one yields an entry without messages. */
  lemma PeerEntryCanBeEmpty()
    ensures exists w, reply :: Reachable(w) && PeerDialogsAnswer(w, BOT_FATHER_ID, [1], [], reply)
              && |reply.dialogs| == 1 && reply.dialogs[0].dialog != DialogOf(w, BOT_FATHER_ID, 1)
  {
    var w := Talk(101);
    var list := TalkedList(w, 101);
    assert list[100].peer == 1;
    assert PeerFrom(list, DIALOGS_DEFAULT_LIMIT, 1);
    var reply := PeerReply(w, list, 1);
    PeerEntryIsTrueIff(w, BOT_FATHER_ID, [1], [], reply, 0);
  }

  lemma PeerReply(w: World, list: seq<Dialog>, peer: int) returns (reply: PeerDialogsReply)
    requires Reachable(w) && IsDialogList(w, BOT_FATHER_ID, list)
    ensures PeerDialogsAnswer(w, BOT_FATHER_ID, [peer], [], reply)
  {
    ReachableInv(w);
    var page := Limited(list, DIALOGS_DEFAULT_LIMIT);
    reply := PeerDialogsReply(PeerEntries(page, [], [peer]), Tops(w, BOT_FATHER_ID, [peer]),
                              [ReplyUser(BOT_FATHER_ID, true)] + Strangers(Newcomers(BOT_FATHER_ID, [peer])),
                              w.accounts[BOT_FATHER_ID].pts);
  }

  // --- a read ahead of the messages there are --------------------------------------------------

  /** User 1 has read up to id 5 before there was any message. */
  lemma ReadAheadOfAll() returns (w: World)
    ensures Reachable(w) && w.messages == [] && BOT_FATHER_ID in w.accounts && 1 in w.accounts
    ensures Box(w, 1) == [] && |Log(w, 1)| == 1 && Log(w, 1)[0].update == Update.ReadInbox(BOT_FATHER_ID, 5)
  {
    var one := CreatedOne();
    ReachableStep(one, ReadOp(1, BOT_FATHER_ID, 5, 0));
    ReadViews(one, 1, BOT_FATHER_ID, 5, 0, 1);
    ReadAccounts(one, 1, BOT_FATHER_ID, 5, 0, 1);
    w := Read(one, 1, BOT_FATHER_ID, 5, 0);
  }

  /** The first message then arrives unread, at an id the log says was read. */
  lemma ReadAheadMisleads()
    ensures exists w :: Reachable(w) && !MarkIsExact(w, 1, BOT_FATHER_ID)
  {
    var w := ReadAheadOfAll();
    ReachableStep(w, SendOp(BOT_FATHER_ID, 1, "a", 0, 0, 0));
    ArrivesUnread(w);
  }

  lemma ArrivesUnread(w: World)
    requires Reachable(w) && w.messages == [] && BOT_FATHER_ID in w.accounts && 1 in w.accounts
    requires Box(w, 1) == [] && |Log(w, 1)| == 1 && Log(w, 1)[0].update == Update.ReadInbox(BOT_FATHER_ID, 5)
    ensures !MarkIsExact(Send(w, BOT_FATHER_ID, 1, "a", 0, 0, 0), 1, BOT_FATHER_ID)
  {
    ReachableInv(w);
    SendViews(w, BOT_FATHER_ID, 1, "a", 0, 0, 0, 1);
    UnreadBelowMark(Send(w, BOT_FATHER_ID, 1, "a", 0, 0, 0));
  }

  lemma UnreadBelowMark(v: World)
    requires |v.messages| == 1 && v.messages[0].from == BOT_FATHER_ID && v.messages[0].peer == 1
    requires Box(v, 1) == [Ref(1, 1, false, true)]
    requires |Log(v, 1)| >= 1 && Log(v, 1)[0].update == Update.ReadInbox(BOT_FATHER_ID, 5)
    ensures !MarkIsExact(v, 1, BOT_FATHER_ID)
  {
    MarkListed(Log(v, 1), 0, BOT_FATHER_ID);
    assert Incoming(v.messages, 1, BOT_FATHER_ID, Box(v, 1)[0]);
  }
}
