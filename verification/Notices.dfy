/**
 What the replies of the difference handler tell a client beside the messages it holds: each update says
 what one log entry says, everybody they name is among the users, and a client that keeps the greatest
 read ids it was told knows what has been read.
 */
module Notices {
  import opened Prelude
  import opened Messaging
  import opened Structure
  import opened UpdateLog
  import opened ReadState
  import opened ReadLog
  import opened History
  import opened Deletions
  import opened Difference
  import opened CatchUp
  import opened Invariant
  import opened Convergence
  import opened Watermarks
  import opened Readers
  import opened UpdatesHandler

  // --- one reply ----------------------------------------------------------------------

  /** The update says what the log entry says: the same kind, payload, pts and count. */
  ghost predicate Tells(s: Sight, e: Entry, u: OtherUpdate) {
    match u
    case EditMessage(v, pts, count) =>
      e.pts == pts && e.ptsCount == count && e.update.Edit? && ViewByGlobal(s, e.update.globalId) == Some(v)
    case DeleteMessages(ids, pts, count) => e.pts == pts && e.ptsCount == count && e.update == Delete(ids)
    case ReadHistoryInbox(peer, maxId, pts, count) =>
      e.pts == pts && e.ptsCount == count && e.update == ReadInbox(peer, maxId)
    case ReadHistoryOutbox(peer, maxId, pts, count) =>
      e.pts == pts && e.ptsCount == count && e.update == ReadOutbox(peer, maxId)
  }

  lemma {:induction false} OthersTell(s: Sight, entries: seq<Entry>, u: OtherUpdate)
    ensures u in OtherUpdates(s, entries) <==> exists e :: e in entries && Tells(s, e, u)
  {
    if entries != [] {
      var init, last := entries[..|entries| - 1], entries[|entries| - 1];
      assert forall e :: e in entries <==> e in init || e == last;
      OthersTell(s, init, u);
      OneTells(s, last, u);
    }
  }

  lemma OneTells(s: Sight, e: Entry, u: OtherUpdate)
    ensures u in Translated(s, e) <==> Tells(s, e, u)
  {
  }

  lemma {:induction false} NewsTell(s: Sight, entries: seq<Entry>, v: View)
    ensures v in NewMessages(s, entries) <==>
            exists e :: e in entries && e.update.New? && ViewByGlobal(s, e.update.globalId) == Some(v)
  {
    if entries != [] {
      var init, last := entries[..|entries| - 1], entries[|entries| - 1];
      assert entries == init + [last];
      NewsTell(s, init, v);
    }
  }

  ghost predicate PtsAscending(us: seq<OtherUpdate>, last: int) {
    && (forall i, j | 0 <= i < j < |us| :: us[i].pts < us[j].pts)
    && (forall i | 0 <= i < |us| :: us[i].pts <= last)
  }

  lemma AscendingAppend(us: seq<OtherUpdate>, last: int, more: seq<OtherUpdate>, next: int)
    requires PtsAscending(us, last) && last < next && |more| <= 1 && forall u | u in more :: u.pts == next
    ensures PtsAscending(us + more, next)
  {
  }

  /** The updates keep the order of the log. */
  lemma {:induction false} OthersInOrder(s: Sight, entries: seq<Entry>, before: int)
    requires forall i | 0 <= i < |entries| :: before < entries[i].pts
    requires forall i, j | 0 <= i < j < |entries| :: entries[i].pts < entries[j].pts
    ensures PtsAscending(OtherUpdates(s, entries), PtsAfter(entries, before))
  {
    if entries != [] {
      var init, last := entries[..|entries| - 1], entries[|entries| - 1];
      OthersInOrder(s, init, before);
      assert PtsAfter(init, before) < last.pts;
      AscendingAppend(OtherUpdates(s, init), PtsAfter(init, before), Translated(s, last), last.pts);
    }
  }

  /** The local id a `new` entry announces, as a reply shows it. */
  lemma NewsLocal(s: Sight, a: Account, j: int)
    requires Sound(s) && s.box == a.box && LogOk(a) && 0 <= j < |a.log| && a.log[j].update.New?
    ensures ViewByGlobal(s, a.log[j].update.globalId).Some?
    ensures ViewByGlobal(s, a.log[j].update.globalId).value.localId == |NewIds(a.log[..j])| + 1
  {
    LogReplayable(s, a);
    assert a.log[j] in a.log;
    Resolves(s, a.log[j].update.globalId);
    NewEntryLocal(s, a, j);
  }

  lemma NewIdsNext(log: seq<Entry>, n: int)
    requires 0 <= n < |log|
    ensures |NewIds(log[..n + 1])| == |NewIds(log[..n])| + (if log[n].update.New? then 1 else 0)
  {
    assert log[..n + 1][..n] == log[..n];
  }

  ghost predicate Ascending(vs: seq<View>, last: int) {
    && (forall i, j | 0 <= i < j < |vs| :: vs[i].localId < vs[j].localId)
    && (forall i | 0 <= i < |vs| :: vs[i].localId <= last)
  }

  /** So do the new messages: their local ids increase. */
  lemma {:induction false} NewsInOrder(s: Sight, a: Account, k: int, n: int)
    requires Sound(s) && s.box == a.box && LogOk(a) && 0 <= k <= n <= |a.log|
    ensures Ascending(NewMessages(s, a.log[k..n]), |NewIds(a.log[..n])|)
  {
    if k < n {
      NewsInOrder(s, a, k, n - 1);
      NewIdsNext(a.log, n - 1);
      if a.log[n - 1].update.New? {
        NewsLocal(s, a, n - 1);
      }
      assert a.log[k..n] == a.log[k..n - 1] + [a.log[n - 1]];
      NewsNext(s, a.log[k..n - 1], a.log[n - 1], |NewIds(a.log[..n - 1])|);
    }
  }

  lemma NewsNext(s: Sight, part: seq<Entry>, e: Entry, last: int)
    requires Ascending(NewMessages(s, part), last)
    requires e.update.New? ==>
               ViewByGlobal(s, e.update.globalId).Some? && ViewByGlobal(s, e.update.globalId).value.localId == last + 1
    ensures Ascending(NewMessages(s, part + [e]), last + (if e.update.New? then 1 else 0))
  {
    assert (part + [e])[..|part|] == part;
  }

  /** The reply's two lists say exactly what the page of the log says, in its order. */
  lemma ReplySaysThePage(w: World, self: int, since: int, reply: Reply)
    requires Reachable(w) && self in w.accounts && Answers(w, self, since, reply) && reply.DifferenceReply?
    ensures var page, s := Limited(Pending(Log(w, self), since), 1000), SightOf(w, self);
            && (forall u :: u in reply.otherUpdates <==> exists e :: e in page && Tells(s, e, u))
            && (forall v :: v in reply.newMessages <==>
                  exists e :: e in page && e.update.New? && ViewByGlobal(s, e.update.globalId) == Some(v))
    ensures forall i, j | 0 <= i < j < |reply.otherUpdates| :: reply.otherUpdates[i].pts < reply.otherUpdates[j].pts
    ensures forall i, j | 0 <= i < j < |reply.newMessages| ::
              reply.newMessages[i].localId < reply.newMessages[j].localId
  {
    ListsSay(SightOf(w, self), Limited(Pending(Log(w, self), since), 1000));
    PageInOrder(w, self, since, Limited(Pending(Log(w, self), since), 1000));
  }

  lemma ListsSay(s: Sight, page: seq<Entry>)
    ensures forall u :: u in OtherUpdates(s, page) <==> exists e :: e in page && Tells(s, e, u)
    ensures forall v :: v in NewMessages(s, page) <==>
              exists e :: e in page && e.update.New? && ViewByGlobal(s, e.update.globalId) == Some(v)
  {
    forall u ensures u in OtherUpdates(s, page) <==> exists e :: e in page && Tells(s, e, u) {
      OthersTell(s, page, u);
    }
    forall v ensures v in NewMessages(s, page) <==>
      exists e :: e in page && e.update.New? && ViewByGlobal(s, e.update.globalId) == Some(v)
    {
      NewsTell(s, page, v);
    }
  }

  lemma PageInOrder(w: World, self: int, since: int, page: seq<Entry>)
    requires Reachable(w) && self in w.accounts && page == Limited(Pending(Log(w, self), since), 1000)
    ensures PtsAscending(OtherUpdates(SightOf(w, self), page), PtsAfter(page, since))
    ensures Ascending(NewMessages(SightOf(w, self), page), |Box(w, self)|)
  {
    ReachableInv(w);
    BoxesOkHere(w, self);
    assert LogOk(w.accounts[self]);
    OrderOfPage(SightOf(w, self), w.accounts[self], since);
  }

  lemma OrderOfPage(s: Sight, a: Account, since: int)
    requires Sound(s) && s.box == a.box && LogOk(a)
    ensures var page := Limited(Pending(a.log, since), 1000);
            && PtsAscending(OtherUpdates(s, page), PtsAfter(page, since))
            && Ascending(NewMessages(s, page), |a.box|)
  {
    var page := Limited(Pending(a.log, since), 1000);
    var k := PendingIsSuffix(a.log, a.pts, since);
    var n := k + |page|;
    assert page == a.log[k..n];
    forall i, j | 0 <= i < j < |page| ensures page[i].pts < page[j].pts {
      PtsIncrease(a.log, a.pts, k + i, k + j);
    }
    OthersInOrder(s, page, since);
    NewsInOrder(s, a, k, n);
    NewIdsGrow(a.log, n);
    assert |Gids(a.box)| == |a.box|;
  }

  /** The reply carries a message with this sender or partner, or a read of the conversation with the user. */
  ghost predicate Named(reply: Reply, id: int)
    requires reply.DifferenceReply?
  {
    || (exists v :: v in reply.newMessages && (v.from == id || v.peer == id))
    || (exists u :: u in reply.otherUpdates && u.EditMessage? && (u.message.from == id || u.message.peer == id))
    || (exists u :: u in reply.otherUpdates && (u.ReadHistoryInbox? || u.ReadHistoryOutbox?) && u.peer == id)
  }

  lemma NamedIsMentioned(self: int, reply: Reply, id: int)
    requires reply.DifferenceReply?
    ensures id in Everybody(self, reply.newMessages, reply.otherUpdates) <==> id == self || Named(reply, id)
  {
    if exists v :: v in reply.newMessages && (v.from == id || v.peer == id) {
      var v :| v in reply.newMessages && (v.from == id || v.peer == id);
      assert id in Parties(v);
    }
    if exists u :: u in reply.otherUpdates && u.EditMessage? && (u.message.from == id || u.message.peer == id) {
      var u :| u in reply.otherUpdates && u.EditMessage? && (u.message.from == id || u.message.peer == id);
      assert id in Mentioned(u);
    }
    if exists u :: u in reply.otherUpdates && (u.ReadHistoryInbox? || u.ReadHistoryOutbox?) && u.peer == id {
      var u :| u in reply.otherUpdates && (u.ReadHistoryInbox? || u.ReadHistoryOutbox?) && u.peer == id;
      assert id in Mentioned(u);
    }
    if u :| u in reply.otherUpdates && id in Mentioned(u) {
      assert u.EditMessage? || u.ReadHistoryInbox? || u.ReadHistoryOutbox?;
    }
  }

  /** The users of a reply are the caller and the stored users it names, each once, the caller marked. */
  lemma UsersAreThoseNamed(w: World, self: int, since: int, reply: Reply, x: ReplyUser)
    requires Answers(w, self, since, reply) && reply.DifferenceReply?
    ensures x in reply.users <==>
            x.id in w.accounts && x.self == (x.id == self) && (x.id == self || Named(reply, x.id))
    ensures forall i, j | 0 <= i < j < |reply.users| :: reply.users[i].id != reply.users[j].id
  {
    NamedIsMentioned(self, reply, x.id);
    assert UsersListed(w, self, Everybody(self, reply.newMessages, reply.otherUpdates), reply.users);
  }

  // --- all replies together -------------------------------------------------------------

  function OthersOf(reply: Reply): seq<OtherUpdate> {
    match reply
    case DifferenceEmpty => []
    case DifferenceReply(_, others, _, _) => others
  }

  /** The other updates of any reply the handler may give. */
  ghost function NextTold(w: World, u: int, c: Client): seq<OtherUpdate> {
    OtherUpdates(SightOf(w, u), Limited(Pending(Log(w, u), c.pts), DIFFERENCE_LIMIT))
  }

  lemma ReplyTellsNext(w: World, u: int, c: Client, reply: Reply)
    requires Answers(w, u, c.pts, reply)
    ensures OthersOf(reply) == NextTold(w, u, c)
  {
  }

  /** Everything the calls so far told `u`'s client, apart from new messages. */
  ghost function Told(u: int, turns: seq<Turn>): seq<OtherUpdate> {
    if turns == [] then []
    else
      var init := turns[..|turns| - 1];
      if turns[|turns| - 1].Asked? && Converse(u, init).Some?
      then Told(u, init) + NextTold(Converse(u, init).value.world, u, Converse(u, init).value.client)
      else Told(u, init)
  }

  /** The read ids told for the conversation with `peer`: by the account itself, and by the peer. */
  ghost function InboxTold(us: seq<OtherUpdate>, peer: int): set<int> {
    set u | u in us && u.ReadHistoryInbox? && u.peer == peer :: u.maxId
  }

  ghost function OutboxTold(us: seq<OtherUpdate>, peer: int): set<int> {
    set u | u in us && u.ReadHistoryOutbox? && u.peer == peer :: u.maxId
  }

  lemma ReadsTold(s: Sight, entries: seq<Entry>, peer: int)
    ensures InboxTold(OtherUpdates(s, entries), peer) == ReadMarks(entries, peer)
    ensures OutboxTold(OtherUpdates(s, entries), peer) == Receipts(entries, peer)
  {
    var us := OtherUpdates(s, entries);
    forall u ensures u in us <==> exists e :: e in entries && Tells(s, e, u) {
      OthersTell(s, entries, u);
    }
    forall e | e in entries && e.update.ReadInbox? && e.update.peer == peer
      ensures e.update.maxId in InboxTold(us, peer)
    {
      assert Tells(s, e, ReadHistoryInbox(peer, e.update.maxId, e.pts, e.ptsCount));
    }
    forall e | e in entries && e.update.ReadOutbox? && e.update.peer == peer
      ensures e.update.maxId in OutboxTold(us, peer)
    {
      assert Tells(s, e, ReadHistoryOutbox(peer, e.update.maxId, e.pts, e.ptsCount));
    }
  }

  lemma ToldConcat(a: seq<OtherUpdate>, b: seq<OtherUpdate>, peer: int)
    ensures InboxTold(a + b, peer) == InboxTold(a, peer) + InboxTold(b, peer)
    ensures OutboxTold(a + b, peer) == OutboxTold(a, peer) + OutboxTold(b, peer)
  {
    assert forall u :: u in a + b <==> u in a || u in b;
  }

  lemma MarksConcat(a: seq<Entry>, b: seq<Entry>, peer: int)
    ensures ReadMarks(a + b, peer) == ReadMarks(a, peer) + ReadMarks(b, peer)
    ensures Receipts(a + b, peer) == Receipts(a, peer) + Receipts(b, peer)
  {
    assert forall e :: e in a + b <==> e in a || e in b;
  }

  /** The client was told the reads of the first `k` entries, and stands at that boundary. */
  ghost predicate ToldUpTo(log: seq<Entry>, k: int, pts: int, us: seq<OtherUpdate>, peer: int) {
    && 0 <= k <= |log| && pts == PtsBefore(log, k)
    && InboxTold(us, peer) == ReadMarks(log[..k], peer)
    && OutboxTold(us, peer) == Receipts(log[..k], peer)
  }

  lemma ToldAfterAsking(w: World, u: int, c: Client, k: int, us: seq<OtherUpdate>, peer: int)
    requires Inv(w) && ToldUpTo(Log(w, u), k, c.pts, us, peer) && |Pending(Log(w, u), c.pts)| <= DIFFERENCE_LIMIT
    ensures ToldUpTo(Log(w, u), |Log(w, u)|, AfterReply(w, u, c).pts, us + NextTold(w, u, c), peer)
  {
    var log := Log(w, u);
    LogGapless(w, u);
    PendingFromBoundary(log, PtsOf(w, u), k);
    assert log[..k] + log[k..] == log && log[..|log|] == log;
    ReadsTold(SightOf(w, u), log[k..], peer);
    ToldConcat(us, NextTold(w, u, c), peer);
    MarksConcat(log[..k], log[k..], peer);
  }

  lemma ToldStays(w: World, op: Op, u: int, k: int, pts: int, us: seq<OtherUpdate>, peer: int)
    requires Inv(w) && Enabled(w, op) && ToldUpTo(Log(w, u), k, pts, us, peer)
    ensures ToldUpTo(Log(Step(w, op), u), k, pts, us, peer)
  {
    StepEvolves(w, op, u);
    assert Log(Step(w, op), u)[..k] == Log(w, u)[..k];
  }

  lemma NothingTold(u: int, peer: int)
    ensures ToldUpTo(Log(INITIAL, u), 0, 0, [], peer)
  {
    assert Log(INITIAL, u) == [];
    assert InboxTold([], peer) == {} && OutboxTold([], peer) == {};
  }

  lemma {:induction false} ToldWhatWasLogged(u: int, turns: seq<Turn>, peer: int) returns (k: int)
    requires NeverCut(u, turns) && Converse(u, turns).Some?
    ensures var x := Converse(u, turns).value;
            && Inv(x.world) && ToldUpTo(Log(x.world, u), k, x.client.pts, Told(u, turns), peer)
            && (turns != [] && turns[|turns| - 1].Asked? ==> k == |Log(x.world, u)|)
  {
    if turns == [] {
      k := 0;
      InitialInv();
      NothingTold(u, peer);
    } else {
      var n := |turns| - 1;
      var init := turns[..n];
      assert forall m | 0 <= m < n :: init[..m] == turns[..m];
      k := ToldWhatWasLogged(u, init, peer);
      var x := Converse(u, init).value;
      if turns[n].Asked? {
        ToldAfterAsking(x.world, u, x.client, k, Told(u, init), peer);
        k := |Log(x.world, u)|;
      } else {
        StepInv(x.world, turns[n].op);
        ToldStays(x.world, turns[n].op, u, k, x.client.pts, Told(u, init), peer);
      }
    }
  }

  /** A message to `b` has been read by `b` exactly when its id is at most the greatest id of those `b` has read. */
  lemma ReadUpToTheGreatest(w: World, a: int, b: int, r: Ref)
    requires Reachable(w) && r in Box(w, a) && Outgoing(w.messages, a, b, r)
    ensures HasRead(Box(w, b), r.globalId) <==>
            r.localId <= Max0(ReadBy(w.messages, a, b, Box(w, a), Box(w, b)))
  {
    ReachableInv(w);
    BoxesOk(w, a);
    BoxesOk(w, b);
    assert PrefixRead(w.messages, b, Box(w, b));
    if Outgoing(w.messages, a, b, r) {
      assert Participant(w.messages, b, r.globalId);
      assert Holds(Box(w, b), r.globalId);
    }
    ReadUpTo(w.messages, a, b, Box(w, a), Box(w, b), r);
  }

  lemma ReadUpTo(ms: seq<Message>, a: int, b: int, box: seq<Ref>, peerBox: seq<Ref>, r: Ref)
    requires BoxOk(ms, a, box) && BoxOk(ms, b, peerBox) && PrefixRead(ms, b, peerBox)
    requires r in box && Outgoing(ms, a, b, r) && Holds(peerBox, r.globalId)
    ensures HasRead(peerBox, r.globalId) <==> r.localId <= Max0(ReadBy(ms, a, b, box, peerBox))
  {
    var ids := ReadBy(ms, a, b, box, peerBox);
    if HasRead(peerBox, r.globalId) {
      assert r.localId in ids;
    }
    if r.localId <= Max0(ids) {
      var i :| 0 <= i < |box| && box[i] == r;
      assert ids != {};
      var top :| top in box && Outgoing(ms, a, b, top) && HasRead(peerBox, top.globalId) && top.localId == Max0(ids);
      ReadBelowTop(ms, a, b, box, peerBox, r, top);
    }
  }

  /**
   Over every interleaving of server operations and uncut calls: right after a call the greatest outbox id
   the client was told says exactly which of the account's messages the peer has read, and the inbox ids it
   was told are those of all reads the account logged.
   */
  lemma ClientKnowsWhatIsRead(u: int, turns: seq<Turn>, peer: int)
    requires turns != [] && turns[|turns| - 1].Asked?
    requires NeverCut(u, turns) && Converse(u, turns).Some?
    ensures var w := Converse(u, turns).value.world;
            && InboxTold(Told(u, turns), peer) == ReadMarks(Log(w, u), peer)
            && Max0(OutboxTold(Told(u, turns), peer)) == Max0(ReadBy(w.messages, u, peer, Box(w, u), Box(w, peer)))
            && forall r | r in Box(w, u) && Outgoing(w.messages, u, peer, r) ::
                 HasRead(Box(w, peer), r.globalId) <==> r.localId <= Max0(OutboxTold(Told(u, turns), peer))
  {
    var w := Converse(u, turns).value.world;
    var k := ToldWhatWasLogged(u, turns, peer);
    assert Log(w, u)[..k] == Log(w, u);
    ConverseIsPlay(u, turns);
    ReceiptsAreExact(w, u, peer);
    forall r | r in Box(w, u) && Outgoing(w.messages, u, peer, r)
      ensures HasRead(Box(w, peer), r.globalId) <==>
              r.localId <= Max0(ReadBy(w.messages, u, peer, Box(w, u), Box(w, peer)))
    {
      ReadUpToTheGreatest(w, u, peer, r);
    }
  }
}
