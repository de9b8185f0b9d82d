/** The dialog handlers: conversations merged with drafts, and dialog entries asked for by peer. */
module DialogsHandler {
  import opened Prelude
  import opened Messaging
  import opened Structure
  import opened History
  import opened Invariant
  import opened Watermarks
  import opened Readers
  import opened DbSteps
  import opened MemoryDb

  const DIALOGS_DEFAULT_LIMIT := 100

  datatype Draft = Draft(peer: int, text: string, date: int)

  datatype DialogEntry = DialogEntry(dialog: Dialog, draft: Option<Draft>)

  datatype DialogsReply = DialogsReply(dialogs: seq<DialogEntry>, messages: seq<View>, users: seq<ReplyUser>)

  function Clamped(limit: int): int {
    if limit <= 0 || limit > DIALOGS_DEFAULT_LIMIT then DIALOGS_DEFAULT_LIMIT else limit
  }

  /** Drafts are stored per peer. */
  ghost predicate OnePerPeer(drafts: seq<Draft>) {
    forall i, j | 0 <= i < j < |drafts| :: drafts[i].peer != drafts[j].peer
  }

  /** The draft for a peer; a later one in the list would replace an earlier one. */
  function DraftFor(drafts: seq<Draft>, peer: int): Option<Draft> {
    if drafts == [] then None
    else if drafts[|drafts| - 1].peer == peer then Some(drafts[|drafts| - 1])
    else DraftFor(drafts[..|drafts| - 1], peer)
  }

  lemma {:induction false} DraftForMember(drafts: seq<Draft>, peer: int)
    ensures DraftFor(drafts, peer).Some? <==> exists d :: d in drafts && d.peer == peer
    ensures DraftFor(drafts, peer).Some?
        ==> DraftFor(drafts, peer).value in drafts && DraftFor(drafts, peer).value.peer == peer
  {
    if drafts != [] {
      DraftForMember(drafts[..|drafts| - 1], peer);
      assert drafts == drafts[..|drafts| - 1] + [drafts[|drafts| - 1]];
    }
  }

  /** The map the handlers build from the list of drafts. */
  method DraftsByPeer(drafts: seq<Draft>) returns (byPeer: map<int, Draft>)
    ensures forall p :: DraftFor(drafts, p) == if p in byPeer then Some(byPeer[p]) else None
  {
    byPeer := map[];
    for n := 0 to |drafts|
      invariant forall p :: DraftFor(drafts[..n], p) == if p in byPeer then Some(byPeer[p]) else None
    {
      assert drafts[..n + 1][..n] == drafts[..n];
      byPeer := byPeer[drafts[n].peer := drafts[n]];
    }
    assert drafts[..|drafts|] == drafts;
  }

  // --- messages.getDialogs -------------------------------------------------------

  /** The dialogs whose peer is a stored user. */
  function KnownDialogs(accounts: set<int>, page: seq<Dialog>): seq<Dialog> {
    if page == [] then []
    else
      var d := page[|page| - 1];
      KnownDialogs(accounts, page[..|page| - 1]) + if d.peer in accounts then [d] else []
  }

  function Entries(dialogs: seq<Dialog>, drafts: seq<Draft>): seq<DialogEntry> {
    seq(|dialogs|, i requires 0 <= i < |dialogs| => DialogEntry(dialogs[i], DraftFor(drafts, dialogs[i].peer)))
  }

  function Peers(dialogs: seq<Dialog>): set<int> {
    set d | d in dialogs :: d.peer
  }

  /** The newest message of a conversation, if it has one. */
  function TopOf(w: World, self: int, peer: int): seq<View> {
    Page(w.messages, self, peer, 0, 1, Box(w, self))
  }

  /** The newest message of each conversation, where there is one. */
  function Tops(w: World, self: int, peers: seq<int>): seq<View> {
    if peers == [] then []
    else
      Tops(w, self, peers[..|peers| - 1])
      + TopOf(w, self, peers[|peers| - 1])
  }

  function PeerList(dialogs: seq<Dialog>): seq<int> {
    seq(|dialogs|, i requires 0 <= i < |dialogs| => dialogs[i].peer)
  }

  function Strangers(peers: seq<int>): seq<ReplyUser> {
    seq(|peers|, i requires 0 <= i < |peers| => ReplyUser(peers[i], false))
  }

  /** The drafts of known peers that no listed dialog covers, in order. */
  function Uncovered(accounts: set<int>, covered: set<int>, drafts: seq<Draft>): seq<Draft> {
    if drafts == [] then []
    else
      var d := drafts[|drafts| - 1];
      Uncovered(accounts, covered, drafts[..|drafts| - 1])
      + if d.peer !in covered && d.peer in accounts then [d] else []
  }

  function DraftOnly(drafts: seq<Draft>): seq<DialogEntry> {
    seq(|drafts|, i requires 0 <= i < |drafts| => DialogEntry(Dialog(drafts[i].peer, 0, 0, 0, 0), Some(drafts[i])))
  }

  function DraftPeers(drafts: seq<Draft>): seq<int> {
    seq(|drafts|, i requires 0 <= i < |drafts| => drafts[i].peer)
  }

  /** The reply to a page of dialogs: drafts of their own first, then the page with its drafts. */
  ghost predicate Merged(w: World, self: int, page: seq<Dialog>, drafts: seq<Draft>, reply: DialogsReply) {
    var shown := KnownDialogs(w.accounts.Keys, page);
    var alone := Uncovered(w.accounts.Keys, Peers(shown), drafts);
    && reply.dialogs == DraftOnly(alone) + Entries(shown, drafts)
    && reply.messages == Tops(w, self, PeerList(shown))
    && reply.users == [ReplyUser(self, true)] + Strangers(PeerList(shown)) + Strangers(DraftPeers(alone))
  }

  ghost predicate DialogsAnswer(w: World, self: int, limit: int, drafts: seq<Draft>, reply: DialogsReply) {
    exists list :: IsDialogList(w, self, list) && Merged(w, self, Limited(list, Clamped(limit)), drafts, reply)
  }

  /** What the loop over the page has built after showing some dialogs. */
  ghost predicate Showing(w: World, self: int, shown: seq<Dialog>, drafts: seq<Draft>,
                          entries: seq<DialogEntry>, messages: seq<View>, users: seq<ReplyUser>, seen: set<int>) {
    && entries == Entries(shown, drafts)
    && messages == Tops(w, self, PeerList(shown))
    && users == [ReplyUser(self, true)] + Strangers(PeerList(shown))
    && seen == Peers(shown)
  }

  lemma ShowOneMore(w: World, self: int, shown: seq<Dialog>, drafts: seq<Draft>, d: Dialog,
                    entries: seq<DialogEntry>, messages: seq<View>, users: seq<ReplyUser>, seen: set<int>,
                        top: seq<View>)
    requires Showing(w, self, shown, drafts, entries, messages, users, seen)
    requires top == TopOf(w, self, d.peer)
    ensures Showing(w, self, shown + [d], drafts, entries + [DialogEntry(d, DraftFor(drafts, d.peer))],
                    messages + top, users + [ReplyUser(d.peer, false)], seen + {d.peer})
  {
    var more := shown + [d];
    assert PeerList(more)[..|shown|] == PeerList(shown);
    assert forall x :: x in more <==> x in shown || x == d;
    assert users + [ReplyUser(d.peer, false)] == [ReplyUser(self, true)] + Strangers(PeerList(more));
  }

  /** Looking up one peer: whether it is stored, and the newest message of the conversation. */
  method LookUp(db: DB, self: int, peer: int) returns (known: bool, top: seq<View>)
    requires db.Valid()
    ensures known == (peer in db.Abs().accounts)
    ensures top == TopOf(db.Abs(), self, peer)
  {
    known := peer in db.users;
    top := db.GetHistory(self, peer, 0, 1);
  }

  /** The loop over the page of dialogs. */
  method ShowDialogs(db: DB, self: int, page: seq<Dialog>, drafts: seq<Draft>)
    returns (entries: seq<DialogEntry>, messages: seq<View>, users: seq<ReplyUser>, seen: set<int>)
    requires db.Valid()
    ensures Showing(db.Abs(), self, KnownDialogs(db.Abs().accounts.Keys, page), drafts, entries, messages, users, seen)
  {
    ghost var w := db.Abs();
    var draftByPeer := DraftsByPeer(drafts);
    entries, messages, users, seen := [], [], [ReplyUser(self, true)], {};
    ghost var shown: seq<Dialog> := [];
    for n := 0 to |page|
      invariant shown == KnownDialogs(w.accounts.Keys, page[..n])
      invariant Showing(w, self, shown, drafts, entries, messages, users, seen)
    {
      var d := page[n];
      assert page[..n + 1][..n] == page[..n];
      var known, top := LookUp(db, self, d.peer);
      if known {
        ShowOneMore(w, self, shown, drafts, d, entries, messages, users, seen, top);
        entries := entries + [DialogEntry(d, if d.peer in draftByPeer then Some(draftByPeer[d.peer]) else None)];
        messages := messages + top;
        users := users + [ReplyUser(d.peer, false)];
        seen := seen + {d.peer};
        shown := shown + [d];
      }
    }
    assert page[..|page|] == page;
  }

  /** The loop over the drafts. */
  method ShowDrafts(db: DB, seen: set<int>, drafts: seq<Draft>)
      returns (entries: seq<DialogEntry>, users: seq<ReplyUser>)
    requires db.Represented()
    ensures var alone := Uncovered(db.Abs().accounts.Keys, seen, drafts);
            entries == DraftOnly(alone) && users == Strangers(DraftPeers(alone))
  {
    entries, users := [], [];
    for n := 0 to |drafts|
      invariant entries == DraftOnly(Uncovered(db.Abs().accounts.Keys, seen, drafts[..n]))
      invariant users == Strangers(DraftPeers(Uncovered(db.Abs().accounts.Keys, seen, drafts[..n])))
    {
      var d := drafts[n];
      assert drafts[..n + 1][..n] == drafts[..n];
      if d.peer !in seen && d.peer in db.users {
        users := users + [ReplyUser(d.peer, false)];
        entries := entries + [DialogEntry(Dialog(d.peer, 0, 0, 0, 0), Some(d))];
      }
    }
    assert drafts[..|drafts|] == drafts;
  }

  method MessagesGetDialogs(db: DB, caller: int, limit: int, drafts: seq<Draft>) returns (reply: DialogsReply)
    requires db.Valid()
    ensures DialogsAnswer(db.Abs(), caller, limit, drafts, reply)
  {
    var page := db.GetDialogs(caller, Clamped(limit));
    var entries, messages, users, seen := ShowDialogs(db, caller, page, drafts);
    var alone, more := ShowDrafts(db, seen, drafts);
    reply := DialogsReply(alone + entries, messages, users + more);
  }

  // --- what the merged list says --------------------------------------------------------

  lemma PeerExists(w: World, self: int, peer: int)
    requires Reachable(w) && LiveRefs(w.messages, self, peer, Box(w, self)) != {}
    ensures peer in w.accounts
  {
    ReachableInv(w);
    var r := Pick(LiveRefs(w.messages, self, peer, Box(w, self)));
    assert w.messages[r.globalId - 1].from in w.accounts && w.messages[r.globalId - 1].peer in w.accounts;
  }

  lemma ListedDialog(w: World, self: int, list: seq<Dialog>, i: int)
    requires IsDialogList(w, self, list) && 0 <= i < |list|
    ensures list[i] == DialogOf(w, self, list[i].peer)
    ensures LiveRefs(w.messages, self, list[i].peer, Box(w, self)) != {}
  {
    assert list[i] in list;
  }

  /** A dialog list names each conversation once. */
  lemma PeersOnce(w: World, self: int, list: seq<Dialog>, i: int, j: int)
    requires IsDialogList(w, self, list) && 0 <= i < j < |list|
    ensures list[i].peer != list[j].peer
  {
    ListedDialog(w, self, list, i);
    ListedDialog(w, self, list, j);
    assert BY_TOP(list[i]) > BY_TOP(list[j]);
  }

  /** Every dialog of the page is shown: the peer of a live message is a stored user. */
  lemma {:induction false} AllKnown(w: World, self: int, list: seq<Dialog>, n: int)
    requires Reachable(w) && IsDialogList(w, self, list) && 0 <= n <= |list|
    ensures KnownDialogs(w.accounts.Keys, list[..n]) == list[..n]
  {
    if n > 0 {
      AllKnown(w, self, list, n - 1);
      ListedDialog(w, self, list, n - 1);
      PeerExists(w, self, list[n - 1].peer);
      assert list[..n][..n - 1] == list[..n - 1];
    }
  }

  lemma PageIsShown(w: World, self: int, list: seq<Dialog>, limit: int)
    requires Reachable(w) && IsDialogList(w, self, list)
    ensures KnownDialogs(w.accounts.Keys, Limited(list, Clamped(limit))) == Limited(list, Clamped(limit))
  {
    var n := if Clamped(limit) < |list| then Clamped(limit) else |list|;
    assert Limited(list, Clamped(limit)) == list[..n];
    AllKnown(w, self, list, n);
  }

  /** The first message of a conversation carries the greatest local id of its live references. */
  lemma FirstIsTop(ms: seq<Message>, self: int, peer: int, box: seq<Ref>)
    requires BoxOk(ms, self, box) && LiveRefs(ms, self, peer, box) != {}
    ensures var all := Conversation(ms, self, peer, 0, box);
            all != [] && all[0].localId == Max0(LocalIds(LiveRefs(ms, self, peer, box))) && all[0].localId >= 1
  {
    var live, all := LiveRefs(ms, self, peer, box), Conversation(ms, self, peer, 0, box);
    ConversationMembers(ms, self, peer, 0, box);
    forall r | r in live ensures all != [] && r.localId <= all[0].localId {
      var v := ViewOf(self, r, MessageAt(ms, r.globalId));
      assert Listed(ms, self, peer, 0, r) && v in all;
      var i :| 0 <= i < |all| && all[i] == v;
      assert i > 0 ==> BY_LOCAL_ID(all[0]) > BY_LOCAL_ID(all[i]);
    }
    var some := Pick(live);
    assert all[0] in all;
    var top :| top in box && Listed(ms, self, peer, 0, top) && all[0] == ViewOf(self, top, MessageAt(ms, top.globalId));
    assert top in live && top.localId in LocalIds(live);
    Max0Is(LocalIds(live), all[0].localId);
  }

  /** The newest message of a conversation is the one its dialog entry calls the top. */
  lemma TopIsNewest(w: World, self: int, peer: int)
    requires Reachable(w) && LiveRefs(w.messages, self, peer, Box(w, self)) != {}
    ensures var top := TopOf(w, self, peer);
            |top| == 1 && top[0].localId == DialogOf(w, self, peer).top && top[0].localId >= 1
  {
    ReachableBox(w, self);
    FirstIsTop(w.messages, self, peer, Box(w, self));
  }

  lemma {:induction false} TopsMatch(w: World, self: int, list: seq<Dialog>, n: int)
    requires Reachable(w) && IsDialogList(w, self, list) && 0 <= n <= |list|
    ensures var tops := Tops(w, self, PeerList(list[..n]));
            |tops| == n && forall i | 0 <= i < n :: tops[i].localId == list[i].top && tops[i].peer == list[i].peer
  {
    if n > 0 {
      TopsMatch(w, self, list, n - 1);
      TopOfListed(w, self, list, n - 1);
      assert PeerList(list[..n])[..n - 1] == PeerList(list[..n - 1]);
    }
  }

  lemma TopOfListed(w: World, self: int, list: seq<Dialog>, i: int)
    requires Reachable(w) && IsDialogList(w, self, list) && 0 <= i < |list|
    ensures var top := TopOf(w, self, list[i].peer);
            |top| == 1 && top[0].localId == list[i].top && top[0].peer == list[i].peer
  {
    ListedDialog(w, self, list, i);
    TopIsNewest(w, self, list[i].peer);
    NewestIsWithPeer(w, self, list[i].peer);
  }

  lemma NewestIsWithPeer(w: World, self: int, peer: int)
    requires Reachable(w)
    ensures forall v | v in TopOf(w, self, peer) :: v.peer == peer
  {
    ReachableBox(w, self);
    ConversationMembers(w.messages, self, peer, 0, Box(w, self));
    var all := Conversation(w.messages, self, peer, 0, Box(w, self));
    forall v | v in TopOf(w, self, peer) ensures v in all && v.peer == peer {
    }
  }

  lemma {:induction false} UncoveredMembers(accounts: set<int>, covered: set<int>, drafts: seq<Draft>)
    ensures forall d ::
              d in Uncovered(accounts, covered, drafts) <==>
              d in drafts && d.peer !in covered && d.peer in accounts
    ensures OnePerPeer(drafts) ==> OnePerPeer(Uncovered(accounts, covered, drafts))
  {
    if drafts != [] {
      var init, d := drafts[..|drafts| - 1], drafts[|drafts| - 1];
      UncoveredMembers(accounts, covered, init);
      assert drafts == init + [d];
      if OnePerPeer(drafts) {
        var rest := Uncovered(accounts, covered, init);
        forall i | 0 <= i < |rest| ensures rest[i].peer != d.peer {
          assert rest[i] in init;
        }
      }
    }
  }

  /** What a merged list is made of: drafts of their own first, then the page. */
  lemma MergedParts(w: World, self: int, limit: int, drafts: seq<Draft>, reply: DialogsReply)
    returns (list: seq<Dialog>, page: seq<Dialog>, alone: seq<Draft>)
    requires Reachable(w) && DialogsAnswer(w, self, limit, drafts, reply)
    ensures IsDialogList(w, self, list) && page == Limited(list, Clamped(limit)) && |page| <= |list|
        && page == list[..|page|]
    ensures reply.dialogs == DraftOnly(alone) + Entries(page, drafts)
    ensures reply.messages == Tops(w, self, PeerList(page))
    ensures forall d :: d in alone <==> d in drafts && d.peer !in Peers(page) && d.peer in w.accounts
    ensures OnePerPeer(drafts) ==> OnePerPeer(alone)
    ensures forall i, j | 0 <= i < j < |page| :: page[i].peer != page[j].peer
    ensures forall i | 0 <= i < |page| :: page[i] == DialogOf(w, self, page[i].peer)
  {
    list, page := MergedPage(w, self, limit, drafts, reply);
    alone := Uncovered(w.accounts.Keys, Peers(page), drafts);
    UncoveredMembers(w.accounts.Keys, Peers(page), drafts);
    PageEntries(w, self, list, |page|);
  }

  /** The page behind a merged list, none of whose peers is unknown. */
  lemma MergedPage(w: World, self: int, limit: int, drafts: seq<Draft>, reply: DialogsReply)
    returns (list: seq<Dialog>, page: seq<Dialog>)
    requires Reachable(w) && DialogsAnswer(w, self, limit, drafts, reply)
    ensures IsDialogList(w, self, list) && page == Limited(list, Clamped(limit)) && |page| <= |list|
        && page == list[..|page|]
    ensures KnownDialogs(w.accounts.Keys, page) == page && Merged(w, self, page, drafts, reply)
  {
    list :| IsDialogList(w, self, list) && Merged(w, self, Limited(list, Clamped(limit)), drafts, reply);
    page := Limited(list, Clamped(limit));
    PageIsShown(w, self, list, limit);
  }

  /** The first entries of a dialog list: each conversation's own, each once. */
  lemma PageEntries(w: World, self: int, list: seq<Dialog>, n: int)
    requires IsDialogList(w, self, list) && 0 <= n <= |list|
    ensures forall i, j | 0 <= i < j < n :: list[i].peer != list[j].peer
    ensures forall i | 0 <= i < n :: list[i] == DialogOf(w, self, list[i].peer)
  {
    forall i | 0 <= i < n ensures list[i] == DialogOf(w, self, list[i].peer) {
      ListedDialog(w, self, list, i);
    }
    forall i, j | 0 <= i < j < n ensures list[i].peer != list[j].peer {
      PeersOnce(w, self, list, i, j);
    }
  }

  lemma SoleDraft(drafts: seq<Draft>, d: Draft)
    requires OnePerPeer(drafts) && d in drafts
    ensures DraftFor(drafts, d.peer) == Some(d)
  {
    DraftForMember(drafts, d.peer);
    var a :| 0 <= a < |drafts| && drafts[a] == d;
    var b :| 0 <= b < |drafts| && drafts[b] == DraftFor(drafts, d.peer).value;
  }

  /** Every conversation or drafted peer appears at most once, each with its own draft. */
  lemma EachPeerOnce(w: World, self: int, limit: int, drafts: seq<Draft>, reply: DialogsReply, i: int, j: int)
    requires Reachable(w) && DialogsAnswer(w, self, limit, drafts, reply) && OnePerPeer(drafts)
    requires 0 <= i < |reply.dialogs| && 0 <= j < |reply.dialogs|
    ensures reply.dialogs[i].dialog.peer == reply.dialogs[j].dialog.peer ==> i == j
    ensures reply.dialogs[i].draft == DraftFor(drafts, reply.dialogs[i].dialog.peer)
  {
    var list, page, alone := MergedParts(w, self, limit, drafts, reply);
    MergedOnce(page, drafts, alone, i, j);
  }

  lemma MergedOnce(page: seq<Dialog>, drafts: seq<Draft>, alone: seq<Draft>, i: int, j: int)
    requires OnePerPeer(drafts) && OnePerPeer(alone)
    requires forall a, b | 0 <= a < b < |page| :: page[a].peer != page[b].peer
    requires forall d | d in alone :: d in drafts && d.peer !in Peers(page)
    requires 0 <= i < |alone| + |page| && 0 <= j < |alone| + |page|
    ensures var all := DraftOnly(alone) + Entries(page, drafts);
            && (all[i].dialog.peer == all[j].dialog.peer ==> i == j)
            && all[i].draft == DraftFor(drafts, all[i].dialog.peer)
  {
    var n := |alone|;
    if i < n {
      assert alone[i] in alone;
      SoleDraft(drafts, alone[i]);
    }
    if j < n {
      assert alone[j] in alone;
    }
    if i < n <= j {
      assert page[j - n] in page;
    } else if j < n <= i {
      assert page[i - n] in page;
    }
  }

  /** The messages of the reply are the top messages of the listed dialogs, in the same order. */
  lemma MessagesAreTops(w: World, self: int, limit: int, drafts: seq<Draft>, reply: DialogsReply)
    requires Reachable(w) && DialogsAnswer(w, self, limit, drafts, reply)
    ensures |reply.messages| <= |reply.dialogs|
    ensures var skip := |reply.dialogs| - |reply.messages|;
            && (forall i | 0 <= i < skip :: reply.dialogs[i].dialog.top == 0 && reply.dialogs[i].draft.Some?)
            && (forall i | 0 <= i < |reply.messages| ::
                  && reply.messages[i].localId == reply.dialogs[skip + i].dialog.top
                  && reply.messages[i].peer == reply.dialogs[skip + i].dialog.peer)
  {
    var list, page, alone := MergedParts(w, self, limit, drafts, reply);
    TopsMatch(w, self, list, |page|);
    TopsLineUp(page, drafts, alone, reply.messages);
  }

  lemma TopsLineUp(page: seq<Dialog>, drafts: seq<Draft>, alone: seq<Draft>, tops: seq<View>)
    requires |tops| == |page|
    requires forall i | 0 <= i < |page| ::
               tops[i].localId == page[i].top && tops[i].peer == page[i].peer
    ensures var all := DraftOnly(alone) + Entries(page, drafts);
            var skip := |all| - |tops|;
            && skip == |alone|
            && (forall i | 0 <= i < skip :: all[i].dialog.top == 0 && all[i].draft.Some?)
            && (forall i | 0 <= i < |tops| ::
                  tops[i].localId == all[skip + i].dialog.top && tops[i].peer == all[skip + i].dialog.peer)
  {
  }

  /** The reply has an entry for `peer` that is not the conversation's own. */
  ghost predicate Misreported(w: World, self: int, reply: DialogsReply, peer: int) {
    exists i :: 0 <= i < |reply.dialogs| && reply.dialogs[i].dialog.peer == peer
                && reply.dialogs[i].dialog != DialogOf(w, self, peer)
  }

  /** The peer's entry stands at position `limit` or later. */
  ghost predicate PeerFrom(list: seq<Dialog>, limit: int, peer: int) {
    exists i :: 0 <= i < |list| && limit <= i && list[i].peer == peer
  }

  /** The conversation has live messages but lies behind the first `limit` of the list. */
  ghost predicate CutOff(w: World, self: int, limit: int, peer: int) {
    exists list :: IsDialogList(w, self, list) && PeerFrom(list, limit, peer)
  }

  lemma NoMessagesNoDialog(w: World, self: int, peer: int)
    requires LiveRefs(w.messages, self, peer, Box(w, self)) == {}
    ensures DialogOf(w, self, peer) == Dialog(peer, 0, 0, 0, 0)
  {
    EmptySummary(peer, Box(w, peer));
  }

  lemma HasTop(w: World, self: int, peer: int)
    requires Reachable(w) && LiveRefs(w.messages, self, peer, Box(w, self)) != {}
    ensures DialogOf(w, self, peer).top >= 1
  {
    TopIsNewest(w, self, peer);
  }

  /** Where a conversation stands in the list, from what a page contains. */
  lemma OffPage(w: World, self: int, list: seq<Dialog>, limit: int, peer: int)
    requires IsDialogList(w, self, list) && limit >= 1 && peer !in Peers(Limited(list, limit))
    ensures LiveRefs(w.messages, self, peer, Box(w, self)) != {} <==> CutOff(w, self, limit, peer)
  {
    if LiveRefs(w.messages, self, peer, Box(w, self)) != {} {
      var d := DialogOf(w, self, peer);
      assert d in list;
      var i :| 0 <= i < |list| && list[i] == d;
      if i < limit {
        PageMember(list, limit, i);
      }
      assert PeerFrom(list, limit, peer);
    }
    if CutOff(w, self, limit, peer) {
      var other: seq<Dialog> :| IsDialogList(w, self, other) && PeerFrom(other, limit, peer);
      var i :| 0 <= i < |other| && limit <= i && other[i].peer == peer;
      ListedDialog(w, self, other, i);
    }
  }

  lemma PageMember(list: seq<Dialog>, limit: int, i: int)
    requires 0 <= i < |list| && i < limit
    ensures list[i].peer in Peers(Limited(list, limit))
  {
    assert Limited(list, limit)[i] in Limited(list, limit);
  }

  lemma CutOffIsOffPage(w: World, self: int, list: seq<Dialog>, limit: int, peer: int)
    requires IsDialogList(w, self, list) && limit >= 1 && CutOff(w, self, limit, peer)
    ensures peer !in Peers(Limited(list, limit))
  {
    var other: seq<Dialog> :| IsDialogList(w, self, other) && PeerFrom(other, limit, peer);
    DialogListUnique(w, self, list, other);
    var i :| 0 <= i < |list| && limit <= i && list[i].peer == peer;
    forall d | d in Limited(list, limit) ensures d.peer != peer {
      var j :| 0 <= j < |Limited(list, limit)| && Limited(list, limit)[j] == d;
      PeersOnce(w, self, list, j, i);
    }
  }

  lemma MisreportedAlone(w: World, self: int, limit: int, drafts: seq<Draft>, reply: DialogsReply, peer: int)
    requires Reachable(w) && DialogsAnswer(w, self, limit, drafts, reply) && Misreported(w, self, reply, peer)
    ensures DraftFor(drafts, peer).Some? && peer in w.accounts && CutOff(w, self, Clamped(limit), peer)
  {
    var list, page, alone := MergedParts(w, self, limit, drafts, reply);
    var i :| 0 <= i < |reply.dialogs| && reply.dialogs[i].dialog.peer == peer
        && reply.dialogs[i].dialog != DialogOf(w, self, peer);
    var d := DraftOfEntry(page, drafts, alone, i);
    DraftForMember(drafts, peer);
    if LiveRefs(w.messages, self, peer, Box(w, self)) == {} {
      NoMessagesNoDialog(w, self, peer);
    }
    OffPage(w, self, list, Clamped(limit), peer);
  }

  /** An entry of the merged list that is not one of the page's dialogs belongs to a draft of its own. */
  lemma DraftOfEntry(page: seq<Dialog>, drafts: seq<Draft>, alone: seq<Draft>, i: int) returns (d: Draft)
    requires 0 <= i < |alone| + |page|
    requires i >= |alone| ==> (DraftOnly(alone) + Entries(page, drafts))[i].dialog != page[i - |alone|]
    ensures var all := DraftOnly(alone) + Entries(page, drafts);
            d in alone && all[i].dialog == Dialog(d.peer, 0, 0, 0, 0)
  {
    d := alone[i];
  }

  lemma HiddenByDraft(w: World, self: int, limit: int, drafts: seq<Draft>, reply: DialogsReply, peer: int)
    requires Reachable(w) && DialogsAnswer(w, self, limit, drafts, reply)
    requires DraftFor(drafts, peer).Some? && peer in w.accounts && CutOff(w, self, Clamped(limit), peer)
    ensures Misreported(w, self, reply, peer)
  {
    var list, page, alone := MergedParts(w, self, limit, drafts, reply);
    CutOffIsOffPage(w, self, list, Clamped(limit), peer);
    OffPage(w, self, list, Clamped(limit), peer);
    HasTop(w, self, peer);
    DraftForMember(drafts, peer);
    var d := DraftFor(drafts, peer).value;
    assert d in alone;
    var i :| 0 <= i < |alone| && alone[i] == d;
    assert reply.dialogs[i].dialog == Dialog(peer, 0, 0, 0, 0);
  }

  /**
   A peer is misreported exactly when it is a stored user with a draft whose conversation the limit
   cut off: the draft is then shown as a dialog without messages, although there are some.
   */
  lemma DraftHidesConversationIff(w: World, self: int, limit: int, drafts: seq<Draft>, reply: DialogsReply, peer: int)
    requires Reachable(w) && DialogsAnswer(w, self, limit, drafts, reply)
    ensures Misreported(w, self, reply, peer) <==>
            DraftFor(drafts, peer).Some? && peer in w.accounts && CutOff(w, self, Clamped(limit), peer)
  {
    if Misreported(w, self, reply, peer) {
      MisreportedAlone(w, self, limit, drafts, reply, peer);
    }
    if DraftFor(drafts, peer).Some? && peer in w.accounts && CutOff(w, self, Clamped(limit), peer) {
      HiddenByDraft(w, self, limit, drafts, reply, peer);
    }
  }

  // --- messages.getPeerDialogs ------------------------------------------------------------

  datatype InputPeer = InputPeerSelf | InputPeerUser(id: int, accessHash: int) | InputPeerOther

  datatype PeerDialogsReply = PeerDialogsReply(dialogs: seq<DialogEntry>, messages: seq<View>, users: seq<ReplyUser>,
      pts: int)

  /** The stored user an input peer names; a wrong access hash names nobody. */
  function Resolved(hashes: map<int, int>, caller: int, p: InputPeer): Option<int> {
    match p
    case InputPeerSelf => Some(caller)
    case InputPeerUser(id, hash) => if id in hashes && hashes[id] == hash then Some(id) else None
    case InputPeerOther => None
  }

  /** The peers that resolve, in request order; repetitions stay. `hashes` holds every stored user's access hash. */
  function ResolvedAll(hashes: map<int, int>, caller: int, peers: seq<InputPeer>): seq<int> {
    if peers == [] then []
    else
      var init := ResolvedAll(hashes, caller, peers[..|peers| - 1]);
      match Resolved(hashes, caller, peers[|peers| - 1])
      case Some(id) => init + [id]
      case None => init
  }

  /** The entry of a peer in a page; a peer outside the page gets an empty one. */
  function EntryFor(page: seq<Dialog>, peer: int): Dialog {
    if page == [] then Dialog(peer, 0, 0, 0, 0)
    else if page[|page| - 1].peer == peer then page[|page| - 1]
    else EntryFor(page[..|page| - 1], peer)
  }

  function PeerEntries(page: seq<Dialog>, drafts: seq<Draft>, ids: seq<int>): seq<DialogEntry> {
    seq(|ids|, i requires 0 <= i < |ids| => DialogEntry(EntryFor(page, ids[i]), DraftFor(drafts, ids[i])))
  }

  /** First occurrences of ids other than the caller's. */
  function Newcomers(caller: int, ids: seq<int>): seq<int> {
    if ids == [] then []
    else
      var id := ids[|ids| - 1];
      Newcomers(caller, ids[..|ids| - 1]) + if id == caller || id in ids[..|ids| - 1] then [] else [id]
  }

  /** Only stored users resolve. */
  lemma {:induction false} ResolvedAreStored(hashes: map<int, int>, caller: int, peers: seq<InputPeer>)
    requires caller in hashes
    ensures forall id | id in ResolvedAll(hashes, caller, peers) :: id in hashes
  {
    if peers != [] {
      ResolvedAreStored(hashes, caller, peers[..|peers| - 1]);
    }
  }

  method PageByPeer(page: seq<Dialog>) returns (byPeer: map<int, Dialog>)
    ensures forall p :: EntryFor(page, p) == if p in byPeer then byPeer[p] else Dialog(p, 0, 0, 0, 0)
  {
    byPeer := map[];
    for n := 0 to |page|
      invariant forall p :: EntryFor(page[..n], p) == if p in byPeer then byPeer[p] else Dialog(p, 0, 0, 0, 0)
    {
      assert page[..n + 1][..n] == page[..n];
      byPeer := byPeer[page[n].peer := page[n]];
    }
    assert page[..|page|] == page;
  }

  ghost predicate PeerDialogsAnswer(w: World, caller: int, ids: seq<int>, drafts: seq<Draft>, reply: PeerDialogsReply) {
    && (exists list :: IsDialogList(w, caller, list)
                       && reply.dialogs == PeerEntries(Limited(list, DIALOGS_DEFAULT_LIMIT), drafts, ids))
    && reply.messages == Tops(w, caller, ids)
    && reply.users == [ReplyUser(caller, true)] + Strangers(Newcomers(caller, ids))
    && caller in w.accounts && reply.pts == w.accounts[caller].pts
  }

  /** The loop over the requested peers. */
  method ShowPeers(db: DB, hashes: map<int, int>, caller: int, peers: seq<InputPeer>, byPeer: map<int, Dialog>,
                   draftByPeer: map<int, Draft>, ghost page: seq<Dialog>, ghost drafts: seq<Draft>)
    returns (entries: seq<DialogEntry>, messages: seq<View>, users: seq<ReplyUser>)
    requires db.Valid()
    requires forall p :: EntryFor(page, p) == if p in byPeer then byPeer[p] else Dialog(p, 0, 0, 0, 0)
    requires forall p :: DraftFor(drafts, p) == if p in draftByPeer then Some(draftByPeer[p]) else None
    ensures var ids := ResolvedAll(hashes, caller, peers);
            && entries == PeerEntries(page, drafts, ids)
            && messages == Tops(db.Abs(), caller, ids)
            && users == [ReplyUser(caller, true)] + Strangers(Newcomers(caller, ids))
  {
    ghost var w := db.Abs();
    ghost var ids: seq<int> := [];
    entries, messages, users := [], [], [ReplyUser(caller, true)];
    var seen := {caller};
    for n := 0 to |peers|
      invariant ids == ResolvedAll(hashes, caller, peers[..n])
      invariant ShowingPeers(w, caller, page, drafts, ids, entries, messages, users, seen)
    {
      assert peers[..n + 1][..n] == peers[..n];
      var found := Resolved(hashes, caller, peers[n]);
      if found.Some? {
        var id := found.value;
        var _, top := LookUp(db, caller, id);
        PeerOneMore(w, caller, page, drafts, ids, id, entries, messages, users, seen, top);
        entries := entries + [DialogEntry(if id in byPeer then byPeer[id] else Dialog(id, 0, 0, 0, 0),
                                          if id in draftByPeer then Some(draftByPeer[id]) else None)];
        messages := messages + top;
        if id !in seen {
          users := users + [ReplyUser(id, false)];
          seen := seen + {id};
        }
        ids := ids + [id];
      }
    }
    assert peers[..|peers|] == peers;
  }

  method MessagesGetPeerDialogs(db: DB, hashes: map<int, int>, caller: int, peers: seq<InputPeer>, drafts: seq<Draft>)
    returns (reply: PeerDialogsReply)
    requires db.Valid() && caller in db.Abs().accounts
    requires hashes.Keys == db.Abs().accounts.Keys
    ensures forall id | id in ResolvedAll(hashes, caller, peers) :: id in db.Abs().accounts
    ensures PeerDialogsAnswer(db.Abs(), caller, ResolvedAll(hashes, caller, peers), drafts, reply)
  {
    ResolvedAreStored(hashes, caller, peers);
    ghost var w := db.Abs();
    var page := db.GetDialogs(caller, DIALOGS_DEFAULT_LIMIT);
    var byPeer := PageByPeer(page);
    var draftByPeer := DraftsByPeer(drafts);
    var state := db.GetState(caller);
    var entries, messages, users := ShowPeers(db, hashes, caller, peers, byPeer, draftByPeer, page, drafts);
    reply := PeerDialogsReply(entries, messages, users, state.value);
  }

  ghost predicate ShowingPeers(w: World, caller: int, page: seq<Dialog>, drafts: seq<Draft>, ids: seq<int>,
                               entries: seq<DialogEntry>, messages: seq<View>, users: seq<ReplyUser>, seen: set<int>) {
    && entries == PeerEntries(page, drafts, ids)
    && messages == Tops(w, caller, ids)
    && users == [ReplyUser(caller, true)] + Strangers(Newcomers(caller, ids))
    && forall id :: id in seen <==> id == caller || id in ids
  }

  lemma PeerOneMore(w: World, caller: int, page: seq<Dialog>, drafts: seq<Draft>, ids: seq<int>, id: int,
                    entries: seq<DialogEntry>, messages: seq<View>, users: seq<ReplyUser>, seen: set<int>,
                        top: seq<View>)
    requires ShowingPeers(w, caller, page, drafts, ids, entries, messages, users, seen) && top == TopOf(w, caller, id)
    ensures ShowingPeers(w, caller, page, drafts, ids + [id],
                         entries + [DialogEntry(EntryFor(page, id), DraftFor(drafts, id))], messages + top,
                         if id in seen then users else users + [ReplyUser(id, false)], seen + {id})
    ensures id in seen ==> seen + {id} == seen
  {
    assert (ids + [id])[..|ids|] == ids;
    if id !in seen {
      assert users + [ReplyUser(id, false)] == [ReplyUser(caller, true)] + Strangers(Newcomers(caller, ids + [id]));
    }
  }

  lemma {:induction false} EntryForMember(page: seq<Dialog>, peer: int)
    ensures EntryFor(page, peer).peer == peer
    ensures peer in Peers(page) ==> EntryFor(page, peer) in page
    ensures peer !in Peers(page) ==> EntryFor(page, peer) == Dialog(peer, 0, 0, 0, 0)
  {
    if page != [] {
      EntryForMember(page[..|page| - 1], peer);
      assert page == page[..|page| - 1] + [page[|page| - 1]];
    }
  }

  /**
   The entry reported for a resolved peer is the conversation's own exactly when the conversation is
   not cut off by the page of `DIALOGS_DEFAULT_LIMIT` the handler looks at.
   */
  lemma PeerEntryIsTrueIff(w: World, caller: int, ids: seq<int>, drafts: seq<Draft>, reply: PeerDialogsReply, i: int)
    requires Reachable(w) && PeerDialogsAnswer(w, caller, ids, drafts, reply) && 0 <= i < |ids|
    ensures |reply.dialogs| == |ids|
    ensures reply.dialogs[i].dialog == DialogOf(w, caller, ids[i])
        <==> !CutOff(w, caller, DIALOGS_DEFAULT_LIMIT, ids[i])
    ensures reply.dialogs[i].draft == DraftFor(drafts, ids[i])
  {
    var list :| IsDialogList(w, caller, list)
        && reply.dialogs == PeerEntries(Limited(list, DIALOGS_DEFAULT_LIMIT), drafts, ids);
    var page := Limited(list, DIALOGS_DEFAULT_LIMIT);
    var peer := ids[i];
    EntryForMember(page, peer);
    if peer in Peers(page) {
      var d := EntryFor(page, peer);
      var j :| 0 <= j < |page| && page[j] == d;
      ListedDialog(w, caller, list, j);
      if CutOff(w, caller, DIALOGS_DEFAULT_LIMIT, peer) {
        CutOffIsOffPage(w, caller, list, DIALOGS_DEFAULT_LIMIT, peer);
      }
    } else {
      OffPage(w, caller, list, DIALOGS_DEFAULT_LIMIT, peer);
      if LiveRefs(w.messages, caller, peer, Box(w, caller)) == {} {
        NoMessagesNoDialog(w, caller, peer);
      } else {
        HasTop(w, caller, peer);
      }
    }
  }

  // --- an instance --------------------------------------------------------------------------

  /** The built-in account has written to user 1 and then to itself. */
  lemma TwoTalksRun() returns (w: World)
    ensures Reachable(w) && 1 in w.accounts
    ensures Box(w, BOT_FATHER_ID) == [Ref(1, 1, true, false), Ref(2, 2, true, false)]
    ensures |w.messages| == 2 && !w.messages[0].deleted && !w.messages[1].deleted
    ensures w.messages[0].from == BOT_FATHER_ID && w.messages[0].peer == 1
    ensures w.messages[1].from == BOT_FATHER_ID && w.messages[1].peer == BOT_FATHER_ID
  {
    var one := OneUser();
    var two := Sent(one, 1, "a");
    w := Sent(two, BOT_FATHER_ID, "b");
  }

  lemma OneUser() returns (w: World)
    ensures Reachable(w) && w.accounts.Keys == {BOT_FATHER_ID, 1} && Box(w, BOT_FATHER_ID) == [] && w.messages == []
  {
    assert Run(INITIAL, []) == Some(INITIAL);
    assert Reachable(INITIAL);
    ReachableStep(INITIAL, CreateOp);
    w := Step(INITIAL, CreateOp);
  }

  lemma Sent(w: World, peer: int, text: string) returns (v: World)
    requires Reachable(w) && BOT_FATHER_ID in w.accounts && peer in w.accounts
    ensures Reachable(v) && v.accounts.Keys == w.accounts.Keys
    ensures v.messages == w.messages + [Message(|w.messages| + 1, BOT_FATHER_ID, peer, text, 0, None, 0, 0, false)]
    ensures Box(v, BOT_FATHER_ID) == Box(w, BOT_FATHER_ID)
        + [Ref(|Box(w, BOT_FATHER_ID)| + 1, |w.messages| + 1, true, false)]
  {
    var op := SendOp(BOT_FATHER_ID, peer, text, 0, 0, 0);
    ReachableStep(w, op);
    ReachableInv(w);
    SendBoxes(w, BOT_FATHER_ID, peer, text, 0, 0, 0, BOT_FATHER_ID);
    v := Step(w, op);
  }

  /** With limit 1, the draft for user 1 hides the conversation with user 1. */
  lemma DraftCanHideConversation()
    ensures exists w: World, reply: DialogsReply ::
              && Reachable(w)
              && DialogsAnswer(w, BOT_FATHER_ID, 1, [Draft(1, "hello", 0)], reply)
              && Misreported(w, BOT_FATHER_ID, reply, 1)
  {
    var w := TwoTalksRun();
    var list := TwoTalksList(w);
    var drafts := [Draft(1, "hello", 0)];
    var reply := MergedReply(w, BOT_FATHER_ID, 1, list, drafts);
    assert DraftFor(drafts, 1) == Some(drafts[0]);
    assert list[1].peer == 1 && PeerFrom(list, 1, 1);
    HiddenByDraft(w, BOT_FATHER_ID, 1, drafts, reply, 1);
  }

  lemma MergedReply(w: World, self: int, limit: int, list: seq<Dialog>, drafts: seq<Draft>)
      returns (reply: DialogsReply)
    requires IsDialogList(w, self, list)
    ensures DialogsAnswer(w, self, limit, drafts, reply)
  {
    var page := Limited(list, Clamped(limit));
    var shown := KnownDialogs(w.accounts.Keys, page);
    var alone := Uncovered(w.accounts.Keys, Peers(shown), drafts);
    reply := DialogsReply(
      DraftOnly(alone) + Entries(shown, drafts), Tops(w, self, PeerList(shown)),
      [ReplyUser(self, true)] + Strangers(PeerList(shown)) + Strangers(DraftPeers(alone)));
    assert Merged(w, self, page, drafts, reply);
  }

  lemma TwoTalksList(w: World) returns (list: seq<Dialog>)
    requires Box(w, BOT_FATHER_ID) == [Ref(1, 1, true, false), Ref(2, 2, true, false)]
    requires |w.messages| == 2 && !w.messages[0].deleted && !w.messages[1].deleted
    requires w.messages[0].from == BOT_FATHER_ID && w.messages[0].peer == 1
    requires w.messages[1].from == BOT_FATHER_ID && w.messages[1].peer == BOT_FATHER_ID
    ensures IsDialogList(w, BOT_FATHER_ID, list) && |list| == 2 && list[1].peer == 1
  {
    var bf, ms, box := BOT_FATHER_ID, w.messages, Box(w, BOT_FATHER_ID);
    list := [DialogOf(w, bf, bf), DialogOf(w, bf, 1)];
    forall p ensures LiveRefs(ms, bf, p, box) == if p == bf then {box[1]} else if p == 1 then {box[0]} else {} {
      TwoTalksLive(ms, box, p);
    }
    assert LocalIds({box[1]}) == {2} && LocalIds({box[0]}) == {1};
  }

  lemma TwoTalksLive(ms: seq<Message>, box: seq<Ref>, p: int)
    requires box == [Ref(1, 1, true, false), Ref(2, 2, true, false)]
    requires |ms| == 2 && !ms[0].deleted && !ms[1].deleted
    requires ms[0].from == BOT_FATHER_ID && ms[0].peer == 1
    requires ms[1].from == BOT_FATHER_ID && ms[1].peer == BOT_FATHER_ID
    ensures LiveRefs(ms, BOT_FATHER_ID, p, box) == if p == BOT_FATHER_ID then {box[1]} else if p == 1 then {box[0]}
        else {}
  {
    assert box[0] in box && box[1] in box;
    assert forall r | r in box :: r == box[0] || r == box[1];
  }
}
