/** The read-only loops over the maps: each computes its specification for every iteration order. */
module Readers {
  import opened Prelude
  import opened Messaging
  import opened Structure
  import opened ReadState
  import opened History
  import opened Watermarks
  import opened UpdateLog
  import opened Difference
  import opened Tables

  /** A user of a handler's reply; `self` marks the caller. */
  datatype ReplyUser = ReplyUser(id: int, self: bool)

  /** The greatest local id of outgoing references to the given messages, in any order. */
  method OutboxMax(m: map<int, Ref>, readSet: set<int>, ghost box: seq<Ref>) returns (max: int)
    requires Dense(m) && box == BoxSeq(m) && Numbered(box)
    ensures max == Max0(OutgoingIds(box, readSet))
  {
    max := 0;
    var rest := m.Keys;
    while rest != {}
      invariant rest <= m.Keys
      invariant max > 0 ==> exists r :: r in box && r.out && r.globalId in readSet && r.localId == max
      invariant max >= 0
      invariant forall r | r in box && r.out && r.globalId in readSet && r.localId !in rest :: r.localId <= max
    {
      var l := Next(rest);
      rest := rest - {l};
      assert m[l] == box[l - 1];
      forall r | r in box && r.localId == l ensures r == m[l] {
        var i :| 0 <= i < |box| && box[i] == r;
      }
      if m[l].out && m[l].globalId in readSet && m[l].localId > max {
        max := m[l].localId;
      }
    }
    ghost var ids := OutgoingIds(box, readSet);
    if max > 0 {
      ghost var top :| top in box && top.out && top.globalId in readSet && top.localId == max;
      assert top.localId in ids;
    }
    assert forall x | x in ids :: 0 < x <= max;
  }

  /** How many incoming references from `peer` are still unread, in any order. */
  method CountUnread(m: map<int, Ref>, stored: map<int, Message>, self: int, peer: int, ghost box: seq<Ref>,
      ghost ms: seq<Message>)
    returns (n: int)
    requires Dense(m) && box == BoxSeq(m) && Numbered(box) && Mirrors(stored, ms)
    ensures n == |StillUnread(ms, self, peer, box)|
  {
    ghost var unread := StillUnread(ms, self, peer, box);
    n := 0;
    var rest := m.Keys;
    assert Visited(unread, rest) == {};
    while rest != {}
      invariant rest <= m.Keys
      invariant n == |Visited(unread, rest)|
    {
      var l := Next(rest);
      var r := m[l];
      assert r == box[l - 1];
      VisitOne(box, unread, rest, l);
      rest := rest - {l};
      if !r.out && r.unread && r.globalId in stored && Other(self, stored[r.globalId]) == peer {
        n := n + 1;
      }
    }
    assert Visited(unread, rest) == unread;
  }

  // --- history -------------------------------------------------------------------

  /** The view `v` comes from a listed reference whose local id is not in `rest`. */
  ghost predicate Collected(ms: seq<Message>, self: int, peer: int, offsetId: int, box: seq<Ref>, rest: set<int>,
      v: View) {
    exists r :: r in box && r.localId !in rest && Listed(ms, self, peer, offsetId, r)
                && v == ViewOf(self, r, MessageAt(ms, r.globalId))
  }

  /** The conversation's views in whatever order the map yields them, then sorted and cut. */
  method HistoryPage(m: map<int, Ref>, stored: map<int, Message>, self: int, peer: int, offsetId: int, limit: int,
                     ghost box: seq<Ref>, ghost ms: seq<Message>) returns (page: seq<View>)
    requires Dense(m) && box == BoxSeq(m) && BoxOk(ms, self, box) && Mirrors(stored, ms)
    ensures page == Page(ms, self, peer, offsetId, limit, box)
  {
    var msgs: seq<View> := [];
    var rest := m.Keys;
    while rest != {}
      invariant rest <= m.Keys
      invariant forall v :: v in msgs <==> Collected(ms, self, peer, offsetId, box, rest, v)
      invariant forall i | 0 <= i < |msgs| :: msgs[i].localId !in rest
      invariant forall i, j | 0 <= i < j < |msgs| :: msgs[i].localId != msgs[j].localId
    {
      var l := Next(rest);
      var r := m[l];
      assert r == box[l - 1];
      CollectOne(ms, self, peer, offsetId, box, rest, l);
      rest := rest - {l};
      if r.globalId in stored {
        var msg := stored[r.globalId];
        if !msg.deleted && Other(self, msg) == peer && !(offsetId > 0 && r.localId >= offsetId) {
          msgs := msgs + [ViewOf(self, r, msg)];
        }
      }
    }
    var sorted := SortDescending(msgs, BY_LOCAL_ID);
    SortedDistinct(msgs, sorted, BY_LOCAL_ID);
    ConversationMembers(ms, self, peer, offsetId, box);
    AllCollected(ms, self, peer, offsetId, box, sorted);
    page := Limited(sorted, limit);
  }

  lemma CollectOne(ms: seq<Message>, self: int, peer: int, offsetId: int, box: seq<Ref>, rest: set<int>, l: int)
    requires Numbered(box) && 1 <= l <= |box| && l in rest
    ensures forall v :: Collected(ms, self, peer, offsetId, box, rest - {l}, v) <==>
              Collected(ms, self, peer, offsetId, box, rest, v)
              || (Listed(ms, self, peer, offsetId, box[l - 1])
                  && v == ViewOf(self, box[l - 1], MessageAt(ms, box[l - 1].globalId)))
  {
    assert box[l - 1] in box;
    forall r | r in box && r.localId == l ensures r == box[l - 1] {
      var i :| 0 <= i < |box| && box[i] == r;
    }
    forall v | Collected(ms, self, peer, offsetId, box, rest, v)
      ensures Collected(ms, self, peer, offsetId, box, rest - {l}, v)
    {
      var r :| r in box && r.localId !in rest && Listed(ms, self, peer, offsetId, r)
          && v == ViewOf(self, r, MessageAt(ms, r.globalId));
      assert r.localId !in rest - {l};
    }
  }

  lemma AllCollected(ms: seq<Message>, self: int, peer: int, offsetId: int, box: seq<Ref>, sorted: seq<View>)
    requires BoxOk(ms, self, box) && StrictlyDescending(sorted, BY_LOCAL_ID)
    requires forall v :: v in sorted <==> Collected(ms, self, peer, offsetId, box, {}, v)
    ensures sorted == Conversation(ms, self, peer, offsetId, box)
  {
    var all := Conversation(ms, self, peer, offsetId, box);
    ConversationMembers(ms, self, peer, offsetId, box);
    forall v ensures v in sorted <==> v in all {
      if v in all {
        var r :| r in box && Listed(ms, self, peer, offsetId, r) && v == ViewOf(self, r, MessageAt(ms, r.globalId));
        assert r.localId !in {};
      }
    }
    SortedUnique(sorted, all, BY_LOCAL_ID);
  }

  // --- difference -----------------------------------------------------------------

  const BY_PTS_ASCENDING := (e: Entry) => -e.pts

  lemma PendingIncreases(log: seq<Entry>, pts: int, since: int)
    requires Gapless(log, pts)
    ensures StrictlyDescending(Pending(log, since), BY_PTS_ASCENDING)
  {
    var k := PendingIsSuffix(log, pts, since);
    forall i, j | 0 <= i < j < |log| - k ensures log[k..][i].pts < log[k..][j].pts {
      PtsIncrease(log, pts, k + i, k + j);
    }
  }

  /** The entries above `sincePts`, sorted by pts and cut. */
  method DifferencePage(log: seq<Entry>, sincePts: int, limit: int, ghost pts: int) returns (page: seq<Entry>)
    requires Gapless(log, pts)
    ensures page == Limited(Pending(log, sincePts), limit)
  {
    var entries: seq<Entry> := [];
    for n := 0 to |log|
      invariant entries == Pending(log[..n], sincePts)
    {
      assert log[..n + 1][..n] == log[..n];
      if log[n].pts > sincePts {
        entries := entries + [log[n]];
      }
    }
    assert log[..|log|] == log;
    PendingIncreases(log, pts, sincePts);
    var sorted := SortDescending(entries, BY_PTS_ASCENDING);
    SortedDistinct(entries, sorted, BY_PTS_ASCENDING);
    SortedUnique(sorted, entries, BY_PTS_ASCENDING);
    page := Limited(sorted, limit);
  }

  // --- dialogs -------------------------------------------------------------------

  /** Whether the peer's copy of the message is incoming and read, found in any order. */
  method PeerRead(m: map<int, Ref>, globalId: int, ghost box: seq<Ref>) returns (read: bool)
    requires Dense(m) && box == BoxSeq(m) && Increasing(box)
    ensures read == HasRead(box, globalId)
  {
    var rest := m.Keys;
    while rest != {}
      invariant rest <= m.Keys
      invariant forall l | l in m && l !in rest :: m[l].globalId != globalId
    {
      var l := Next(rest);
      rest := rest - {l};
      assert m[l] == box[l - 1];
      if m[l].globalId == globalId {
        forall q | q in box && q.globalId == globalId ensures q == box[l - 1] {
          var i :| 0 <= i < |box| && box[i] == q;
        }
        assert box[l - 1] in box;
        return !m[l].out && !m[l].unread;
      }
    }
    forall q | q in box ensures q.globalId != globalId {
      var i :| 0 <= i < |box| && box[i] == q;
      assert m[i + 1] == q;
    }
    return false;
  }

  lemma Max0Add(xs: set<int>, x: int)
    requires x > 0 && forall y | y in xs :: y > 0
    ensures Max0(xs + {x}) == if x > Max0(xs) then x else Max0(xs)
  {
    var m := if x > Max0(xs) then x else Max0(xs);
    assert m in xs + {x};
    Max0Is(xs + {x}, m);
  }

  /** The dialog entry computed from some of a conversation's live references. */
  ghost function Summary(peer: int, refs: set<Ref>, peerBox: seq<Ref>): Dialog {
    Dialog(peer, Max0(LocalIds(refs)), Max0(ReadInboxIds(refs)), Max0(ReadOutboxIds(refs, peerBox)), |UnreadRefs(refs)|)
  }

  /** Folding one more reference into an entry. */
  function Fold(d: Dialog, r: Ref, read: bool): Dialog {
    Dialog(d.peer,
           if r.localId > d.top then r.localId else d.top,
           if !r.out && !r.unread && r.localId > d.readInbox then r.localId else d.readInbox,
           if r.out && r.localId > d.readOutbox && read then r.localId else d.readOutbox,
           if r.unread && !r.out then d.unread + 1 else d.unread)
  }

  lemma TopAdd(refs: set<Ref>, r: Ref)
    requires forall q | q in refs :: q.localId > 0
    requires r.localId > 0
    ensures Max0(LocalIds(refs + {r})) == if r.localId > Max0(LocalIds(refs)) then r.localId else Max0(LocalIds(refs))
  {
    assert LocalIds(refs + {r}) == LocalIds(refs) + {r.localId};
    Max0Add(LocalIds(refs), r.localId);
  }

  lemma InboxAdd(refs: set<Ref>, r: Ref)
    requires forall q | q in refs :: q.localId > 0
    requires r.localId > 0
    ensures var before := Max0(ReadInboxIds(refs));
            Max0(ReadInboxIds(refs + {r})) == if !r.out && !r.unread && r.localId > before then r.localId else before
  {
    if !r.out && !r.unread {
      assert ReadInboxIds(refs + {r}) == ReadInboxIds(refs) + {r.localId};
      Max0Add(ReadInboxIds(refs), r.localId);
    } else {
      assert ReadInboxIds(refs + {r}) == ReadInboxIds(refs);
    }
  }

  lemma OutboxAdd(refs: set<Ref>, peerBox: seq<Ref>, r: Ref)
    requires forall q | q in refs :: q.localId > 0
    requires r.localId > 0
    ensures var before := Max0(ReadOutboxIds(refs, peerBox));
            Max0(ReadOutboxIds(refs + {r}, peerBox)) ==
            if r.out && r.localId > before && HasRead(peerBox, r.globalId) then r.localId else before
  {
    if r.out && HasRead(peerBox, r.globalId) {
      assert ReadOutboxIds(refs + {r}, peerBox) == ReadOutboxIds(refs, peerBox) + {r.localId};
      Max0Add(ReadOutboxIds(refs, peerBox), r.localId);
    } else {
      assert ReadOutboxIds(refs + {r}, peerBox) == ReadOutboxIds(refs, peerBox);
    }
  }

  lemma UnreadAdd(refs: set<Ref>, r: Ref)
    requires r !in refs
    ensures |UnreadRefs(refs + {r})| == |UnreadRefs(refs)| + (if r.unread && !r.out then 1 else 0)
  {
    assert UnreadRefs(refs + {r}) == UnreadRefs(refs) + (if r.unread && !r.out then {r} else {});
  }

  lemma SummaryAdd(peer: int, refs: set<Ref>, peerBox: seq<Ref>, r: Ref, read: bool)
    requires forall q | q in refs :: q.localId > 0
    requires r !in refs && r.localId > 0 && read == HasRead(peerBox, r.globalId)
    ensures Summary(peer, refs + {r}, peerBox) == Fold(Summary(peer, refs, peerBox), r, read)
  {
    TopAdd(refs, r);
    InboxAdd(refs, r);
    OutboxAdd(refs, peerBox, r);
    UnreadAdd(refs, r);
  }

  /** The live references of a conversation outside the local ids still to visit. */
  ghost function Folded(ms: seq<Message>, self: int, peer: int, box: seq<Ref>, rest: set<int>): set<Ref> {
    Visited(LiveRefs(ms, self, peer, box), rest)
  }

  /** The accumulator after visiting all but `rest`: one entry per conversation met. */
  ghost predicate Accumulated(w: World, self: int, rest: set<int>, byPeer: map<int, Dialog>) {
    forall p :: AccumulatedFor(w, self, rest, byPeer, p)
  }

  /** One conversation's entry after visiting all but `rest`. */
  ghost predicate AccumulatedFor(w: World, self: int, rest: set<int>, byPeer: map<int, Dialog>, p: int) {
    var refs := Folded(w.messages, self, p, Box(w, self), rest);
    && (p in byPeer <==> refs != {})
    && (p in byPeer ==> byPeer[p] == Summary(p, refs, Box(w, p)))
  }

  /** Visiting a reference touches only its own conversation, and only when its message is live. */
  lemma FoldOne(ms: seq<Message>, self: int, box: seq<Ref>, rest: set<int>, l: int, p: int)
    requires Numbered(box) && 1 <= l <= |box| && l in rest
    ensures var r := box[l - 1];
            && r !in Folded(ms, self, p, box, rest)
            && Folded(ms, self, p, box, rest - {l}) ==
               Folded(ms, self, p, box, rest) + (if With(ms, self, p, r) && Live(ms, r) then {r} else {})
    ensures forall q | q in Folded(ms, self, p, box, rest) :: q.localId > 0
  {
    VisitOne(box, LiveRefs(ms, self, p, box), rest, l);
    assert box[l - 1] in box;
  }

  lemma AccumulateSkip(w: World, self: int, rest: set<int>, byPeer: map<int, Dialog>, l: int)
    requires Accumulated(w, self, rest, byPeer) && Numbered(Box(w, self)) && l in rest && 1 <= l <= |Box(w, self)|
    requires !Live(w.messages, Box(w, self)[l - 1])
    ensures Accumulated(w, self, rest - {l}, byPeer)
  {
    var less := rest - {l};
    forall p ensures AccumulatedFor(w, self, less, byPeer, p) {
      assert AccumulatedFor(w, self, rest, byPeer, p);
      SkipFor(w, self, rest, byPeer, l, p);
    }
  }

  lemma SkipFor(w: World, self: int, rest: set<int>, byPeer: map<int, Dialog>, l: int, p: int)
    requires AccumulatedFor(w, self, rest, byPeer, p) && Numbered(Box(w, self)) && l in rest && 1 <= l <= |Box(w, self)|
    requires !Live(w.messages, Box(w, self)[l - 1])
    ensures AccumulatedFor(w, self, rest - {l}, byPeer, p)
  {
    var ms, box := w.messages, Box(w, self);
    FoldOne(ms, self, box, rest, l, p);
    assert Folded(ms, self, p, box, rest - {l}) == Folded(ms, self, p, box, rest);
  }

  lemma EmptySummary(peer: int, peerBox: seq<Ref>)
    ensures Summary(peer, {}, peerBox) == Dialog(peer, 0, 0, 0, 0)
  {
    assert LocalIds({}) == {} && ReadInboxIds({}) == {} && ReadOutboxIds({}, peerBox) == {} && UnreadRefs({}) == {};
  }

  /** The visited conversation's entry. */
  lemma AccumulatePeer(w: World, self: int, rest: set<int>, byPeer: map<int, Dialog>, l: int, peer: int, read: bool)
    requires Accumulated(w, self, rest, byPeer) && Numbered(Box(w, self)) && l in rest && 1 <= l <= |Box(w, self)|
    requires var r := Box(w, self)[l - 1];
             Live(w.messages, r) && With(w.messages, self, peer, r) && read == HasRead(Box(w, peer), r.globalId)
    ensures var after := Folded(w.messages, self, peer, Box(w, self), rest - {l});
            && Box(w, self)[l - 1] in after
            && Summary(peer, after, Box(w, peer)) ==
               Fold(if peer in byPeer then byPeer[peer] else Dialog(peer, 0, 0, 0, 0), Box(w, self)[l - 1], read)
  {
    var ms, box := w.messages, Box(w, self);
    assert AccumulatedFor(w, self, rest, byPeer, peer);
    FoldOne(ms, self, box, rest, l, peer);
    SummaryAdd(peer, Folded(ms, self, peer, box, rest), Box(w, peer), box[l - 1], read);
    if peer !in byPeer {
      EmptySummary(peer, Box(w, peer));
    }
  }

  lemma AccumulateOne(w: World, self: int, rest: set<int>, byPeer: map<int, Dialog>, l: int, peer: int, read: bool,
      next: Dialog)
    requires Accumulated(w, self, rest, byPeer) && Numbered(Box(w, self)) && l in rest && 1 <= l <= |Box(w, self)|
    requires var r := Box(w, self)[l - 1];
             Live(w.messages, r) && With(w.messages, self, peer, r) && read == HasRead(Box(w, peer), r.globalId)
             && next == Fold(if peer in byPeer then byPeer[peer] else Dialog(peer, 0, 0, 0, 0), r, read)
    ensures Accumulated(w, self, rest - {l}, byPeer[peer := next])
  {
    AccumulatePeer(w, self, rest, byPeer, l, peer, read);
    var less, more := rest - {l}, byPeer[peer := next];
    forall p ensures AccumulatedFor(w, self, less, more, p) {
      if p != peer {
        assert AccumulatedFor(w, self, rest, byPeer, p);
        AccumulateElsewhere(w, self, rest, byPeer, l, peer, next, p);
      }
    }
  }

  /** Visiting a reference leaves the other conversations' entries alone. */
  lemma AccumulateElsewhere(w: World, self: int, rest: set<int>, byPeer: map<int, Dialog>, l: int, peer: int,
      next: Dialog, p: int)
    requires AccumulatedFor(w, self, rest, byPeer, p) && Numbered(Box(w, self)) && l in rest && 1 <= l <= |Box(w, self)|
    requires With(w.messages, self, peer, Box(w, self)[l - 1]) && p != peer
    ensures AccumulatedFor(w, self, rest - {l}, byPeer[peer := next], p)
  {
    var ms, box := w.messages, Box(w, self);
    FoldOne(ms, self, box, rest, l, p);
    assert Folded(ms, self, p, box, rest - {l}) == Folded(ms, self, p, box, rest);
  }

  lemma AccumulateNone(w: World, self: int, rest: set<int>)
    requires Numbered(Box(w, self)) && forall l | 1 <= l <= |Box(w, self)| :: l in rest
    ensures Accumulated(w, self, rest, map[])
  {
    forall p ensures AccumulatedFor(w, self, rest, map[], p) {
    }
  }

  lemma AccumulateAll(w: World, self: int, byPeer: map<int, Dialog>)
    requires Accumulated(w, self, {}, byPeer)
    ensures forall p :: p in byPeer <==> LiveRefs(w.messages, self, p, Box(w, self)) != {}
    ensures forall p | p in byPeer :: byPeer[p] == DialogOf(w, self, p)
  {
    forall p ensures p in byPeer <==> LiveRefs(w.messages, self, p, Box(w, self)) != {}
             ensures p in byPeer ==> byPeer[p] == DialogOf(w, self, p) {
      assert AccumulatedFor(w, self, {}, byPeer, p);
      assert Folded(w.messages, self, p, Box(w, self), {}) == LiveRefs(w.messages, self, p, Box(w, self));
    }
  }

  const BY_TOP := (d: Dialog) => d.top

  /** The account's dialogs: one entry per conversation with a live message, by top message, newest first. */
  ghost predicate IsDialogList(w: World, self: int, list: seq<Dialog>) {
    && StrictlyDescending(list, BY_TOP)
    && forall d ::
        d in list <==> exists p :: d == DialogOf(w, self, p) && LiveRefs(w.messages, self, p, Box(w, self)) != {}
  }

  /** There is only one such list. */
  lemma DialogListUnique(w: World, self: int, a: seq<Dialog>, b: seq<Dialog>)
    requires IsDialogList(w, self, a) && IsDialogList(w, self, b)
    ensures a == b
  {
    SortedUnique(a, b, BY_TOP);
  }

  /** Every local id belongs to one conversation, so different conversations have different tops. */
  lemma TopsDiffer(w: World, self: int, p: int, q: int)
    requires Numbered(Box(w, self)) && p != q
    requires LiveRefs(w.messages, self, p, Box(w, self)) != {} && LiveRefs(w.messages, self, q, Box(w, self)) != {}
    ensures DialogOf(w, self, p).top != DialogOf(w, self, q).top
  {
    var box := Box(w, self);
    var c := TopRef(LiveRefs(w.messages, self, p, box));
    var d := TopRef(LiveRefs(w.messages, self, q, box));
    var i :| 0 <= i < |box| && box[i] == c;
    var j :| 0 <= j < |box| && box[j] == d;
  }

  lemma TopRef(refs: set<Ref>) returns (r: Ref)
    requires refs != {}
    ensures r in refs && r.localId == Max0(LocalIds(refs))
  {
    var a := Pick(refs);
    assert a.localId in LocalIds(refs);
    r :| r in refs && r.localId == Max0(LocalIds(refs));
  }

  ghost predicate AllEntries(w: World, self: int, byPeer: map<int, Dialog>) {
    && (forall p :: p in byPeer <==> LiveRefs(w.messages, self, p, Box(w, self)) != {})
    && (forall p | p in byPeer :: byPeer[p] == DialogOf(w, self, p))
  }

  /** The accumulated entries in whatever order the map yields them. */
  method CollectEntries(byPeer: map<int, Dialog>) returns (all: seq<Dialog>)
    requires forall p | p in byPeer :: byPeer[p].peer == p
    ensures forall p :: p in byPeer ==> byPeer[p] in all
    ensures forall d | d in all :: d.peer in byPeer && d == byPeer[d.peer]
    ensures forall i, j | 0 <= i < j < |all| :: all[i].peer != all[j].peer
  {
    all := [];
    var rest := byPeer.Keys;
    while rest != {}
      invariant rest <= byPeer.Keys
      invariant forall p :: p in byPeer && p !in rest ==> byPeer[p] in all
      invariant forall d | d in all :: d.peer in byPeer && d.peer !in rest && d == byPeer[d.peer]
      invariant forall i, j | 0 <= i < j < |all| :: all[i].peer != all[j].peer
    {
      var p := Next(rest);
      rest := rest - {p};
      assert forall i | 0 <= i < |all| :: all[i] in all;
      all := all + [byPeer[p]];
    }
  }

  lemma DistinctTops(w: World, self: int, byPeer: map<int, Dialog>, all: seq<Dialog>)
    requires AllEntries(w, self, byPeer) && Numbered(Box(w, self))
    requires forall d | d in all :: d.peer in byPeer && d == byPeer[d.peer]
    requires forall i, j | 0 <= i < j < |all| :: all[i].peer != all[j].peer
    ensures forall i, j | 0 <= i < j < |all| :: BY_TOP(all[i]) != BY_TOP(all[j])
  {
    forall i, j | 0 <= i < j < |all| ensures all[i].top != all[j].top {
      assert all[i] in all && all[j] in all;
      TopsDiffer(w, self, all[i].peer, all[j].peer);
    }
  }

  method OrderDialogs(byPeer: map<int, Dialog>, ghost w: World, ghost self: int) returns (sorted: seq<Dialog>)
    requires AllEntries(w, self, byPeer) && Numbered(Box(w, self))
    ensures IsDialogList(w, self, sorted)
  {
    var all := CollectEntries(byPeer);
    DistinctTops(w, self, byPeer, all);
    sorted := SortDescending(all, BY_TOP);
    SortedDistinct(all, sorted, BY_TOP);
    EntriesListed(w, self, byPeer, sorted);
  }

  lemma EntriesListed(w: World, self: int, byPeer: map<int, Dialog>, list: seq<Dialog>)
    requires AllEntries(w, self, byPeer) && StrictlyDescending(list, BY_TOP)
    requires forall p :: p in byPeer ==> byPeer[p] in list
    requires forall d | d in list :: d.peer in byPeer && d == byPeer[d.peer]
    ensures IsDialogList(w, self, list)
  {
    forall d ensures d in list
        <==> exists p :: d == DialogOf(w, self, p) && LiveRefs(w.messages, self, p, Box(w, self)) != {} {
      if p :| d == DialogOf(w, self, p) && LiveRefs(w.messages, self, p, Box(w, self)) != {} {
        assert p in byPeer && byPeer[p] in list;
      }
    }
  }
}
