/** What a dialog entry reports, and why its watermarks say exactly which messages are read. */
module Watermarks {
  import opened Prelude
  import opened Messaging
  import opened Structure
  import opened ReadState
  import opened Invariant

  datatype Dialog = Dialog(peer: int, top: int, readInbox: int, readOutbox: int, unread: int)

  /** The references to undeleted messages of one conversation. */
  ghost function LiveRefs(ms: seq<Message>, self: int, peer: int, box: seq<Ref>): set<Ref> {
    set r | r in box && With(ms, self, peer, r) && Live(ms, r)
  }

  ghost function UnreadRefs(refs: set<Ref>): set<Ref> {
    set r | r in refs && r.unread && !r.out
  }

  ghost function LocalIds(refs: set<Ref>): set<int> {
    set r | r in refs :: r.localId
  }

  ghost function ReadInboxIds(refs: set<Ref>): set<int> {
    set r | r in refs && !r.out && !r.unread :: r.localId
  }

  ghost function ReadOutboxIds(refs: set<Ref>, peerBox: seq<Ref>): set<int> {
    set r | r in refs && r.out && HasRead(peerBox, r.globalId) :: r.localId
  }

  /** The entry of the conversation with `peer`: top message, unread count and both watermarks. */
  ghost function DialogOf(w: World, self: int, peer: int): Dialog {
    var refs := LiveRefs(w.messages, self, peer, Box(w, self));
    Dialog(peer, Max0(LocalIds(refs)), Max0(ReadInboxIds(refs)), Max0(ReadOutboxIds(refs, Box(w, peer))),
        |UnreadRefs(refs)|)
  }

  /** Two references of one box in one conversation: the later one read means the earlier one read. */
  lemma EarlierRead(ms: seq<Message>, u: int, peer: int, box: seq<Ref>, q: Ref, r: Ref)
    requires BoxOk(ms, u, box) && PrefixRead(ms, u, box)
    requires q in box && r in box && Incoming(ms, u, peer, q) && Incoming(ms, u, peer, r)
    requires q.globalId <= r.globalId || q.localId <= r.localId
    requires !r.unread
    ensures !q.unread
  {
    var i :| 0 <= i < |box| && box[i] == q;
    var j :| 0 <= j < |box| && box[j] == r;
    if i > j {
      assert box[j].globalId < box[i].globalId;
    }
  }

  /**
   An undeleted outgoing message of `a` to `b` has been read by `b` exactly when its local id in
   `a`'s numbering is at most the outgoing watermark of `a`'s dialog with `b`.
   */
  lemma OutgoingWatermarkIsExact(w: World, a: int, b: int, r: Ref)
    requires Reachable(w)
    requires r in Box(w, a) && Outgoing(w.messages, a, b, r) && Live(w.messages, r)
    ensures HasRead(Box(w, b), r.globalId) <==> r.localId <= DialogOf(w, a, b).readOutbox
  {
    ReachableInv(w);
    var ms := w.messages;
    BoxesOk(w, a);
    BoxesOk(w, b);
    var ids := ReadOutboxIds(LiveRefs(ms, a, b, Box(w, a)), Box(w, b));
    if HasRead(Box(w, b), r.globalId) {
      assert r.localId in ids;
    }
    if r.localId <= Max0(ids) {
      var i :| 0 <= i < |Box(w, a)| && Box(w, a)[i] == r;
      assert r.localId == i + 1;
      assert ids != {};
      var top :| top in LiveRefs(ms, a, b, Box(w, a)) && top.out && HasRead(Box(w, b), top.globalId)
          && top.localId == Max0(ids);
      assert RefOk(ms, a, Box(w, a)[i]) && Participant(ms, b, r.globalId);
      assert Holds(Box(w, b), r.globalId) && PrefixRead(ms, b, Box(w, b));
      ReadBelowTop(ms, a, b, Box(w, a), Box(w, b), r, top);
    }
  }

  lemma ReadBelowTop(ms: seq<Message>, a: int, b: int, box: seq<Ref>, peerBox: seq<Ref>, r: Ref, top: Ref)
    requires BoxOk(ms, a, box) && BoxOk(ms, b, peerBox) && PrefixRead(ms, b, peerBox)
    requires r in box && Outgoing(ms, a, b, r) && Holds(peerBox, r.globalId)
    requires top in box && Outgoing(ms, a, b, top) && HasRead(peerBox, top.globalId)
    requires r.localId <= top.localId
    ensures HasRead(peerBox, r.globalId)
  {
    var i :| 0 <= i < |box| && box[i] == r;
    var j :| 0 <= j < |box| && box[j] == top;
    assert RefOk(ms, a, box[i]) && RefOk(ms, a, box[j]);
    assert r.globalId <= top.globalId;
    var read :| read in peerBox && read.globalId == top.globalId && !read.out && !read.unread;
    assert RefOk(ms, b, read);
    var k :| 0 <= k < |peerBox| && peerBox[k].globalId == r.globalId;
    assert RefOk(ms, b, peerBox[k]);
    EarlierRead(ms, b, a, peerBox, peerBox[k], read);
  }

  /**
   An undeleted incoming message is read exactly when its id is at most the inbox watermark, so
   the unread count is the number of undeleted incoming messages above it.
   */
  lemma InboxWatermarkIsExact(w: World, u: int, peer: int)
    requires Reachable(w)
    ensures var refs := LiveRefs(w.messages, u, peer, Box(w, u));
            var d := DialogOf(w, u, peer);
            && (forall r | r in refs && !r.out :: !r.unread <==> r.localId <= d.readInbox)
            && d.unread == |set r | r in refs && !r.out && r.localId > d.readInbox|
  {
    ReachableInv(w);
    BoxesOk(w, u);
    InboxWatermark(w.messages, u, peer, Box(w, u));
  }

  lemma InboxWatermark(ms: seq<Message>, u: int, peer: int, box: seq<Ref>)
    requires BoxOk(ms, u, box) && PrefixRead(ms, u, box)
    ensures var refs := LiveRefs(ms, u, peer, box);
            && (forall r | r in refs && !r.out :: !r.unread <==> r.localId <= Max0(ReadInboxIds(refs)))
            && UnreadRefs(refs) == set r | r in refs && !r.out && r.localId > Max0(ReadInboxIds(refs))
  {
    forall r | r in LiveRefs(ms, u, peer, box) && !r.out
      ensures !r.unread <==> r.localId <= Max0(ReadInboxIds(LiveRefs(ms, u, peer, box)))
    {
      ReadBelowInbox(ms, u, peer, box, r);
    }
  }

  lemma ReadBelowInbox(ms: seq<Message>, u: int, peer: int, box: seq<Ref>, r: Ref)
    requires BoxOk(ms, u, box) && PrefixRead(ms, u, box)
    requires r in LiveRefs(ms, u, peer, box) && !r.out
    ensures !r.unread <==> r.localId <= Max0(ReadInboxIds(LiveRefs(ms, u, peer, box)))
  {
    var refs := LiveRefs(ms, u, peer, box);
    var ids := ReadInboxIds(refs);
    var i :| 0 <= i < |box| && box[i] == r;
    if !r.unread {
      assert r.localId in ids;
    }
    if r.localId <= Max0(ids) {
      assert ids != {};
      var top :| top in refs && !top.out && !top.unread && top.localId == Max0(ids);
      assert Incoming(ms, u, peer, r) && Incoming(ms, u, peer, top);
      EarlierRead(ms, u, peer, box, r, top);
    }
  }

  /** The incoming references of one conversation still unread, deleted messages included. */
  ghost function StillUnread(ms: seq<Message>, self: int, peer: int, box: seq<Ref>): set<Ref> {
    set r | r in box && Incoming(ms, self, peer, r) && r.unread
  }

  /** After a read up to `maxId`, what is still unread in that conversation is what lay above and was unread. */
  lemma ReadLeavesOnlyLater(w: World, self: int, peer: int, maxId: int, now: int)
    requires self in w.accounts
    ensures var v := Read(w, self, peer, maxId, now);
            StillUnread(v.messages, self, peer, Box(v, self)) ==
            set r | r in StillUnread(w.messages, self, peer, Box(w, self)) && r.localId > maxId
  {
    var v := Read(w, self, peer, maxId, now);
    ReadViews(w, self, peer, maxId, now, self);
    var b, c := Box(w, self), Box(v, self);
    var ms := w.messages;
    forall r ensures r in StillUnread(ms, self, peer, c) <==> r in StillUnread(ms, self, peer, b) && r.localId > maxId {
      if r in StillUnread(ms, self, peer, b) && r.localId > maxId {
        var i :| 0 <= i < |b| && b[i] == r;
        assert c[i] == r;
      }
      if r in StillUnread(ms, self, peer, c) {
        var i :| 0 <= i < |c| && c[i] == r;
        assert b[i] in b;
      }
    }
  }
}
