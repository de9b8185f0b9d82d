/** Read marks: what is stored is one flag per incoming reference; watermarks and receipts follow from it. */
module ReadState {
  import opened Prelude
  import opened Messaging
  import opened Structure

  ghost predicate Incoming(ms: seq<Message>, u: int, peer: int, r: Ref) {
    !r.out && With(ms, u, peer, r)
  }

  ghost predicate Outgoing(ms: seq<Message>, u: int, peer: int, r: Ref) {
    r.out && With(ms, u, peer, r)
  }

  /** In each conversation the read incoming messages are downward closed by local id. */
  ghost predicate PrefixRead(ms: seq<Message>, u: int, box: seq<Ref>) {
    forall peer, i, j | 0 <= i < j < |box| && Incoming(ms, u, peer, box[i]) && Incoming(ms, u, peer, box[j]) ::
      !box[j].unread ==> !box[i].unread
  }

  /** The box holds an incoming copy of the message, and it has been read. */
  ghost predicate HasRead(box: seq<Ref>, g: int) {
    exists q :: q in box && q.globalId == g && !q.out && !q.unread
  }

  /** Local ids, in the sender's numbering, of the messages to `peer` that `peer` has read. */
  ghost function ReadBy(ms: seq<Message>, self: int, peer: int, box: seq<Ref>, peerBox: seq<Ref>): set<int> {
    set r | r in box && Outgoing(ms, self, peer, r) && HasRead(peerBox, r.globalId) :: r.localId
  }

  /** Max ids of the receipts from `peer` in a log. */
  ghost function Receipts(log: seq<Entry>, peer: int): set<int> {
    set e | e in log && e.update.ReadOutbox? && e.update.peer == peer :: e.update.maxId
  }

  ghost predicate ReceiptsMatch(ms: seq<Message>, u: int, p: int, box: seq<Ref>, peerBox: seq<Ref>, log: seq<Entry>) {
    && (forall x | x in Receipts(log, p) :: x > 0)
    && Max0(Receipts(log, p)) == Max0(ReadBy(ms, u, p, box, peerBox))
  }

  ghost predicate ReceiptsOk(w: World, u: int, p: int) {
    ReceiptsMatch(w.messages, u, p, Box(w, u), Box(w, p), Log(w, u))
  }

  ghost predicate ReadMarksOk(w: World) {
    && (forall u :: PrefixRead(w.messages, u, Box(w, u)))
    && (forall u, peer :: ReceiptsOk(w, u, peer))
  }

  // --- boxes -------------------------------------------------------------------

  lemma ReadBoxPrefix(ms: seq<Message>, self: int, peer: int, maxId: int, box: seq<Ref>)
    requires BoxOk(ms, self, box) && PrefixRead(ms, self, box)
    ensures PrefixRead(ms, self, ReadBox(ms, self, peer, maxId, box))
  {
    var c := ReadBox(ms, self, peer, maxId, box);
    forall p, i, j | 0 <= i < j < |c| && Incoming(ms, self, p, c[i]) && Incoming(ms, self, p, c[j])
      ensures !c[j].unread ==> !c[i].unread
    {
      assert Incoming(ms, self, p, box[i]) && Incoming(ms, self, p, box[j]);
    }
  }

  lemma AppendPrefix(ms: seq<Message>, m: Message, u: int, box: seq<Ref>, r: Ref)
    requires BoxOk(ms, u, box) && PrefixRead(ms, u, box)
    ensures PrefixRead(ms + [m], u, box)
    ensures r.out || r.unread ==> PrefixRead(ms + [m], u, box + [r])
  {
    forall p, i | 0 <= i < |box| && Incoming(ms + [m], u, p, box[i]) ensures Incoming(ms, u, p, box[i]) {
      assert RefOk(ms, u, box[i]);
      assert (ms + [m])[box[i].globalId - 1] == ms[box[i].globalId - 1];
    }
    var c := box + [r];
    forall p, i, j | 0 <= i < j < |c| && Incoming(ms + [m], u, p, c[i]) && Incoming(ms + [m], u, p, c[j])
      ensures (r.out || r.unread) ==> (!c[j].unread ==> !c[i].unread)
    {
      assert c[i] == box[i];
    }
  }

  /** Reading marks exactly the read globals on top of what was read before. */
  lemma ReadBoxHasRead(ms: seq<Message>, self: int, peer: int, maxId: int, box: seq<Ref>, g: int)
    ensures HasRead(ReadBox(ms, self, peer, maxId, box), g) <==>
            HasRead(box, g) || g in ReadGlobals(ms, self, peer, maxId, box)
  {
    var c := ReadBox(ms, self, peer, maxId, box);
    if HasRead(c, g) {
      var q :| q in c && q.globalId == g && !q.out && !q.unread;
      var i :| 0 <= i < |c| && c[i] == q;
      assert box[i] in box;
    }
    if HasRead(box, g) {
      var q :| q in box && q.globalId == g && !q.out && !q.unread;
      var i :| 0 <= i < |box| && box[i] == q;
      assert c[i] in c;
    }
    if g in ReadGlobals(ms, self, peer, maxId, box) {
      var q :| q in box && Reads(ms, self, peer, maxId, q) && q.globalId == g;
      var i :| 0 <= i < |box| && box[i] == q;
      assert c[i] in c;
    }
  }

  lemma ReadBoxOutgoing(ms: seq<Message>, self: int, peer: int, maxId: int, box: seq<Ref>, r: Ref)
    requires r.out
    ensures r in ReadBox(ms, self, peer, maxId, box) <==> r in box
  {
    var c := ReadBox(ms, self, peer, maxId, box);
    if r in box {
      var i :| 0 <= i < |box| && box[i] == r;
      assert c[i] == r;
    }
    if r in c {
      var i :| 0 <= i < |c| && c[i] == r;
      assert box[i] == r;
    }
  }

  lemma ReadBoxOutgoingIds(ms: seq<Message>, self: int, peer: int, maxId: int, box: seq<Ref>, globals: set<int>)
    ensures OutgoingIds(ReadBox(ms, self, peer, maxId, box), globals) == OutgoingIds(box, globals)
  {
    var c := ReadBox(ms, self, peer, maxId, box);
    forall r: Ref | r.out ensures r in c <==> r in box {
      ReadBoxOutgoing(ms, self, peer, maxId, box, r);
    }
  }

  /** A message read by `self` in the conversation with `peer` was sent by `peer` to `self`. */
  lemma ReadGlobalsAreFromPeer(ms: seq<Message>, self: int, peer: int, maxId: int, box: seq<Ref>, g: int)
    requires BoxOk(ms, self, box) && g in ReadGlobals(ms, self, peer, maxId, box)
    ensures Known(ms, g) && MessageAt(ms, g).from == peer && MessageAt(ms, g).peer == self && peer != self
  {
    var q :| q in box && Reads(ms, self, peer, maxId, q) && q.globalId == g;
    assert RefOk(ms, self, q);
  }

  lemma HasReadKnown(ms: seq<Message>, u: int, box: seq<Ref>, g: int)
    requires BoxOk(ms, u, box) && HasRead(box, g)
    ensures Known(ms, g)
  {
    var q :| q in box && q.globalId == g && !q.out && !q.unread;
    assert RefOk(ms, u, q);
  }

  lemma HasReadAppend(box: seq<Ref>, r: Ref, g: int)
    requires r.out || r.unread
    ensures HasRead(box + [r], g) <==> HasRead(box, g)
  {
    if HasRead(box, g) {
      var q :| q in box && q.globalId == g && !q.out && !q.unread;
      assert q in box + [r];
    }
  }

  /** Growing either box by a reference to a new, unread message changes nothing read. */
  lemma ReadByGrows(ms: seq<Message>, m: Message, self: int, peer: int, b: seq<Ref>, c: seq<Ref>, pb: seq<Ref>,
      pc: seq<Ref>)
    requires BoxOk(ms, self, b) && BoxOk(ms, peer, pb)
    requires c == b || (|c| == |b| + 1 && c[..|b|] == b && c[|b|].globalId == |ms| + 1)
    requires pc == pb || (|pc| == |pb| + 1 && pc[..|pb|] == pb && (pc[|pb|].out || pc[|pb|].unread))
    ensures ReadBy(ms + [m], self, peer, c, pc) == ReadBy(ms, self, peer, b, pb)
  {
    forall g ensures HasRead(pc, g) <==> HasRead(pb, g) {
      if pc != pb {
        assert pc == pb + [pc[|pb|]];
        HasReadAppend(pb, pc[|pb|], g);
      }
    }
    forall r | r in b ensures With(ms + [m], self, peer, r) == With(ms, self, peer, r) {
      assert RefOk(ms, self, r);
      assert (ms + [m])[r.globalId - 1] == ms[r.globalId - 1];
    }
    forall r | r in c && Outgoing(ms + [m], self, peer, r) && HasRead(pc, r.globalId) ensures r in b {
      HasReadKnown(ms, peer, pb, r.globalId);
      if c != b { assert c == b + [c[|b|]]; }
    }
    forall r | r in b ensures r in c {
      if c != b { assert c == b + [c[|b|]]; }
    }
  }

  /**
   The messages to `p` that `p` has read, after `self` read its conversation with `peer`. Here
   `b` and `c` are `u`'s box before and after, `pb` and `pc` those of `p`.
   */
  lemma ReadByAfterRead(ms: seq<Message>, self: int, peer: int, maxId: int, selfBox: seq<Ref>, u: int, p: int,
                        b: seq<Ref>, c: seq<Ref>, pb: seq<Ref>, pc: seq<Ref>)
    requires BoxOk(ms, self, selfBox) && BoxOk(ms, u, b)
    requires u == self ==> b == selfBox && c == ReadBox(ms, self, peer, maxId, selfBox)
    requires u != self ==> c == b
    requires p == self ==> pb == selfBox && pc == ReadBox(ms, self, peer, maxId, selfBox)
    requires p != self ==> pc == pb
    ensures ReadBy(ms, u, p, c, pc) ==
            ReadBy(ms, u, p, b, pb)
            + (if u == peer && p == self then OutgoingIds(b, ReadGlobals(ms, self, peer, maxId, selfBox)) else {})
  {
    var globals := ReadGlobals(ms, self, peer, maxId, selfBox);
    forall r: Ref | r.out ensures r in c <==> r in b {
      if u == self {
        ReadBoxOutgoing(ms, self, peer, maxId, b, r);
      }
    }
    forall r | r in b && r.out
      ensures Outgoing(ms, u, p, r) && HasRead(pc, r.globalId) <==>
              (Outgoing(ms, u, p, r) && HasRead(pb, r.globalId)) || (u == peer && p == self && r.globalId in globals)
    {
      assert RefOk(ms, u, r);
      if p == self {
        ReadBoxHasRead(ms, self, peer, maxId, selfBox, r.globalId);
      }
      if r.globalId in globals {
        ReadGlobalsAreFromPeer(ms, self, peer, maxId, selfBox, r.globalId);
      }
    }
  }

  // --- receipts ------------------------------------------------------------------

  lemma AppendReceipts(log: seq<Entry>, e: Entry, peer: int)
    ensures Receipts(log + [e], peer) ==
            Receipts(log, peer) + (if e.update.ReadOutbox? && e.update.peer == peer then {e.update.maxId} else {})
  {
    forall x ensures x in Receipts(log + [e], peer) <==>
      x in Receipts(log, peer) || (e.update.ReadOutbox? && e.update.peer == peer && x == e.update.maxId)
    {
      if x in Receipts(log, peer) {
        var d :| d in log && d.update.ReadOutbox? && d.update.peer == peer && d.update.maxId == x;
        assert d in log + [e];
      }
      assert e in log + [e];
    }
  }

  lemma MaxOfUnion(a: set<int>, b: set<int>, c: set<int>)
    requires Max0(a) == Max0(b)
    requires forall x | x in a :: x > 0
    requires forall x | x in b :: x > 0
    requires forall x | x in c :: x > 0
    ensures Max0(c) > 0 ==> Max0(a + {Max0(c)}) == Max0(b + c)
    ensures Max0(c) <= 0 ==> c == {}
  {
    if c != {} {
      var m := if Max0(a) > Max0(c) then Max0(a) else Max0(c);
      Max0Is(a + {Max0(c)}, m);
      assert m in b + c;
      Max0Is(b + c, m);
    }
  }

  lemma OutgoingIdsPositive(ms: seq<Message>, u: int, box: seq<Ref>, globals: set<int>)
    requires BoxOk(ms, u, box)
    ensures forall x | x in OutgoingIds(box, globals) :: x > 0
  {
  }

  lemma ReadByPositive(ms: seq<Message>, u: int, peer: int, box: seq<Ref>, peerBox: seq<Ref>)
    requires BoxOk(ms, u, box)
    ensures forall x | x in ReadBy(ms, u, peer, box, peerBox) :: x > 0
  {
  }

  // --- preservation by each operation -----------------------------------------------

  lemma BoxesOk(w: World, u: int)
    requires Structured(w)
    ensures BoxOk(w.messages, u, Box(w, u))
  {
  }

  lemma SendPrefix(w: World, from: int, peer: int, text: string, randomId: int, media: int, now: int, u: int)
    requires Structured(w) && from in w.accounts && peer in w.accounts
    requires PrefixRead(w.messages, u, Box(w, u))
    ensures var v := Send(w, from, peer, text, randomId, media, now);
            PrefixRead(v.messages, u, Box(v, u))
  {
    var g := |w.messages| + 1;
    var m := Message(g, from, peer, text, now, None, randomId, media, false);
    SendViews(w, from, peer, text, randomId, media, now, u);
    BoxesOk(w, u);
    AppendPrefix(w.messages, m, u, Box(w, u), Ref(|Box(w, u)| + 1, g, u == from, u != from));
  }

  lemma GrownReceipts(ms: seq<Message>, m: Message, u: int, p: int, b: seq<Ref>, c: seq<Ref>, pb: seq<Ref>,
      pc: seq<Ref>,
                      log: seq<Entry>, e: Entry)
    requires ReceiptsMatch(ms, u, p, b, pb, log) && !e.update.ReadOutbox?
    requires BoxOk(ms, u, b) && BoxOk(ms, p, pb)
    requires c == b || (|c| == |b| + 1 && c[..|b|] == b && c[|b|].globalId == |ms| + 1)
    requires pc == pb || (|pc| == |pb| + 1 && pc[..|pb|] == pb && (pc[|pb|].out || pc[|pb|].unread))
    ensures ReceiptsMatch(ms + [m], u, p, c, pc, log)
    ensures ReceiptsMatch(ms + [m], u, p, c, pc, log + [e])
  {
    ReadByGrows(ms, m, u, p, b, c, pb, pc);
    AppendReceipts(log, e, p);
  }

  lemma SendReceipts(w: World, from: int, peer: int, text: string, randomId: int, media: int, now: int, u: int, p: int)
    requires Structured(w) && from in w.accounts && peer in w.accounts && ReceiptsOk(w, u, p)
    ensures ReceiptsOk(Send(w, from, peer, text, randomId, media, now), u, p)
  {
    var v := Send(w, from, peer, text, randomId, media, now);
    var g := |w.messages| + 1;
    var m := Message(g, from, peer, text, now, None, randomId, media, false);
    SendViews(w, from, peer, text, randomId, media, now, u);
    SendViews(w, from, peer, text, randomId, media, now, p);
    BoxesOk(w, u);
    BoxesOk(w, p);
    var e := Entry(if u in w.accounts then w.accounts[u].pts + 1 else 1, 1, New(g), now);
    GrownReceipts(w.messages, m, u, p, Box(w, u), Box(v, u), Box(w, p), Box(v, p), Log(w, u), e);
  }

  lemma ReadByElsewhere(ms: seq<Message>, self: int, peer: int, maxId: int, selfBox: seq<Ref>, u: int, p: int,
                        b: seq<Ref>, c: seq<Ref>, pb: seq<Ref>, pc: seq<Ref>)
    requires BoxOk(ms, self, selfBox) && BoxOk(ms, u, b)
    requires u == self ==> b == selfBox && c == ReadBox(ms, self, peer, maxId, selfBox)
    requires u != self ==> c == b
    requires p == self ==> pb == selfBox && pc == ReadBox(ms, self, peer, maxId, selfBox)
    requires p != self ==> pc == pb
    requires u == self || u != peer || p != self
    ensures ReadBy(ms, u, p, c, pc) == ReadBy(ms, u, p, b, pb)
  {
    ReadByAfterRead(ms, self, peer, maxId, selfBox, u, p, b, c, pb, pc);
    if u == peer && p == self {
      SelfChatNotRead(ms, self, maxId, selfBox);
      assert OutgoingIds(b, ReadGlobals(ms, self, peer, maxId, selfBox)) == {};
    }
  }

  /** The sender's receipts from the reader: logging the greatest newly read id keeps them exact. */
  lemma ReadReceiptsThere(ms: seq<Message>, self: int, peer: int, maxId: int, selfBox: seq<Ref>,
                          b: seq<Ref>, log: seq<Entry>, e: Entry)
    requires peer != self
    requires ReceiptsMatch(ms, peer, self, b, selfBox, log)
    requires BoxOk(ms, self, selfBox) && BoxOk(ms, peer, b)
    requires e.update == ReadOutbox(self, Max0(OutgoingIds(b, ReadGlobals(ms, self, peer, maxId, selfBox))))
    ensures var after := ReadBox(ms, self, peer, maxId, selfBox);
            if e.update.maxId > 0 then ReceiptsMatch(ms, peer, self, b, after, log + [e])
            else ReceiptsMatch(ms, peer, self, b, after, log)
  {
    var after := ReadBox(ms, self, peer, maxId, selfBox);
    var globals := ReadGlobals(ms, self, peer, maxId, selfBox);
    ReadByAfterRead(ms, self, peer, maxId, selfBox, peer, self, b, b, selfBox, after);
    ReceiptLogged(ms, log, peer, self, b, selfBox, globals);
    AppendReceipts(log, e, self);
    var ids := OutgoingIds(b, globals);
    if e.update.maxId > 0 {
      assert Receipts(log + [e], self) == Receipts(log, self) + {Max0(ids)};
    } else {
      assert ReadBy(ms, peer, self, b, after) == ReadBy(ms, peer, self, b, selfBox);
    }
  }

  lemma ReadReceiptsSeen(w: World, v: World, self: int, peer: int, maxId: int, now: int, u: int, p: int)
    requires self in w.accounts && ReceiptsOk(w, u, p)
    requires ReadView(w, v, self, peer, maxId, now, u) && ReadView(w, v, self, peer, maxId, now, p)
    requires BoxOk(w.messages, self, Box(w, self)) && BoxOk(w.messages, u, Box(w, u))
    ensures ReceiptsOk(v, u, p)
  {
    var receipt := ReceiptId(w, self, peer, maxId);
    var pts := if u in w.accounts then w.accounts[u].pts + 1 else 1;
    if u != self && u == peer && p == self {
      ReadReceiptsThere(w.messages, self, peer, maxId, Box(w, self), Box(w, u), Log(w, u),
          Entry(pts, 1, ReadOutbox(self, receipt), now));
    } else {
      ReadByElsewhere(w.messages, self, peer, maxId, Box(w, self), u, p, Box(w, u), Box(v, u), Box(w, p), Box(v, p));
      AppendReceipts(Log(w, u),
          Entry(pts, 1, if u == self then ReadInbox(peer, maxId) else ReadOutbox(self, receipt), now), p);
    }
  }

  lemma ReadReceipts(w: World, self: int, peer: int, maxId: int, now: int, u: int, p: int)
    requires Structured(w) && self in w.accounts && ReceiptsOk(w, u, p)
    ensures ReceiptsOk(Read(w, self, peer, maxId, now), u, p)
  {
    ReadViews(w, self, peer, maxId, now, u);
    ReadViews(w, self, peer, maxId, now, p);
    BoxesOk(w, self);
    BoxesOk(w, u);
    ReadReceiptsSeen(w, Read(w, self, peer, maxId, now), self, peer, maxId, now, u, p);
  }

  /** Logging the greatest newly read id keeps the greatest logged id equal to the greatest read id. */
  lemma ReceiptLogged(ms: seq<Message>, log: seq<Entry>, u: int, p: int, box: seq<Ref>, peerBox: seq<Ref>,
      globals: set<int>)
    requires BoxOk(ms, u, box)
    requires forall x | x in Receipts(log, p) :: x > 0
    requires Max0(Receipts(log, p)) == Max0(ReadBy(ms, u, p, box, peerBox))
    ensures var ids := OutgoingIds(box, globals);
            && (Max0(ids) > 0 ==> Max0(Receipts(log, p) + {Max0(ids)}) == Max0(ReadBy(ms, u, p, box, peerBox) + ids))
            && (Max0(ids) <= 0 ==> ids == {})
  {
    OutgoingIdsPositive(ms, u, box, globals);
    ReadByPositive(ms, u, p, box, peerBox);
    MaxOfUnion(Receipts(log, p), ReadBy(ms, u, p, box, peerBox), OutgoingIds(box, globals));
  }

  lemma SelfChatNotRead(ms: seq<Message>, self: int, maxId: int, box: seq<Ref>)
    requires BoxOk(ms, self, box)
    ensures ReadGlobals(ms, self, self, maxId, box) == {}
  {
    forall g | g in ReadGlobals(ms, self, self, maxId, box) ensures false {
      ReadGlobalsAreFromPeer(ms, self, self, maxId, box, g);
    }
  }

  /** Boxes, participants and receipts are as before; other things may differ. */
  ghost predicate SameReads(w: World, v: World) {
    && |v.messages| == |w.messages|
    && (forall i | 0 <= i < |w.messages| ::
          v.messages[i].from == w.messages[i].from && v.messages[i].peer == w.messages[i].peer)
    && (forall u :: Box(v, u) == Box(w, u))
    && (forall u, peer :: Receipts(Log(v, u), peer) == Receipts(Log(w, u), peer))
  }

  lemma SameReadsMarks(w: World, v: World, u: int, peer: int)
    requires SameReads(w, v)
    ensures PrefixRead(w.messages, u, Box(w, u)) ==> PrefixRead(v.messages, u, Box(v, u))
    ensures ReceiptsOk(w, u, peer) ==> ReceiptsOk(v, u, peer)
  {
    forall u, p, r ensures With(v.messages, u, p, r) == With(w.messages, u, p, r) {
    }
    var b, c := Box(w, u), Box(v, u);
    forall p, i | 0 <= i < |c| && Incoming(v.messages, u, p, c[i]) ensures Incoming(w.messages, u, p, b[i]) {
    }
    assert ReadBy(v.messages, u, peer, Box(v, u), Box(v, peer)) == ReadBy(w.messages, u, peer, Box(w, u), Box(w, peer));
  }

  lemma EditSameReads(w: World, self: int, localId: int, text: string, now: int)
    ensures SameReads(w, EditText(w, self, localId, text, now))
  {
    var v := EditText(w, self, localId, text, now);
    forall u, p ensures Receipts(Log(v, u), p) == Receipts(Log(w, u), p) {
      if u in w.accounts && Editable(w, self, localId) {
        var a := w.accounts[u];
        AppendReceipts(a.log, Entry(a.pts + 1, 1, Edit(Box(w, self)[localId - 1].globalId), now), p);
      }
    }
  }

  lemma DeleteSameReads(w: World, self: int, ids: seq<int>, now: int)
    ensures SameReads(w, DeleteIds(w, self, ids, now))
  {
    var v := DeleteIds(w, self, ids, now);
    var held := Held(Box(w, self), ids);
    forall u, p ensures Receipts(Log(v, u), p) == Receipts(Log(w, u), p) {
      if u in w.accounts {
        var a := w.accounts[u];
        AppendReceipts(a.log, Entry(a.pts + |held|, |held|, Delete(held), now), p);
      }
    }
  }

  lemma CreateSameReads(w: World)
    requires Structured(w) && w.userSeq + 1 != BOT_FATHER_ID
    ensures SameReads(w, Create(w))
  {
  }

  lemma StepPrefix(w: World, op: Op, u: int)
    requires Structured(w) && Enabled(w, op) && PrefixRead(w.messages, u, Box(w, u))
    ensures PrefixRead(Step(w, op).messages, u, Box(Step(w, op), u))
  {
    match op
    case CreateOp => CreateSameReads(w); SameReadsMarks(w, Step(w, op), u, u);
    case SendOp(from, peer, text, randomId, media, now) => SendPrefix(w, from, peer, text, randomId, media, now, u);
    case EditOp(self, localId, text, now) =>
      EditSameReads(w, self, localId, text, now);
      SameReadsMarks(w, Step(w, op), u, u);
    case DeleteOp(self, ids, now) => DeleteSameReads(w, self, ids, now); SameReadsMarks(w, Step(w, op), u, u);
    case ReadOp(self, peer, maxId, now) =>
      ReadViews(w, self, peer, maxId, now, u);
      BoxesOk(w, u);
      ReadBoxPrefix(w.messages, u, peer, maxId, Box(w, u));
  }

  lemma StepReceipts(w: World, op: Op, u: int, p: int)
    requires Structured(w) && Enabled(w, op) && ReceiptsOk(w, u, p)
    ensures ReceiptsOk(Step(w, op), u, p)
  {
    match op
    case CreateOp => CreateSameReads(w); SameReadsMarks(w, Step(w, op), u, p);
    case SendOp(from, peer, text, randomId, media, now) =>
      SendReceipts(w, from, peer, text, randomId, media, now, u, p);
    case EditOp(self, localId, text, now) =>
      EditSameReads(w, self, localId, text, now);
      SameReadsMarks(w, Step(w, op), u, p);
    case DeleteOp(self, ids, now) => DeleteSameReads(w, self, ids, now); SameReadsMarks(w, Step(w, op), u, p);
    case ReadOp(self, peer, maxId, now) => ReadReceipts(w, self, peer, maxId, now, u, p);
  }

  lemma StepMarks(w: World, op: Op)
    requires Structured(w) && ReadMarksOk(w) && Enabled(w, op)
    ensures ReadMarksOk(Step(w, op))
  {
    var v := Step(w, op);
    forall u ensures PrefixRead(v.messages, u, Box(v, u)) {
      StepPrefix(w, op, u);
    }
    forall u, peer ensures ReceiptsOk(v, u, peer) {
      StepReceipts(w, op, u, peer);
    }
  }
}
