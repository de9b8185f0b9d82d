/** Facts about single operations that the in-memory methods rely on. */
module DbSteps {
  import opened Prelude
  import opened Messaging
  import opened Structure
  import opened ReadState
  import opened CatchUp
  import opened Invariant
  import opened Tables

  datatype SentMessage = SentMessage(
    globalId: int, date: int, senderLocalId: int, senderPts: int, recipientLocalId: int, recipientPts: int,
        selfChat: bool)

  datatype EditResult = EditResult(
    selfLocalId: int, selfPts: int, peerUserId: int, peerLocalId: int, peerPts: int, date: int, editDate: int)

  datatype DeleteResult = DeleteResult(pts: int, ptsCount: int, localIds: seq<int>)

  datatype ReadResult = ReadResult(inboxPts: int, unreadCount: int, outboxPts: int, outboxMaxId: int)

  /** A read is: mark, find the receipt, count what is left, log. */
  lemma ReadFacts(w: World, self: int, peer: int, maxId: int, now: int)
    requires Reachable(w) && self in w.accounts
    ensures Reachable(Read(w, self, peer, maxId, now))
    ensures Numbered(Box(w, self))
    ensures ReceiptId(w, self, peer, maxId) > 0 ==> peer in w.accounts
    ensures var globals := ReadGlobals(w.messages, self, peer, maxId, Box(w, self));
            var marked := WithBox(w, self, ReadBox(w.messages, self, peer, maxId, Box(w, self)));
            var v := Read(w, self, peer, maxId, now);
            var receipt := ReceiptId(w, self, peer, maxId);
            var logged := Post(marked, self, 1, ReadInbox(peer, maxId), now);
            && Numbered(Box(marked, self)) && Numbered(Box(marked, peer))
            && Max0(OutgoingIds(Box(marked, peer), globals)) == receipt
            && v == (if receipt > 0 && peer != self then Post(logged, peer, 1, ReadOutbox(self, receipt), now)
                else logged)
            && v.messages == marked.messages && Box(v, self) == Box(marked, self)
            && marked.accounts[self].pts == w.accounts[self].pts
            && (peer in w.accounts ==> marked.accounts[peer].pts == w.accounts[peer].pts)
  {
    ReachableStep(w, ReadOp(self, peer, maxId, now));
    ReachableBox(w, self);
    ReachableBox(w, peer);
    ReadAccounts(w, self, peer, maxId, now, self);
    ReadBoxOutgoingIds(w.messages, self, peer, maxId, Box(w, self),
        ReadGlobals(w.messages, self, peer, maxId, Box(w, self)));
  }

  lemma ReachableBox(w: World, u: int)
    requires Reachable(w)
    ensures BoxOk(w.messages, u, Box(w, u))
  {
    ReachableInv(w);
    BoxesOk(w, u);
  }

  /** Global ids of the read references outside the local ids still to visit. */
  ghost function PartGlobals(ms: seq<Message>, self: int, peer: int, maxId: int, box: seq<Ref>,
      rest: set<int>): set<int> {
    set r | r in box && r.localId !in rest && Reads(ms, self, peer, maxId, r) :: r.globalId
  }

  lemma GlobalsSet<T>(xs: seq<T>, globals: set<T>)
    requires forall g :: g in xs <==> g in globals
    ensures (set g | g in xs) == globals
  {
  }

  function WithBox(w: World, u: int, box: seq<Ref>): World
    requires u in w.accounts
  {
    w.(accounts := w.accounts[u := w.accounts[u].(box := box)])
  }

  lemma WithBoxTwice(w: World, u: int, b: seq<Ref>, c: seq<Ref>)
    requires u in w.accounts
    ensures WithBox(WithBox(w, u, b), u, c) == WithBox(w, u, c)
    ensures WithBox(w, u, Box(w, u)) == w
  {
    Overwrite(w.accounts, u, w.accounts[u].(box := b), w.accounts[u].(box := c));
  }

  /** The box while the marking loop still has the local ids `rest` to visit. */
  ghost function PartRead(ms: seq<Message>, self: int, peer: int, maxId: int, box: seq<Ref>, rest: set<int>): seq<Ref> {
    seq(|box|, i requires 0 <= i < |box| => if i + 1 in rest then box[i] else ReadRef(ms, self, peer, maxId, box[i]))
  }

  lemma MarkingStarts(ms: seq<Message>, self: int, peer: int, maxId: int, box: seq<Ref>, rest: set<int>)
    requires Numbered(box) && forall l :: l in rest <==> 1 <= l <= |box|
    ensures PartRead(ms, self, peer, maxId, box, rest) == box
    ensures PartGlobals(ms, self, peer, maxId, box, rest) == {}
  {
  }

  lemma MarkingEnds(ms: seq<Message>, self: int, peer: int, maxId: int, box: seq<Ref>)
    ensures PartRead(ms, self, peer, maxId, box, {}) == ReadBox(ms, self, peer, maxId, box)
    ensures PartGlobals(ms, self, peer, maxId, box, {}) == ReadGlobals(ms, self, peer, maxId, box)
  {
  }

  /** Visiting local id `l` moves the box and the read globals from `rest` to `rest - {l}`. */
  lemma MarkingStep(w: World, self: int, peer: int, maxId: int, box: seq<Ref>, rest: set<int>, l: int)
    requires self in w.accounts && Numbered(box) && 1 <= l <= |box| && l in rest
    ensures var ms := w.messages;
            var part := PartRead(ms, self, peer, maxId, box, rest);
            var next := PartRead(ms, self, peer, maxId, box, rest - {l});
            var hit := Reads(ms, self, peer, maxId, box[l - 1]);
            && part[l - 1] == box[l - 1]
            && next == (if hit then PutRef(part, box[l - 1].(unread := false)) else part)
            && PartGlobals(ms, self, peer, maxId, box, rest - {l}) ==
                 PartGlobals(ms, self, peer, maxId, box, rest) + (if hit then {box[l - 1].globalId} else {})
            && WithBox(WithBox(w, self, part), self, next) == WithBox(w, self, next)
  {
    var ms := w.messages;
    forall r | r in box && r.localId == l ensures r == box[l - 1] {
      var i :| 0 <= i < |box| && box[i] == r;
    }
    assert box[l - 1] in box;
    WithBoxTwice(w, self, PartRead(ms, self, peer, maxId, box, rest), PartRead(ms, self, peer, maxId, box, rest - {l}));
  }

  function MarkedAt(w: World, g: int): World {
    if Known(w.messages, g)
    then w.(messages := w.messages[g - 1 := MessageAt(w.messages, g).(deleted := true)])
    else w
  }

  /** Marking one more held id, after those marked before. */
  lemma MarkedOneMore(w: World, box: seq<Ref>, held: seq<int>, l: int)
    requires 1 <= l <= |box|
    ensures MarkedAt(w.(messages := Marked(w.messages, GlobalIds(box, held))), box[l - 1].globalId) ==
            w.(messages := Marked(w.messages, GlobalIds(box, held + [l])))
  {
    MarkOneMore(w.messages, box, held, l);
  }

  /** What a successful edit returns: the sender's and the other side's ids and pts. */
  ghost predicate EditReported(w: World, self: int, localId: int, now: int, res: EditResult)
    requires Editable(w, self, localId)
  {
    var g := Box(w, self)[localId - 1].globalId;
    var m := MessageAt(w.messages, g);
    && res.selfLocalId == localId && res.peerUserId == m.peer && res.date == m.date && res.editDate == now
    && res.selfPts == w.accounts[self].pts + 1
    && (m.peer == self ==> res.peerLocalId == 0 && res.peerPts == 0)
    && (m.peer != self ==>
          && m.peer in w.accounts
          && res.peerPts == w.accounts[m.peer].pts + 1
          && 1 <= res.peerLocalId <= |Box(w, m.peer)|
          && Box(w, m.peer)[res.peerLocalId - 1].globalId == g)
  }

  /** An edit is: change the message, log for the sender, log for the other side. */
  lemma EditFacts(w: World, self: int, localId: int, text: string, now: int)
    requires Editable(w, self, localId)
    ensures var g := Box(w, self)[localId - 1].globalId;
            var m := MessageAt(w.messages, g);
            var edited := w.(messages := w.messages[g - 1 := m.(text := text, editDate := Some(now))]);
            var logged := Post(edited, self, 1, Edit(g), now);
            && Known(w.messages, g) && self in w.accounts
            && EditText(w, self, localId, text, now)
                == (if m.peer == self then logged else Post(logged, m.peer, 1, Edit(g), now))
            && (m.peer != self && m.peer in w.accounts ==>
                  m.peer in logged.accounts && logged.accounts[m.peer] == w.accounts[m.peer])
  {
  }

  /** The box has one copy of the message, and it stands at its local id. */
  ghost predicate Finds(box: seq<Ref>, g: int) {
    && Increasing(box) && Find(box, g).Some?
    && var q := Find(box, g).value;
    1 <= q.localId <= |box| && box[q.localId - 1] == q
  }

  lemma ReportFits(w: World, self: int, localId: int, g: int, m: Message, now: int, res: EditResult)
    requires Editable(w, self, localId) && g == Box(w, self)[localId - 1].globalId && m == MessageAt(w.messages, g)
    requires m.peer in w.accounts && Finds(Box(w, m.peer), g)
    requires res.selfLocalId == localId && res.peerUserId == m.peer && res.date == m.date && res.editDate == now
    requires res.selfPts == w.accounts[self].pts + 1
    requires m.peer == self ==> res.peerLocalId == 0 && res.peerPts == 0
    requires m.peer != self ==>
               && res.peerLocalId == Find(Box(w, m.peer), g).value.localId
               && res.peerPts == w.accounts[m.peer].pts + 1
    ensures EditReported(w, self, localId, now, res)
  {
  }

  /** The other side of an editable message holds it. */
  lemma EditPeerFinds(w: World, self: int, localId: int)
    requires Reachable(w) && Editable(w, self, localId)
    ensures var g := Box(w, self)[localId - 1].globalId;
            var peer := MessageAt(w.messages, g).peer;
            peer in w.accounts && Finds(Box(w, peer), g)
  {
    EditPeer(w, self, localId);
    var g := Box(w, self)[localId - 1].globalId;
    var peer := MessageAt(w.messages, g).peer;
    ReachableBox(w, peer);
    HolderFinds(w.messages, peer, Box(w, peer), g);
  }

  lemma ReachableEdited(w: World, self: int, localId: int, text: string, now: int)
    requires Reachable(w)
    ensures Reachable(EditText(w, self, localId, text, now))
  {
    ReachableStep(w, EditOp(self, localId, text, now));
  }

  lemma EditPeer(w: World, self: int, localId: int)
    requires Reachable(w) && Editable(w, self, localId)
    ensures var g := Box(w, self)[localId - 1].globalId;
            var m := MessageAt(w.messages, g);
            m.peer in w.accounts && Holds(Box(w, m.peer), g)
  {
    ReachableInv(w);
    var g := Box(w, self)[localId - 1].globalId;
    assert w.messages[g - 1].peer in w.accounts;
    assert Participant(w.messages, MessageAt(w.messages, g).peer, g);
  }

  lemma HolderFinds(ms: seq<Message>, u: int, box: seq<Ref>, g: int)
    requires BoxOk(ms, u, box) && Holds(box, g)
    ensures Finds(box, g)
  {
    var q := Find(box, g).value;
    var i :| 0 <= i < |box| && box[i] == q;
  }

  lemma MarkOneMore(ms: seq<Message>, box: seq<Ref>, held: seq<int>, l: int)
    requires 1 <= l <= |box|
    ensures var g := box[l - 1].globalId;
            && GlobalIds(box, held + [l]) == GlobalIds(box, held) + {g}
            && (Known(ms, g) ==>
                  Marked(ms, GlobalIds(box, held + [l])) ==
                  Marked(ms, GlobalIds(box, held))[g - 1 := Marked(ms, GlobalIds(box, held))[g - 1].(deleted := true)])
            && (!Known(ms, g) ==> Marked(ms, GlobalIds(box, held + [l])) == Marked(ms, GlobalIds(box, held)))
  {
    var g := box[l - 1].globalId;
    forall x ensures x in GlobalIds(box, held + [l]) <==> x in GlobalIds(box, held) || x == g {
      if x in GlobalIds(box, held) {
        var k :| k in held && 1 <= k <= |box| && box[k - 1].globalId == x;
        assert k in held + [l];
      }
      assert l in held + [l];
    }
  }

  /** The world with one account replaced. */
  function WithAccount(w: World, u: int, a: Account): World {
    w.(accounts := w.accounts[u := a])
  }

  lemma Overwrite<K, V>(m: map<K, V>, k: K, x: V, y: V)
    ensures m[k := x][k := y] == m[k := y]
  {
  }

  lemma ReachableSend(w: World, from: int, peer: int, text: string, randomId: int, media: int, now: int)
    requires Reachable(w) && from in w.accounts && peer in w.accounts
    ensures Reachable(Send(w, from, peer, text, randomId, media, now))
    ensures forall u | u == from || u == peer :: w.accounts[u].lastId == |w.accounts[u].box|
    ensures var v := Send(w, from, peer, text, randomId, media, now);
            && |v.messages| == |w.messages| + 1
            && forall u | u == from || u == peer :: |Box(v, u)| == w.accounts[u].lastId + 1
  {
    ReachableInv(w);
    ReachableStep(w, SendOp(from, peer, text, randomId, media, now));
    SendViews(w, from, peer, text, randomId, media, now, from);
    SendViews(w, from, peer, text, randomId, media, now, peer);
  }

  lemma ReachableFresh(w: World)
    requires Reachable(w) && w.userSeq + 1 != BOT_FATHER_ID
    ensures Reachable(Create(w)) && w.userSeq + 1 !in w.accounts
  {
    ReachableInv(w);
    assert IdsOk(w);
    ReachableStep(w, CreateOp);
  }
}
