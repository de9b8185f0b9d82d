/** The structural invariant of the messaging tables, kept by every operation. */
module Structure {
  import opened Prelude
  import opened Messaging

  predicate Participant(ms: seq<Message>, u: int, g: int)
    requires Known(ms, g)
  {
    MessageAt(ms, g).from == u || MessageAt(ms, g).peer == u
  }

  /** User ids are 1..userSeq plus the built-in account. */
  ghost predicate IdsOk(w: World) {
    && w.userSeq >= 0
    && BOT_FATHER_ID in w.accounts
    && forall u :: u in w.accounts <==> (1 <= u <= w.userSeq || u == BOT_FATHER_ID)
  }

  ghost predicate MessagesOk(w: World) {
    forall i | 0 <= i < |w.messages| ::
      && w.messages[i].globalId == i + 1
      && w.messages[i].from in w.accounts
      && w.messages[i].peer in w.accounts
  }

  ghost predicate RefOk(ms: seq<Message>, u: int, r: Ref) {
    && Known(ms, r.globalId)
    && Participant(ms, u, r.globalId)
    && (r.out <==> MessageAt(ms, r.globalId).from == u)
    && (r.out ==> !r.unread)
  }

  ghost predicate Increasing(box: seq<Ref>) {
    forall i, j | 0 <= i < j < |box| :: box[i].globalId < box[j].globalId
  }

  ghost predicate BoxOk(ms: seq<Message>, u: int, box: seq<Ref>) {
    && (forall i | 0 <= i < |box| :: box[i].localId == i + 1)
    && (forall i | 0 <= i < |box| :: RefOk(ms, u, box[i]))
    && Increasing(box)
  }

  ghost predicate Holds(box: seq<Ref>, g: int) {
    exists i :: 0 <= i < |box| && box[i].globalId == g
  }

  /** Every participant of a message has a reference to it. */
  ghost predicate Complete(w: World) {
    forall g, u | Known(w.messages, g) && Participant(w.messages, u, g) :: Holds(Box(w, u), g)
  }

  ghost predicate Structured(w: World) {
    && IdsOk(w)
    && MessagesOk(w)
    && (forall u | u in w.accounts :: w.accounts[u].lastId == |w.accounts[u].box|)
    && (forall u | u in w.accounts :: BoxOk(w.messages, u, w.accounts[u].box))
    && Complete(w)
  }

  // --- preservation --------------------------------------------------------

  lemma PutAppends(a: Account, g: int, out: bool, now: int)
    requires a.lastId == |a.box|
    ensures Receive(a, g, out, now).box == a.box + [Ref(|a.box| + 1, g, out, !out)]
  {
  }

  lemma CreateStructured(w: World)
    requires Structured(w) && w.userSeq + 1 != BOT_FATHER_ID
    ensures Structured(Create(w))
    ensures w.userSeq + 1 !in w.accounts
  {
    var v := Create(w);
    forall g, u | Known(v.messages, g) && Participant(v.messages, u, g) ensures Holds(Box(v, u), g) {
      assert Holds(Box(w, u), g);
    }
  }

  /** What sending does to each account: both participants receive the message. */
  lemma SendAccounts(w: World, from: int, peer: int, text: string, randomId: int, media: int, now: int, u: int)
    requires from in w.accounts && peer in w.accounts && u in w.accounts
    ensures var v := Send(w, from, peer, text, randomId, media, now);
            var g := |w.messages| + 1;
            && v.accounts.Keys == w.accounts.Keys
            && v.userSeq == w.userSeq
            && v.messages == w.messages + [Message(g, from, peer, text, now, None, randomId, media, false)]
            && v.accounts[u] == (if u == from || u == peer then Receive(w.accounts[u], g, u == from, now)
                else w.accounts[u])
  {
  }

  /** What sending does to each box: one appended reference for a participant. */
  lemma SendBoxes(w: World, from: int, peer: int, text: string, randomId: int, media: int, now: int, u: int)
    requires Structured(w) && from in w.accounts && peer in w.accounts && u in w.accounts
    ensures var v := Send(w, from, peer, text, randomId, media, now);
            var g := |w.messages| + 1;
            && v.accounts.Keys == w.accounts.Keys
            && v.userSeq == w.userSeq
            && v.messages == w.messages + [Message(g, from, peer, text, now, None, randomId, media, false)]
            && v.accounts[u] == (if u == from || u == peer then Receive(w.accounts[u], g, u == from, now)
                else w.accounts[u])
            && Box(v, u) == Box(w, u) + (if u == from || u == peer then [Ref(|Box(w, u)| + 1, g, u == from, u != from)]
                else [])
  {
    SendAccounts(w, from, peer, text, randomId, media, now, u);
    PutAppends(w.accounts[u], |w.messages| + 1, u == from, now);
  }

  /** `v` is `w` after `from` sent message `m` to `peer`, as seen through user id `u`. */
  ghost predicate SendView(w: World, v: World, m: Message, u: int) {
    var party := u == m.from || u == m.peer;
    && m.globalId == |w.messages| + 1
    && v.messages == w.messages + [m]
    && Box(v, u) == Box(w, u) + (if party then [Ref(|Box(w, u)| + 1, m.globalId, u == m.from, u != m.from)] else [])
    && (!party ==> Log(v, u) == Log(w, u))
    && (party ==>
          && u in w.accounts
          && Log(v, u) == Log(w, u) + [Entry(w.accounts[u].pts + 1, 1, New(m.globalId), m.date)])
  }

  lemma SendViews(w: World, from: int, peer: int, text: string, randomId: int, media: int, now: int, u: int)
    requires Structured(w) && from in w.accounts && peer in w.accounts
    ensures SendView(w, Send(w, from, peer, text, randomId, media, now),
                     Message(|w.messages| + 1, from, peer, text, now, None, randomId, media, false), u)
  {
    SendBoxes(w, from, peer, text, randomId, media, now, from);
    if u in w.accounts {
      SendBoxes(w, from, peer, text, randomId, media, now, u);
    }
  }

  /** References stay sound while messages are only appended. */
  lemma BoxOkGrows(ms: seq<Message>, m: Message, u: int, box: seq<Ref>)
    requires BoxOk(ms, u, box)
    ensures BoxOk(ms + [m], u, box)
  {
    forall i | 0 <= i < |box| ensures RefOk(ms + [m], u, box[i]) {
      assert RefOk(ms, u, box[i]);
      assert (ms + [m])[box[i].globalId - 1] == ms[box[i].globalId - 1];
    }
  }

  lemma BoxOkAppend(ms: seq<Message>, m: Message, u: int, box: seq<Ref>, r: Ref)
    requires BoxOk(ms, u, box)
    requires r.localId == |box| + 1 && r.globalId == |ms| + 1 && RefOk(ms + [m], u, r)
    ensures BoxOk(ms + [m], u, box + [r])
  {
    BoxOkGrows(ms, m, u, box);
    var c := box + [r];
    forall i, j | 0 <= i < j < |c| ensures c[i].globalId < c[j].globalId {
      assert RefOk(ms, u, box[i]);
    }
  }

  lemma SendBoxOk(w: World, from: int, peer: int, text: string, randomId: int, media: int, now: int, u: int)
    requires Structured(w) && from in w.accounts && peer in w.accounts && u in w.accounts
    ensures var v := Send(w, from, peer, text, randomId, media, now);
            u in v.accounts && BoxOk(v.messages, u, v.accounts[u].box) && v.accounts[u].lastId == |v.accounts[u].box|
  {
    SendBoxes(w, from, peer, text, randomId, media, now, u);
    var g := |w.messages| + 1;
    var m := Message(g, from, peer, text, now, None, randomId, media, false);
    if u == from || u == peer {
      BoxOkAppend(w.messages, m, u, w.accounts[u].box, Ref(|Box(w, u)| + 1, g, u == from, u != from));
    } else {
      BoxOkGrows(w.messages, m, u, w.accounts[u].box);
    }
  }

  lemma HoldsLonger(box: seq<Ref>, more: seq<Ref>, g: int)
    requires box <= more && Holds(box, g)
    ensures Holds(more, g)
  {
    var i :| 0 <= i < |box| && box[i].globalId == g;
    assert more[i].globalId == g;
  }

  lemma SendHolds(w: World, v: World, m: Message, h: int, u: int)
    requires SendView(w, v, m, u) && Known(v.messages, h) && Participant(v.messages, u, h)
    requires Known(w.messages, h) && Participant(w.messages, u, h) ==> Holds(Box(w, u), h)
    ensures Holds(Box(v, u), h)
  {
    if h == m.globalId {
      assert Box(v, u)[|Box(w, u)|].globalId == h;
    } else {
      assert MessageAt(v.messages, h) == MessageAt(w.messages, h);
      HoldsLonger(Box(w, u), Box(v, u), h);
    }
  }

  lemma SendComplete(w: World, from: int, peer: int, text: string, randomId: int, media: int, now: int)
    requires Structured(w) && from in w.accounts && peer in w.accounts
    ensures Complete(Send(w, from, peer, text, randomId, media, now))
  {
    var v := Send(w, from, peer, text, randomId, media, now);
    var m := Message(|w.messages| + 1, from, peer, text, now, None, randomId, media, false);
    forall h, u | Known(v.messages, h) && Participant(v.messages, u, h) ensures Holds(Box(v, u), h) {
      SendViews(w, from, peer, text, randomId, media, now, u);
      SendHolds(w, v, m, h, u);
    }
  }

  lemma SendStructured(w: World, from: int, peer: int, text: string, randomId: int, media: int, now: int)
    requires Structured(w) && from in w.accounts && peer in w.accounts
    ensures Structured(Send(w, from, peer, text, randomId, media, now))
  {
    var v := Send(w, from, peer, text, randomId, media, now);
    SendBoxes(w, from, peer, text, randomId, media, now, from);
    assert IdsOk(v);
    assert MessagesOk(v);
    forall u | u in v.accounts
      ensures BoxOk(v.messages, u, v.accounts[u].box) && v.accounts[u].lastId == |v.accounts[u].box|
    {
      SendBoxOk(w, from, peer, text, randomId, media, now, u);
    }
    SendComplete(w, from, peer, text, randomId, media, now);
  }

  /**
   Two worlds with the same accounts, the same participants per message and the same
   references up to read marks on incoming ones.
   */
  ghost predicate SameShape(w: World, v: World) {
    && v.userSeq == w.userSeq
    && v.accounts.Keys == w.accounts.Keys
    && |v.messages| == |w.messages|
    && (forall i | 0 <= i < |w.messages| ::
          && v.messages[i].globalId == w.messages[i].globalId
          && v.messages[i].from == w.messages[i].from
          && v.messages[i].peer == w.messages[i].peer)
    && (forall u | u in w.accounts ::
          && v.accounts[u].lastId == w.accounts[u].lastId
          && |v.accounts[u].box| == |w.accounts[u].box|
          && forall i | 0 <= i < |w.accounts[u].box| ::
               var r, q := w.accounts[u].box[i], v.accounts[u].box[i];
               q == r || (!r.out && q == r.(unread := false)))
  }

  lemma SameShapeBoxOk(w: World, v: World, u: int)
    requires Structured(w) && SameShape(w, v) && u in w.accounts
    ensures BoxOk(v.messages, u, v.accounts[u].box)
  {
    var b, c := w.accounts[u].box, v.accounts[u].box;
    assert BoxOk(w.messages, u, b);
    forall i | 0 <= i < |c|
      ensures RefOk(v.messages, u, c[i]) && c[i].localId == i + 1 && c[i].globalId == b[i].globalId
    {
      assert RefOk(w.messages, u, b[i]);
      var g := b[i].globalId;
      assert v.messages[g - 1].from == w.messages[g - 1].from;
    }
  }

  lemma SameShapeComplete(w: World, v: World)
    requires Structured(w) && SameShape(w, v)
    ensures Complete(v)
  {
    forall g, u | Known(v.messages, g) && Participant(v.messages, u, g) ensures Holds(Box(v, u), g) {
      assert v.messages[g - 1].from == w.messages[g - 1].from;
      assert Participant(w.messages, u, g);
      assert u in w.accounts;
      var i :| 0 <= i < |Box(w, u)| && Box(w, u)[i].globalId == g;
      assert Box(v, u)[i].globalId == g;
    }
  }

  lemma SameShapeStructured(w: World, v: World)
    requires Structured(w) && SameShape(w, v)
    ensures Structured(v)
  {
    forall u | u in v.accounts ensures BoxOk(v.messages, u, v.accounts[u].box) {
      SameShapeBoxOk(w, v, u);
    }
    SameShapeComplete(w, v);
    assert IdsOk(v);
    assert MessagesOk(v);
  }

  lemma EditShape(w: World, self: int, localId: int, text: string, now: int)
    ensures SameShape(w, EditText(w, self, localId, text, now))
  {
  }

  lemma DeleteShape(w: World, self: int, ids: seq<int>, now: int)
    ensures SameShape(w, DeleteIds(w, self, ids, now))
  {
  }

  lemma ReadShape(w: World, self: int, peer: int, maxId: int, now: int)
    requires self in w.accounts
    ensures SameShape(w, Read(w, self, peer, maxId, now))
  {
  }

  /** What a read does to each account. */
  lemma ReadAccounts(w: World, self: int, peer: int, maxId: int, now: int, u: int)
    requires self in w.accounts && u in w.accounts
    ensures var v := Read(w, self, peer, maxId, now);
            var receipt := ReceiptId(w, self, peer, maxId);
            && v.accounts.Keys == w.accounts.Keys
            && v.messages == w.messages
            && v.userSeq == w.userSeq
            && (receipt > 0 ==> peer in w.accounts)
            && v.accounts[u] ==
                 (if u == self then
                    Posted(w.accounts[u].(box := ReadBox(w.messages, self, peer, maxId, w.accounts[u].box)), 1,
                        ReadInbox(peer, maxId), now)
                  else if u == peer && receipt > 0 then
                    Posted(w.accounts[u], 1, ReadOutbox(self, receipt), now)
                  else w.accounts[u])
  {
    if peer !in w.accounts {
      assert OutgoingIds(Box(w, peer), ReadGlobals(w.messages, self, peer, maxId, Box(w, self))) == {};
    }
  }

  /** `v` is `w` after `self` read its conversation with `peer`, as seen through user id `u`. */
  ghost predicate ReadView(w: World, v: World, self: int, peer: int, maxId: int, now: int, u: int)
    requires self in w.accounts
  {
    var receipt := ReceiptId(w, self, peer, maxId);
    && v.messages == w.messages
    && Box(v, u) == (if u == self then ReadBox(w.messages, self, peer, maxId, Box(w, u)) else Box(w, u))
    && (u == self ==> Log(v, u) == Log(w, u) + [Entry(w.accounts[u].pts + 1, 1, ReadInbox(peer, maxId), now)])
    && (u != self && u == peer && receipt > 0 ==>
          u in w.accounts && Log(v, u) == Log(w, u) + [Entry(w.accounts[u].pts + 1, 1, ReadOutbox(self, receipt), now)])
    && (u != self && !(u == peer && receipt > 0) ==> Log(v, u) == Log(w, u))
  }

  lemma ReadViews(w: World, self: int, peer: int, maxId: int, now: int, u: int)
    requires self in w.accounts
    ensures ReadView(w, Read(w, self, peer, maxId, now), self, peer, maxId, now, u)
  {
    ReadAccounts(w, self, peer, maxId, now, self);
    if u in w.accounts {
      ReadAccounts(w, self, peer, maxId, now, u);
    }
  }

  /** `v` is `w` after `self` changed message `g` to `text`, as seen through user id `u`. */
  ghost predicate EditView(w: World, v: World, g: int, text: string, now: int, u: int)
    requires Known(w.messages, g)
  {
    var m := MessageAt(w.messages, g);
    && v.messages == w.messages[g - 1 := m.(text := text, editDate := Some(now))]
    && Box(v, u) == Box(w, u)
    && (Participant(w.messages, u, g)
        ==> u in w.accounts && Log(v, u) == Log(w, u) + [Entry(w.accounts[u].pts + 1, 1, Edit(g), now)])
    && (!Participant(w.messages, u, g) ==> Log(v, u) == Log(w, u))
  }

  lemma EditViews(w: World, self: int, localId: int, text: string, now: int, u: int)
    requires MessagesOk(w) && Editable(w, self, localId)
    ensures EditView(w, EditText(w, self, localId, text, now), Box(w, self)[localId - 1].globalId, text, now, u)
  {
  }

  /** `v` is `w` after `self` deleted the local ids `held`, as seen through user id `u`. */
  ghost predicate DeleteView(w: World, v: World, self: int, held: seq<int>, now: int, u: int) {
    && v.messages == Marked(w.messages, GlobalIds(Box(w, self), held))
    && Box(v, u) == Box(w, u)
    && (u == self ==>
          && u in w.accounts
          && Log(v, u) == Log(w, u) + [Entry(w.accounts[u].pts + |held|, |held|, Delete(held), now)])
    && (u != self ==> Log(v, u) == Log(w, u))
  }

  lemma DeleteViews(w: World, self: int, ids: seq<int>, now: int, u: int)
    requires Held(Box(w, self), ids) != []
    ensures DeleteView(w, DeleteIds(w, self, ids, now), self, Held(Box(w, self), ids), now, u)
  {
    if self !in w.accounts {
      HeldFromBox([], ids);
    }
  }

  lemma {:induction ids} HeldFromBox(box: seq<Ref>, ids: seq<int>)
    ensures forall l | l in Held(box, ids) :: l in ids && 1 <= l <= |box|
    ensures forall l | l in ids && 1 <= l <= |box| :: l in Held(box, ids)
    ensures box == [] ==> Held(box, ids) == []
  {
  }

  lemma StepStructured(w: World, op: Op)
    requires Structured(w) && Enabled(w, op)
    ensures Structured(Step(w, op))
  {
    match op
    case CreateOp => CreateStructured(w);
    case SendOp(from, peer, text, randomId, media, now) => SendStructured(w, from, peer, text, randomId, media, now);
    case EditOp(self, localId, text, now) =>
      EditShape(w, self, localId, text, now);
      SameShapeStructured(w, Step(w, op));
    case DeleteOp(self, ids, now) =>
      DeleteShape(w, self, ids, now);
      SameShapeStructured(w, Step(w, op));
    case ReadOp(self, peer, maxId, now) =>
      ReadShape(w, self, peer, maxId, now);
      SameShapeStructured(w, Step(w, op));
  }
}
