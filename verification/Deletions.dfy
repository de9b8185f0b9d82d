/** A message is deleted exactly when one of its participants logged its deletion. */
module Deletions {
  import opened Prelude
  import opened Messaging
  import opened Structure
  import opened UpdateLog

  /** The account deleted its own copy of the message. */
  ghost predicate GoneFor(box: seq<Ref>, gone: set<int>, g: int) {
    exists i :: 0 <= i < |box| && box[i].globalId == g && i + 1 in gone
  }

  ghost predicate DeletedBy(w: World, u: int, g: int) {
    GoneFor(Box(w, u), DeletedIds(Log(w, u)), g)
  }

  ghost predicate DeletionsOk(w: World) {
    forall g | Known(w.messages, g) ::
      MessageAt(w.messages, g).deleted <==>
      DeletedBy(w, MessageAt(w.messages, g).from, g) || DeletedBy(w, MessageAt(w.messages, g).peer, g)
  }

  lemma AppendDeleted(log: seq<Entry>, e: Entry)
    ensures DeletedIds(log + [e]) ==
            DeletedIds(log) + (match e.update case Delete(ids) => (set l | l in ids) case _ => {})
  {
    forall x ensures x in DeletedIds(log + [e]) <==>
      x in DeletedIds(log) || (e.update.Delete? && x in e.update.ids)
    {
      if x in DeletedIds(log) {
        var d :| d in log && d.update.Delete? && x in d.update.ids;
        assert d in log + [e];
      }
      assert e in log + [e];
    }
  }

  lemma {:induction false} NewIdsGrow(log: seq<Entry>, k: int)
    requires 0 <= k <= |log|
    ensures |NewIds(log[..k])| <= |NewIds(log)|
  {
    if k == |log| {
      assert log[..k] == log;
    } else {
      var init := log[..|log| - 1];
      NewIdsGrow(init, k);
      assert init[..k] == log[..k];
    }
  }

  /** Deleted ids were allocated. */
  lemma DeletedInRange(a: Account, x: int)
    requires LogOk(a) && x in DeletedIds(a.log)
    ensures 1 <= x <= |a.box|
  {
    var e :| e in a.log && e.update.Delete? && x in e.update.ids;
    var k :| 0 <= k < |a.log| && a.log[k] == e;
    assert EntryOk(a.log, k);
    NewIdsGrow(a.log, k);
    assert |Gids(a.box)| == |a.box|;
  }

  /** Same global ids in the box and the same deleted ids: the same messages are gone. */
  lemma SameGone(b: seq<Ref>, c: seq<Ref>, gone: set<int>, g: int)
    requires |b| == |c| && forall i | 0 <= i < |b| :: b[i].globalId == c[i].globalId
    ensures GoneFor(b, gone, g) <==> GoneFor(c, gone, g)
  {
    if GoneFor(b, gone, g) {
      var i :| 0 <= i < |b| && b[i].globalId == g && i + 1 in gone;
      assert c[i].globalId == g;
    }
    if GoneFor(c, gone, g) {
      var i :| 0 <= i < |c| && c[i].globalId == g && i + 1 in gone;
      assert b[i].globalId == g;
    }
  }

  lemma GrownGone(b: seq<Ref>, r: Ref, gone: set<int>, g: int)
    requires forall x | x in gone :: x <= |b|
    ensures GoneFor(b + [r], gone, g) <==> GoneFor(b, gone, g)
  {
    if GoneFor(b, gone, g) {
      var i :| 0 <= i < |b| && b[i].globalId == g && i + 1 in gone;
      assert (b + [r])[i].globalId == g;
    }
    if GoneFor(b + [r], gone, g) {
      var i :| 0 <= i < |b + [r]| && (b + [r])[i].globalId == g && i + 1 in gone;
      assert b[i].globalId == g;
    }
  }

  lemma MoreGone(b: seq<Ref>, gone: set<int>, ids: seq<int>, g: int)
    requires forall l | l in ids :: 1 <= l <= |b|
    ensures GoneFor(b, gone + (set l | l in ids), g) <==> GoneFor(b, gone, g) || g in GlobalIds(b, ids)
  {
    if g in GlobalIds(b, ids) {
      var l :| l in ids && 1 <= l <= |b| && b[l - 1].globalId == g;
      assert b[l - 1].globalId == g && l - 1 + 1 in gone + (set l | l in ids);
    }
    if GoneFor(b, gone, g) {
      var i :| 0 <= i < |b| && b[i].globalId == g && i + 1 in gone;
      assert b[i].globalId == g && i + 1 in gone + (set l | l in ids);
    }
    if GoneFor(b, gone + (set l | l in ids), g) {
      var i :| 0 <= i < |b| && b[i].globalId == g && i + 1 in gone + (set l | l in ids);
      assert i + 1 in gone || i + 1 in ids;
    }
  }

  lemma SendDeletedBy(w: World, v: World, m: Message, u: int, g: int)
    requires Logged(w) && SendView(w, v, m, u)
    ensures DeletedBy(v, u, g) <==> DeletedBy(w, u, g)
  {
    if u == m.from || u == m.peer {
      AppendDeleted(Log(w, u), Log(v, u)[|Log(w, u)|]);
      forall x | x in DeletedIds(Log(w, u)) ensures x <= |Box(w, u)| {
        DeletedInRange(w.accounts[u], x);
      }
      GrownGone(Box(w, u), Box(v, u)[|Box(w, u)|], DeletedIds(Log(w, u)), g);
    } else {
      assert Box(v, u) == Box(w, u);
    }
  }

  /** Only known messages are gone. */
  lemma GoneKnown(w: World, u: int, g: int)
    requires Structured(w) && DeletedBy(w, u, g)
    ensures Known(w.messages, g)
  {
    var i :| 0 <= i < |Box(w, u)| && Box(w, u)[i].globalId == g && i + 1 in DeletedIds(Log(w, u));
    assert RefOk(w.messages, u, Box(w, u)[i]);
  }

  lemma NotYetGone(w: World, u: int)
    requires Structured(w)
    ensures !DeletedBy(w, u, |w.messages| + 1)
  {
    if DeletedBy(w, u, |w.messages| + 1) {
      GoneKnown(w, u, |w.messages| + 1);
    }
  }

  lemma SendDeletions(w: World, from: int, peer: int, text: string, randomId: int, media: int, now: int)
    requires Structured(w) && Logged(w) && DeletionsOk(w) && from in w.accounts && peer in w.accounts
    ensures DeletionsOk(Send(w, from, peer, text, randomId, media, now))
  {
    var v := Send(w, from, peer, text, randomId, media, now);
    var sent := Message(|w.messages| + 1, from, peer, text, now, None, randomId, media, false);
    SendViews(w, from, peer, text, randomId, media, now, from);
    forall g | Known(v.messages, g)
      ensures var m := MessageAt(v.messages, g);
              m.deleted <==> DeletedBy(v, m.from, g) || DeletedBy(v, m.peer, g)
    {
      var m := MessageAt(v.messages, g);
      SendViews(w, from, peer, text, randomId, media, now, m.from);
      SendViews(w, from, peer, text, randomId, media, now, m.peer);
      SendDeletedBy(w, v, sent, m.from, g);
      SendDeletedBy(w, v, sent, m.peer, g);
      if g == |w.messages| + 1 {
        NotYetGone(w, from);
        NotYetGone(w, peer);
      } else {
        assert m == MessageAt(w.messages, g);
      }
    }
  }

  lemma EditDeletedBy(w: World, self: int, localId: int, text: string, now: int, u: int, g: int)
    requires Editable(w, self, localId)
    ensures DeletedBy(EditText(w, self, localId, text, now), u, g) <==> DeletedBy(w, u, g)
  {
    if u in w.accounts {
      AppendDeleted(Log(w, u), Entry(w.accounts[u].pts + 1, 1, Edit(Box(w, self)[localId - 1].globalId), now));
    }
  }

  lemma EditKeepsDeleted(w: World, self: int, localId: int, text: string, now: int, g: int)
    requires Editable(w, self, localId) && Known(w.messages, g)
    ensures var v := EditText(w, self, localId, text, now);
            && |v.messages| == |w.messages|
            && MessageAt(v.messages, g).deleted == MessageAt(w.messages, g).deleted
            && MessageAt(v.messages, g).from == MessageAt(w.messages, g).from
            && MessageAt(v.messages, g).peer == MessageAt(w.messages, g).peer
  {
  }

  lemma EditDeletions(w: World, self: int, localId: int, text: string, now: int)
    requires DeletionsOk(w)
    ensures DeletionsOk(EditText(w, self, localId, text, now))
  {
    if Editable(w, self, localId) {
      var v := EditText(w, self, localId, text, now);
      assert |v.messages| == |w.messages|;
      forall g | Known(v.messages, g)
        ensures var m := MessageAt(v.messages, g);
                m.deleted <==> DeletedBy(v, m.from, g) || DeletedBy(v, m.peer, g)
      {
        var m := MessageAt(w.messages, g);
        EditKeepsDeleted(w, self, localId, text, now, g);
        EditDeletedBy(w, self, localId, text, now, m.from, g);
        EditDeletedBy(w, self, localId, text, now, m.peer, g);
      }
    }
  }

  lemma DeleteDeletedBy(w: World, self: int, ids: seq<int>, now: int, u: int, g: int)
    ensures var held := Held(Box(w, self), ids);
            DeletedBy(DeleteIds(w, self, ids, now), u, g) <==>
            DeletedBy(w, u, g) || (u == self && g in GlobalIds(Box(w, self), held))
  {
    var held := Held(Box(w, self), ids);
    HeldFromBox(Box(w, self), ids);
    if self in w.accounts && held != [] && u == self {
      AppendDeleted(Log(w, u), Entry(w.accounts[u].pts + |held|, |held|, Delete(held), now));
      MoreGone(Box(w, u), DeletedIds(Log(w, u)), held, g);
    }
  }

  /** A message one account can delete has that account as a participant. */
  lemma HeldByParticipant(ms: seq<Message>, u: int, box: seq<Ref>, ids: seq<int>, g: int)
    requires BoxOk(ms, u, box) && g in GlobalIds(box, ids)
    ensures Known(ms, g) && Participant(ms, u, g)
  {
    var l :| l in ids && 1 <= l <= |box| && box[l - 1].globalId == g;
    assert RefOk(ms, u, box[l - 1]);
  }

  lemma DeleteMessagesSeen(w: World, self: int, ids: seq<int>, now: int, g: int)
    requires Known(w.messages, g)
    ensures var v := DeleteIds(w, self, ids, now);
            var gone := GlobalIds(Box(w, self), Held(Box(w, self), ids));
            var m := MessageAt(w.messages, g);
            Known(v.messages, g) && MessageAt(v.messages, g) == (if g in gone then m.(deleted := true) else m)
  {
  }

  lemma DeleteDeletions(w: World, self: int, ids: seq<int>, now: int)
    requires Structured(w) && DeletionsOk(w)
    ensures DeletionsOk(DeleteIds(w, self, ids, now))
  {
    var v := DeleteIds(w, self, ids, now);
    var gone := GlobalIds(Box(w, self), Held(Box(w, self), ids));
    forall g | Known(v.messages, g)
      ensures var m := MessageAt(v.messages, g);
              m.deleted <==> DeletedBy(v, m.from, g) || DeletedBy(v, m.peer, g)
    {
      DeleteShape(w, self, ids, now);
      var m := MessageAt(w.messages, g);
      DeleteMessagesSeen(w, self, ids, now, g);
      DeleteDeletedBy(w, self, ids, now, m.from, g);
      DeleteDeletedBy(w, self, ids, now, m.peer, g);
      if g in gone {
        assert BoxOk(w.messages, self, Box(w, self));
        HeldByParticipant(w.messages, self, Box(w, self), Held(Box(w, self), ids), g);
      }
    }
  }

  lemma ReadDeletions(w: World, self: int, peer: int, maxId: int, now: int)
    requires DeletionsOk(w) && self in w.accounts
    ensures DeletionsOk(Read(w, self, peer, maxId, now))
  {
    var v := Read(w, self, peer, maxId, now);
    ReadViews(w, self, peer, maxId, now, self);
    forall u, g ensures DeletedBy(v, u, g) <==> DeletedBy(w, u, g) {
      ReadViews(w, self, peer, maxId, now, u);
      SameGone(Box(w, u), Box(v, u), DeletedIds(Log(w, u)), g);
      if Log(v, u) != Log(w, u) {
        AppendDeleted(Log(w, u), Log(v, u)[|Log(w, u)|]);
      }
    }
  }

  lemma StepDeletions(w: World, op: Op)
    requires Structured(w) && Logged(w) && DeletionsOk(w) && Enabled(w, op)
    ensures DeletionsOk(Step(w, op))
  {
    match op
    case CreateOp =>
      var v := Create(w);
      assert forall u :: Box(v, u) == Box(w, u) && Log(v, u) == Log(w, u);
      assert forall u, g :: DeletedBy(v, u, g) <==> DeletedBy(w, u, g);
    case SendOp(from, peer, text, randomId, media, now) => SendDeletions(w, from, peer, text, randomId, media, now);
    case EditOp(self, localId, text, now) => EditDeletions(w, self, localId, text, now);
    case DeleteOp(self, ids, now) => DeleteDeletions(w, self, ids, now);
    case ReadOp(self, peer, maxId, now) => ReadDeletions(w, self, peer, maxId, now);
  }
}
