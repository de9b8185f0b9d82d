/** The reader's own log of reads, and how far it says which incoming messages are read. */
module ReadLog {
  import opened Prelude
  import opened Messaging
  import opened Structure
  import opened UpdateLog
  import opened ReadState
  import opened Invariant
  import opened Deletions

  /** Entry `k` logs a read of the conversation with `peer` that reached local id `l`, which was already there. */
  ghost predicate CoveredAt(log: seq<Entry>, k: int, peer: int, l: int) {
    && 0 <= k < |log| && log[k].update.ReadInbox? && log[k].update.peer == peer
    && l <= log[k].update.maxId && l <= |NewIds(log[..k])|
  }

  ghost predicate Covered(log: seq<Entry>, peer: int, l: int) {
    exists k :: CoveredAt(log, k, peer, l)
  }

  /** An incoming message is read exactly when the log has a read that reached it. */
  ghost predicate FlagsLogged(ms: seq<Message>, u: int, box: seq<Ref>, log: seq<Entry>) {
    forall peer, i | 0 <= i < |box| && Incoming(ms, u, peer, box[i]) ::
      !box[i].unread <==> Covered(log, peer, i + 1)
  }

  /** What one more entry covers. */
  lemma CoveredMore(log: seq<Entry>, e: Entry, peer: int, l: int)
    ensures Covered(log + [e], peer, l) <==>
            || Covered(log, peer, l)
            || (e.update.ReadInbox? && e.update.peer == peer && l <= e.update.maxId && l <= |NewIds(log)|)
  {
    var all := log + [e];
    assert all[..|log|] == log;
    forall k | 0 <= k < |log| ensures CoveredAt(all, k, peer, l) <==> CoveredAt(log, k, peer, l) {
      assert all[..k] == log[..k];
    }
    if Covered(log, peer, l) {
      var k :| CoveredAt(log, k, peer, l);
      assert CoveredAt(all, k, peer, l);
    }
    if e.update.ReadInbox? && e.update.peer == peer && l <= e.update.maxId && l <= |NewIds(log)| {
      assert CoveredAt(all, |log|, peer, l);
    }
  }

  /** A read covers only what was announced. */
  lemma CoveredAnnounced(log: seq<Entry>, peer: int, l: int)
    requires Covered(log, peer, l)
    ensures l <= |NewIds(log)|
  {
    var k :| CoveredAt(log, k, peer, l);
    NewIdsGrow(log, k);
  }

  /** Messages only grow or change in other respects than who they are between. */
  ghost predicate SameSides(ms: seq<Message>, ns: seq<Message>) {
    && |ms| <= |ns|
    && forall i | 0 <= i < |ms| :: ns[i].from == ms[i].from && ns[i].peer == ms[i].peer
  }

  /** One appended reference, new and unread if it comes in, and the entry that announces it. */
  lemma FlagsReceive(ms: seq<Message>, ns: seq<Message>, u: int, box: seq<Ref>, r: Ref, log: seq<Entry>, e: Entry)
    requires BoxOk(ms, u, box) && SameSides(ms, ns) && FlagsLogged(ms, u, box, log)
    requires |NewIds(log)| == |box| && e.update.New? && (r.out || r.unread)
    ensures FlagsLogged(ns, u, box + [r], log + [e])
  {
    var c := box + [r];
    forall peer, i | 0 <= i < |c| && Incoming(ns, u, peer, c[i])
      ensures !c[i].unread <==> Covered(log + [e], peer, i + 1)
    {
      CoveredMore(log, e, peer, i + 1);
      if i < |box| {
        assert RefOk(ms, u, box[i]) && Incoming(ms, u, peer, box[i]);
      } else if Covered(log, peer, i + 1) {
        CoveredAnnounced(log, peer, i + 1);
      }
    }
  }

  /** The same references, and at most one more entry that is no read. */
  lemma FlagsKept(ms: seq<Message>, ns: seq<Message>, u: int, box: seq<Ref>, log: seq<Entry>, more: seq<Entry>)
    requires BoxOk(ms, u, box) && SameSides(ms, ns) && FlagsLogged(ms, u, box, log)
    requires more == log || (|more| == |log| + 1 && more[..|log|] == log && !more[|log|].update.ReadInbox?)
    ensures FlagsLogged(ns, u, box, more)
  {
    forall peer, i | 0 <= i < |box| && Incoming(ns, u, peer, box[i])
      ensures !box[i].unread <==> Covered(more, peer, i + 1)
    {
      assert RefOk(ms, u, box[i]) && Incoming(ms, u, peer, box[i]);
      if more != log {
        assert more == log + [more[|log|]];
        CoveredMore(log, more[|log|], peer, i + 1);
      }
    }
  }

  lemma FlagsRead(ms: seq<Message>, u: int, peer: int, maxId: int, box: seq<Ref>, log: seq<Entry>, e: Entry)
    requires BoxOk(ms, u, box) && FlagsLogged(ms, u, box, log) && |NewIds(log)| == |box|
    requires e.update == ReadInbox(peer, maxId)
    ensures FlagsLogged(ms, u, ReadBox(ms, u, peer, maxId, box), log + [e])
  {
    var c := ReadBox(ms, u, peer, maxId, box);
    forall p, i | 0 <= i < |c| && Incoming(ms, u, p, c[i]) ensures !c[i].unread <==> Covered(log + [e], p, i + 1) {
      assert Incoming(ms, u, p, box[i]);
      CoveredMore(log, e, p, i + 1);
    }
  }

  ghost predicate AccountFlags(w: World, u: int) {
    FlagsLogged(w.messages, u, Box(w, u), Log(w, u))
  }

  lemma SendFlags(w: World, v: World, m: Message, u: int)
    requires AccountFlags(w, u) && BoxOk(w.messages, u, Box(w, u)) && |NewIds(Log(w, u))| == |Box(w, u)|
    requires SendView(w, v, m, u)
    ensures AccountFlags(v, u)
  {
    if u == m.from || u == m.peer {
      FlagsReceive(w.messages, v.messages, u, Box(w, u), Box(v, u)[|Box(w, u)|], Log(w, u), Log(v, u)[|Log(w, u)|]);
    } else {
      FlagsKept(w.messages, v.messages, u, Box(w, u), Log(w, u), Log(v, u));
    }
  }

  lemma EditFlags(w: World, v: World, g: int, text: string, now: int, u: int)
    requires AccountFlags(w, u) && BoxOk(w.messages, u, Box(w, u))
    requires Known(w.messages, g) && EditView(w, v, g, text, now, u)
    ensures AccountFlags(v, u)
  {
    FlagsKept(w.messages, v.messages, u, Box(w, u), Log(w, u), Log(v, u));
  }

  lemma DeleteFlags(w: World, v: World, self: int, held: seq<int>, now: int, u: int)
    requires AccountFlags(w, u) && BoxOk(w.messages, u, Box(w, u)) && DeleteView(w, v, self, held, now, u)
    ensures AccountFlags(v, u)
  {
    FlagsKept(w.messages, v.messages, u, Box(w, u), Log(w, u), Log(v, u));
  }

  lemma ReadFlags(w: World, v: World, self: int, peer: int, maxId: int, now: int, u: int)
    requires AccountFlags(w, u) && BoxOk(w.messages, u, Box(w, u)) && |NewIds(Log(w, u))| == |Box(w, u)|
    requires self in w.accounts && ReadView(w, v, self, peer, maxId, now, u)
    ensures AccountFlags(v, u)
  {
    if u == self {
      FlagsRead(w.messages, u, peer, maxId, Box(w, u), Log(w, u), Log(v, u)[|Log(w, u)|]);
    } else {
      FlagsKept(w.messages, v.messages, u, Box(w, u), Log(w, u), Log(v, u));
    }
  }

  lemma Announced(w: World, u: int)
    requires Inv(w)
    ensures BoxOk(w.messages, u, Box(w, u)) && |NewIds(Log(w, u))| == |Box(w, u)|
  {
    BoxesOk(w, u);
    if u in w.accounts {
      assert LogOk(w.accounts[u]);
      assert |Gids(Box(w, u))| == |Box(w, u)|;
    }
  }

  lemma StepFlags(w: World, op: Op, u: int)
    requires Inv(w) && Enabled(w, op) && AccountFlags(w, u)
    ensures AccountFlags(Step(w, op), u)
  {
    var v := Step(w, op);
    Announced(w, u);
    match op
    case CreateOp => assert Box(v, u) == Box(w, u) && Log(v, u) == Log(w, u);
    case SendOp(from, peer, text, randomId, media, now) =>
      SendViews(w, from, peer, text, randomId, media, now, u);
      SendFlags(w, v, Message(|w.messages| + 1, from, peer, text, now, None, randomId, media, false), u);
    case EditOp(self, localId, text, now) =>
      if Editable(w, self, localId) {
        EditViews(w, self, localId, text, now, u);
        EditFlags(w, v, Box(w, self)[localId - 1].globalId, text, now, u);
      }
    case DeleteOp(self, ids, now) =>
      if Held(Box(w, self), ids) != [] {
        DeleteViews(w, self, ids, now, u);
        DeleteFlags(w, v, self, Held(Box(w, self), ids), now, u);
      }
    case ReadOp(self, peer, maxId, now) =>
      ReadViews(w, self, peer, maxId, now, u);
      ReadFlags(w, v, self, peer, maxId, now, u);
  }

  lemma {:induction false} RunFlags(ops: seq<Op>, u: int)
    requires Run(INITIAL, ops).Some?
    ensures var w := Run(INITIAL, ops).value;
            Inv(w) && AccountFlags(w, u)
  {
    if ops == [] {
      InitialInv();
    } else {
      var init := ops[..|ops| - 1];
      RunFlags(init, u);
      StepInv(Run(INITIAL, init).value, ops[|ops| - 1]);
      StepFlags(Run(INITIAL, init).value, ops[|ops| - 1], u);
    }
  }

  /**
   In every reachable state an incoming message is read exactly when the account's log has a read of that
   conversation that reached its id and was made after the message arrived.
   */
  lemma ReadIffLogged(w: World, u: int, peer: int, i: int)
    requires Reachable(w) && 0 <= i < |Box(w, u)| && Incoming(w.messages, u, peer, Box(w, u)[i])
    ensures !Box(w, u)[i].unread <==> Covered(Log(w, u), peer, i + 1)
  {
    var ops :| Run(INITIAL, ops) == Some(w);
    RunFlags(ops, u);
  }

  // --- the greatest id alone -------------------------------------------------------------

  /** Max ids of the reads of the conversation with `peer` in a log. */
  ghost function ReadMarks(log: seq<Entry>, peer: int): set<int> {
    set e | e in log && e.update.ReadInbox? && e.update.peer == peer :: e.update.maxId
  }

  /** The greatest logged id says which incoming messages are read. */
  ghost predicate MarkIsExact(w: World, u: int, peer: int) {
    forall i | 0 <= i < |Box(w, u)| && Incoming(w.messages, u, peer, Box(w, u)[i]) ::
      !Box(w, u)[i].unread <==> i + 1 <= Max0(ReadMarks(Log(w, u), peer))
  }

  /** Entry `k` is a read that asked for more than there was: it reached the id of a message that came later. */
  ghost predicate ReadAhead(w: World, u: int, peer: int, k: int, i: int) {
    var log := Log(w, u);
    && 0 <= k < |log| && log[k].update.ReadInbox? && log[k].update.peer == peer
    && 0 <= i < |Box(w, u)| && Incoming(w.messages, u, peer, Box(w, u)[i])
    && |NewIds(log[..k])| < i + 1 <= log[k].update.maxId
  }

  lemma ReadIsMarked(w: World, u: int, peer: int, i: int)
    requires Reachable(w) && 0 <= i < |Box(w, u)| && Incoming(w.messages, u, peer, Box(w, u)[i])
    requires !Box(w, u)[i].unread
    ensures i + 1 <= Max0(ReadMarks(Log(w, u), peer))
  {
    ReadIffLogged(w, u, peer, i);
    var k :| CoveredAt(Log(w, u), k, peer, i + 1);
    MarkListed(Log(w, u), k, peer);
  }

  lemma MarkListed(log: seq<Entry>, k: int, peer: int)
    requires 0 <= k < |log| && log[k].update.ReadInbox? && log[k].update.peer == peer
    ensures log[k].update.maxId in ReadMarks(log, peer)
  {
    assert log[k] in log;
  }

  /** A message at most the greatest id is covered, or some read was ahead of it. */
  lemma MarkReaches(w: World, u: int, peer: int, i: int) returns (k: int)
    requires 0 <= i < |Box(w, u)| && Incoming(w.messages, u, peer, Box(w, u)[i])
    requires i + 1 <= Max0(ReadMarks(Log(w, u), peer))
    ensures CoveredAt(Log(w, u), k, peer, i + 1) || ReadAhead(w, u, peer, k, i)
  {
    var log := Log(w, u);
    var e :| e in log && e.update.ReadInbox? && e.update.peer == peer && e.update.maxId == Max0(ReadMarks(log, peer));
    k :| 0 <= k < |log| && log[k] == e;
  }

  /**
   The greatest logged id says which incoming messages are read exactly when every message some read was
   ahead of has been reached by a later read: reads are not cut to the messages there are.
   */
  lemma MarkIsExactIff(w: World, u: int, peer: int)
    requires Reachable(w)
    ensures MarkIsExact(w, u, peer) <==>
            forall k, i | ReadAhead(w, u, peer, k, i) :: Covered(Log(w, u), peer, i + 1)
  {
    var log := Log(w, u);
    if MarkIsExact(w, u, peer) {
      forall k, i | ReadAhead(w, u, peer, k, i) ensures Covered(log, peer, i + 1) {
        MarkListed(log, k, peer);
        ReadIffLogged(w, u, peer, i);
      }
    }
    if forall k, i | ReadAhead(w, u, peer, k, i) :: Covered(log, peer, i + 1) {
      forall i | 0 <= i < |Box(w, u)| && Incoming(w.messages, u, peer, Box(w, u)[i])
        ensures !Box(w, u)[i].unread <==> i + 1 <= Max0(ReadMarks(log, peer))
      {
        ReadIffLogged(w, u, peer, i);
        if !Box(w, u)[i].unread {
          ReadIsMarked(w, u, peer, i);
        }
        if i + 1 <= Max0(ReadMarks(log, peer)) {
          var k := MarkReaches(w, u, peer, i);
        }
      }
    }
  }
}
