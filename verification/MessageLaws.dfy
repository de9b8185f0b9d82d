/** What edits and deletes do, said without the predicates the operations are written with. */
module MessageLaws {
  import opened Prelude
  import opened Messaging
  import opened Structure
  import opened Invariant

  /** The message an account has under a local id. */
  function Behind(w: World, u: int, l: int): Option<Message> {
    if 1 <= l <= |Box(w, u)| && Known(w.messages, Box(w, u)[l - 1].globalId)
    then Some(MessageAt(w.messages, Box(w, u)[l - 1].globalId))
    else None
  }

  // --- editing -----------------------------------------------------------------------

  /** An id nobody holds, a deleted message and somebody else's message are refused: nothing changes. */
  lemma EditIsRefused(w: World, u: int, l: int, text: string, now: int)
    requires Behind(w, u, l).None? || Behind(w, u, l).value.deleted || Behind(w, u, l).value.from != u
    ensures EditText(w, u, l, text, now) == w
  {
  }

  /** The account's own live message gets the text and the date; both sides log the edit, and nothing else changes. */
  lemma EditIsApplied(w: World, u: int, l: int, text: string, now: int, x: int)
    requires Structured(w) && Behind(w, u, l).Some?
    requires !Behind(w, u, l).value.deleted && Behind(w, u, l).value.from == u
    ensures var v := EditText(w, u, l, text, now);
            var m := Behind(w, u, l).value;
            && v.messages == w.messages[m.globalId - 1 := m.(text := text, editDate := Some(now))]
            && Box(v, x) == Box(w, x)
            && (x == u || x == m.peer ==>
                  && x in w.accounts && x in v.accounts
                  && Log(v, x) == Log(w, x) + [Entry(w.accounts[x].pts + 1, 1, Edit(m.globalId), now)]
                  && v.accounts[x].pts == w.accounts[x].pts + 1)
            && (x != u && x != m.peer ==> Log(v, x) == Log(w, x))
  {
    EditViews(w, u, l, text, now, x);
  }

  /** An edit changes the state exactly when the account holds the message, sent it, and nobody deleted it. */
  lemma EditsIff(w: World, u: int, l: int, text: string, now: int)
    requires Structured(w)
    ensures EditText(w, u, l, text, now) != w <==>
            Behind(w, u, l).Some? && !Behind(w, u, l).value.deleted && Behind(w, u, l).value.from == u
  {
    if Behind(w, u, l).Some? && !Behind(w, u, l).value.deleted && Behind(w, u, l).value.from == u {
      EditIsApplied(w, u, l, text, now, u);
      assert |Log(EditText(w, u, l, text, now), u)| == |Log(w, u)| + 1;
    } else {
      EditIsRefused(w, u, l, text, now);
    }
  }

  /** `u`'s log went on from `log` to `more` without an edit of message `g`. */
  ghost predicate NoEditOf(log: seq<Entry>, more: seq<Entry>, g: int) {
    log <= more && forall k | |log| <= k < |more| :: more[k].update != Edit(g)
  }

  /** The deleted message `g` is as it was, and no log has a new edit of it. */
  ghost predicate Final(w: World, v: World, g: int) {
    && Known(w.messages, g) && Known(v.messages, g) && MessageAt(v.messages, g).deleted
    && MessageAt(v.messages, g).text == MessageAt(w.messages, g).text
    && MessageAt(v.messages, g).editDate == MessageAt(w.messages, g).editDate
    && forall u :: NoEditOf(Log(w, u), Log(v, u), g)
  }

  lemma FinalSend(w: World, v: World, m: Message, g: int)
    requires Known(w.messages, g) && MessageAt(w.messages, g).deleted && forall u :: SendView(w, v, m, u)
    ensures Final(w, v, g)
  {
    assert SendView(w, v, m, 0);
    forall u ensures NoEditOf(Log(w, u), Log(v, u), g) {
      assert SendView(w, v, m, u);
    }
  }

  lemma FinalEdit(w: World, v: World, h: int, text: string, now: int, g: int)
    requires MessagesOk(w) && Known(w.messages, g) && MessageAt(w.messages, g).deleted
    requires Known(w.messages, h) && h != g && forall u :: EditView(w, v, h, text, now, u)
    ensures Final(w, v, g)
  {
    assert EditView(w, v, h, text, now, 0);
    forall u ensures NoEditOf(Log(w, u), Log(v, u), g) {
      assert EditView(w, v, h, text, now, u);
    }
  }

  lemma FinalDelete(w: World, v: World, self: int, held: seq<int>, now: int, g: int)
    requires Known(w.messages, g) && MessageAt(w.messages, g).deleted
    requires forall u :: DeleteView(w, v, self, held, now, u)
    ensures Final(w, v, g)
  {
    assert DeleteView(w, v, self, held, now, 0);
    forall u ensures NoEditOf(Log(w, u), Log(v, u), g) {
      assert DeleteView(w, v, self, held, now, u);
    }
  }

  lemma FinalRead(w: World, v: World, self: int, peer: int, maxId: int, now: int, g: int)
    requires Known(w.messages, g) && MessageAt(w.messages, g).deleted
    requires self in w.accounts && forall u :: ReadView(w, v, self, peer, maxId, now, u)
    ensures Final(w, v, g)
  {
    assert ReadView(w, v, self, peer, maxId, now, 0);
    forall u ensures NoEditOf(Log(w, u), Log(v, u), g) {
      assert ReadView(w, v, self, peer, maxId, now, u);
    }
  }

  lemma FinalStep(w: World, op: Op, g: int)
    requires Inv(w) && Enabled(w, op) && Known(w.messages, g) && MessageAt(w.messages, g).deleted
    ensures Final(w, Step(w, op), g)
  {
    var v := Step(w, op);
    match op
    case CreateOp => assert forall u :: Log(v, u) == Log(w, u);
    case SendOp(from, peer, text, randomId, media, now) =>
      var m := Message(|w.messages| + 1, from, peer, text, now, None, randomId, media, false);
      forall u ensures SendView(w, v, m, u) {
        SendViews(w, from, peer, text, randomId, media, now, u);
      }
      FinalSend(w, v, m, g);
    case EditOp(self, localId, text, now) => FinalAfterEdit(w, self, localId, text, now, g);
    case DeleteOp(self, ids, now) =>
      var held := Held(Box(w, self), ids);
      if held != [] {
        forall u ensures DeleteView(w, v, self, held, now, u) {
          DeleteViews(w, self, ids, now, u);
        }
        FinalDelete(w, v, self, held, now, g);
      }
    case ReadOp(self, peer, maxId, now) =>
      forall u ensures ReadView(w, v, self, peer, maxId, now, u) {
        ReadViews(w, self, peer, maxId, now, u);
      }
      FinalRead(w, v, self, peer, maxId, now, g);
  }

  lemma FinalAfterEdit(w: World, self: int, localId: int, text: string, now: int, g: int)
    requires Structured(w) && Known(w.messages, g) && MessageAt(w.messages, g).deleted
    ensures Final(w, EditText(w, self, localId, text, now), g)
  {
    var v := EditText(w, self, localId, text, now);
    if v != w {
      EditsIff(w, self, localId, text, now);
      var h := Box(w, self)[localId - 1].globalId;
      forall u ensures EditView(w, v, h, text, now, u) {
        EditViews(w, self, localId, text, now, u);
      }
      FinalEdit(w, v, h, text, now, g);
    }
  }

  lemma FinalChain(w: World, v: World, x: World, g: int)
    requires Final(w, v, g) && Final(v, x, g)
    ensures Final(w, x, g)
  {
    forall u ensures NoEditOf(Log(w, u), Log(x, u), g) {
      assert NoEditOf(Log(w, u), Log(v, u), g) && NoEditOf(Log(v, u), Log(x, u), g);
    }
  }

  /** Once a message is deleted, no run changes its text or edit date or logs an edit of it for anybody. */
  lemma {:induction false} DeletedIsFinal(w: World, ops: seq<Op>, g: int)
    requires Inv(w) && Known(w.messages, g) && MessageAt(w.messages, g).deleted && Run(w, ops).Some?
    ensures Final(w, Run(w, ops).value, g)
  {
    if ops != [] {
      var init := ops[..|ops| - 1];
      DeletedIsFinal(w, init, g);
      RunInv(w, init);
      FinalStep(Run(w, init).value, ops[|ops| - 1], g);
      FinalChain(w, Run(w, init).value, Run(w, ops).value, g);
    }
  }

  // --- deleting ----------------------------------------------------------------------

  /** The ids an account has among the requested ones: each request is looked at on its own, in order. */
  lemma {:induction false} HeldConcat(box: seq<Ref>, a: seq<int>, b: seq<int>)
    ensures Held(box, a + b) == Held(box, a) + Held(box, b)
    decreases |b|
  {
    if b == [] {
      assert a + b == a;
    } else {
      HeldConcat(box, a, b[..|b| - 1]);
      assert (a + b)[..|a + b| - 1] == a + b[..|b| - 1];
    }
  }

  /** An id the account has is listed as often as it was requested; other ids are not listed. */
  lemma {:induction false} HeldCounts(box: seq<Ref>, ids: seq<int>, l: int)
    ensures multiset(Held(box, ids))[l] == if 1 <= l <= |box| then multiset(ids)[l] else 0
  {
    if ids != [] {
      HeldCounts(box, ids[..|ids| - 1], l);
      assert ids == ids[..|ids| - 1] + [ids[|ids| - 1]];
    }
  }

  /** The positions of the request that name an id the account has. */
  ghost function Hits(box: seq<Ref>, ids: seq<int>): set<int> {
    set i | 0 <= i < |ids| && 1 <= ids[i] <= |box|
  }

  lemma {:induction false} HeldHits(box: seq<Ref>, ids: seq<int>)
    ensures |Held(box, ids)| == |Hits(box, ids)|
  {
    if ids == [] {
      assert Hits(box, ids) == {};
    } else {
      var n := |ids| - 1;
      HeldHits(box, ids[..n]);
      HitsNext(box, ids, n);
    }
  }

  lemma HitsNext(box: seq<Ref>, ids: seq<int>, n: nat)
    requires |ids| == n + 1
    ensures Hits(box, ids) == Hits(box, ids[..n]) + (if 1 <= ids[n] <= |box| then {n} else {})
    ensures n !in Hits(box, ids[..n])
  {
  }

  /**
   A delete uses one pts for every position of the request that names an id the account has, repetitions
   included, and logs one entry for them; without any it changes nothing.
   */
  lemma DeleteUsesPts(w: World, u: int, ids: seq<int>, now: int)
    requires Structured(w) && u in w.accounts
    ensures var v := DeleteIds(w, u, ids, now);
            var n := |Hits(Box(w, u), ids)|;
            && u in v.accounts && v.accounts[u].pts == w.accounts[u].pts + n
            && (n == 0 ==> v == w)
            && (n > 0 ==>
                  && |Log(v, u)| == |Log(w, u)| + 1 && Log(w, u) <= Log(v, u)
                  && Log(v, u)[|Log(w, u)|].update.Delete?
                  && |Log(v, u)[|Log(w, u)|].update.ids| == n)
  {
    HeldHits(Box(w, u), ids);
    if |Hits(Box(w, u), ids)| > 0 {
      DeleteViews(w, u, ids, now, u);
    }
  }

  // --- dates -------------------------------------------------------------------------

  /** The log went on from `log` with entries of the given time only. */
  ghost predicate Dated(log: seq<Entry>, more: seq<Entry>, now: int) {
    log <= more && forall k | |log| <= k < |more| :: more[k].date == now
  }

  lemma SentDated(w: World, v: World, m: Message, u: int)
    requires SendView(w, v, m, u)
    ensures Dated(Log(w, u), Log(v, u), m.date)
  {
  }

  lemma EditDated(w: World, self: int, localId: int, text: string, now: int, u: int)
    requires Structured(w)
    ensures Dated(Log(w, u), Log(EditText(w, self, localId, text, now), u), now)
  {
    if EditText(w, self, localId, text, now) != w {
      EditsIff(w, self, localId, text, now);
      EditIsApplied(w, self, localId, text, now, u);
    }
  }

  lemma DeletedDated(w: World, v: World, self: int, held: seq<int>, now: int, u: int)
    requires DeleteView(w, v, self, held, now, u)
    ensures Dated(Log(w, u), Log(v, u), now)
  {
  }

  lemma ReadDated(w: World, v: World, self: int, peer: int, maxId: int, now: int, u: int)
    requires self in w.accounts && ReadView(w, v, self, peer, maxId, now, u)
    ensures Dated(Log(w, u), Log(v, u), now)
  {
  }

  /** Every entry an operation logs carries the time of that operation; creating an account logs nothing. */
  lemma EntriesAreDated(w: World, op: Op, u: int)
    requires Inv(w) && Enabled(w, op)
    ensures if op.CreateOp? then Log(Step(w, op), u) == Log(w, u) else Dated(Log(w, u), Log(Step(w, op), u), op.now)
  {
    match op
    case CreateOp =>
    case SendOp(from, peer, text, randomId, media, now) =>
      SendViews(w, from, peer, text, randomId, media, now, u);
      SentDated(w, Step(w, op), Message(|w.messages| + 1, from, peer, text, now, None, randomId, media, false), u);
    case EditOp(self, localId, text, now) => EditDated(w, self, localId, text, now, u);
    case DeleteOp(self, ids, now) =>
      if Held(Box(w, self), ids) != [] {
        DeleteViews(w, self, ids, now, u);
        DeletedDated(w, Step(w, op), self, Held(Box(w, self), ids), now, u);
      }
    case ReadOp(self, peer, maxId, now) =>
      ReadViews(w, self, peer, maxId, now, u);
      ReadDated(w, Step(w, op), self, peer, maxId, now, u);
  }
}
