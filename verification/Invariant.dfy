/** Every reachable state of the messaging tables satisfies the invariant, and what follows from it at once. */
module Invariant {
  import opened Prelude
  import opened Messaging
  import opened Structure
  import opened UpdateLog
  import opened ReadState
  import opened Deletions
  import opened History
  import opened Agreement

  ghost predicate Inv(w: World) {
    && Structured(w)
    && Logged(w)
    && ReadMarksOk(w)
    && DeletionsOk(w)
    && Agreed(w)
  }

  lemma InitialInv()
    ensures Inv(INITIAL)
  {
    assert forall u :: Box(INITIAL, u) == [] && Log(INITIAL, u) == [];
    forall u, p ensures ReceiptsOk(INITIAL, u, p) {
      assert Receipts([], p) == {};
      assert ReadBy([], u, p, [], []) == {};
    }
  }

  lemma StepInv(w: World, op: Op)
    requires Inv(w) && Enabled(w, op)
    ensures Inv(Step(w, op))
  {
    StepStructured(w, op);
    StepLogged(w, op);
    StepMarks(w, op);
    StepDeletions(w, op);
    StepAgreed(w, op);
  }

  lemma {:induction false} RunInv(w: World, ops: seq<Op>)
    requires Inv(w) && Run(w, ops).Some?
    ensures Inv(Run(w, ops).value)
  {
    if ops != [] {
      var init := ops[..|ops| - 1];
      RunInv(w, init);
      StepInv(Run(w, init).value, ops[|ops| - 1]);
    }
  }

  lemma ReachableInv(w: World)
    requires Reachable(w)
    ensures Inv(w)
  {
    var ops :| Run(INITIAL, ops) == Some(w);
    InitialInv();
    RunInv(INITIAL, ops);
  }

  lemma ReachableStep(w: World, op: Op)
    requires Reachable(w) && Enabled(w, op)
    ensures Reachable(Step(w, op))
  {
    var ops :| Run(INITIAL, ops) == Some(w);
    assert (ops + [op])[..|ops|] == ops;
    assert Run(INITIAL, ops + [op]) == Some(Step(w, op));
  }

  /** Local ids are 1..lastMessageID, global ids increase with them, each participant holds one copy. */
  lemma LocalIdsAreDense(w: World, u: int)
    requires Reachable(w) && u in w.accounts
    ensures var a := w.accounts[u];
            && a.lastId == |a.box|
            && (forall i | 0 <= i < |a.box| ::
                  && a.box[i].localId == i + 1
                  && Known(w.messages, a.box[i].globalId)
                  && Participant(w.messages, u, a.box[i].globalId)
                  && (a.box[i].out <==> MessageAt(w.messages, a.box[i].globalId).from == u))
            && (forall i, j | 0 <= i < j < |a.box| :: a.box[i].globalId < a.box[j].globalId)
            && (forall g | Known(w.messages, g) && Participant(w.messages, u, g) ::
                  exists i :: 0 <= i < |a.box| && a.box[i].globalId == g)
            && NewIds(a.log) == Gids(a.box)
  {
    ReachableInv(w);
    var a := w.accounts[u];
    forall i | 0 <= i < |a.box| ensures RefOk(w.messages, u, a.box[i]) {
      assert BoxOk(w.messages, u, a.box);
    }
    forall g | Known(w.messages, g) && Participant(w.messages, u, g)
      ensures exists i :: 0 <= i < |a.box| && a.box[i].globalId == g
    {
      assert Holds(Box(w, u), g);
    }
  }

  /** The pts has no gaps and counts messages, edits, reads and deleted ids. */
  lemma PtsAccounting(w: World, u: int)
    requires Reachable(w) && u in w.accounts
    ensures var a := w.accounts[u];
            && (forall i | 0 <= i < |a.log| :: Chained(a.log, i))
            && a.pts == PtsBefore(a.log, |a.log|)
            && a.pts == a.lastId + Edits(a.log) + ReadsLogged(a.log) + DeletedTotal(a.log)
  {
    ReachableInv(w);
    PtsSum(w.accounts[u].log, w.accounts[u].pts);
    assert |Gids(w.accounts[u].box)| == |w.accounts[u].box|;
  }

  /** Two accounts log the same events of their conversation and list the same messages, mirrored. */
  lemma TwoPartyAgreement(w: World, a: int, b: int)
    requires Reachable(w) && a != b
    ensures Events(w.messages, a, b, Log(w, a)) == Events(w.messages, a, b, Log(w, b))
    ensures var mine := Conversation(w.messages, a, b, 0, Box(w, a));
            var theirs := Conversation(w.messages, b, a, 0, Box(w, b));
            && |mine| == |theirs|
            && forall i | 0 <= i < |mine| ::
                 && mine[i].globalId == theirs[i].globalId
                 && mine[i].text == theirs[i].text
                 && mine[i].date == theirs[i].date
                 && mine[i].editDate == theirs[i].editDate
                 && mine[i].out == !theirs[i].out
  {
    ReachableInv(w);
    assert SameEvents(w, a, b);
    HistoriesAgree(w, a, b);
  }

  /** The receipts an account logged from a peer reach exactly as far as the peer has read. */
  lemma ReceiptsAreExact(w: World, a: int, b: int)
    requires Reachable(w)
    ensures Max0(Receipts(Log(w, a), b)) == Max0(ReadBy(w.messages, a, b, Box(w, a), Box(w, b)))
  {
    ReachableInv(w);
    assert ReceiptsOk(w, a, b);
  }

  /**
   Creating an account keeps the invariant exactly when the next user id is not the built-in
   account's, or that account never used a pts: a collision resets its counters and keeps its log.
   */
  lemma CreateKeepsInvariantIff(w: World)
    requires Inv(w)
    ensures Inv(Create(w)) <==> w.userSeq + 1 != BOT_FATHER_ID || w.accounts[BOT_FATHER_ID].pts == 0
  {
    var a := w.accounts[BOT_FATHER_ID];
    var v := Create(w);
    if w.userSeq + 1 != BOT_FATHER_ID {
      StepInv(w, CreateOp);
    } else if a.pts == 0 {
      assert LogOk(a);
      UnusedAccount(a);
      assert a == Account(0, 0, [], []);
      assert v.accounts == w.accounts;
      assert forall u :: Box(v, u) == Box(w, u) && Log(v, u) == Log(w, u);
      SameTablesInv(w, v);
    } else {
      assert LogOk(a) && a.log != [];
      assert v.accounts[BOT_FATHER_ID].log == a.log;
      assert !Gapless(v.accounts[BOT_FATHER_ID].log, 0);
    }
  }

  lemma UnusedAccount(a: Account)
    requires LogOk(a) && a.pts == 0
    ensures a.log == [] && a.box == []
  {
    if a.log != [] {
      PtsGrow(a.log, |a.log| - 1);
    }
    assert |Gids(a.box)| == |a.box|;
  }

  lemma {:induction false} PtsGrow(log: seq<Entry>, i: int)
    requires 0 <= i < |log|
    requires forall k | 0 <= k < |log| :: Chained(log, k)
    ensures log[i].pts > i
  {
    assert Chained(log, i);
    if i > 0 {
      PtsGrow(log, i - 1);
    }
  }

  lemma SameTablesInv(w: World, v: World)
    requires Inv(w) && v.accounts == w.accounts && v.messages == w.messages && IdsOk(v)
    ensures Inv(v)
  {
    assert forall u :: Box(v, u) == Box(w, u) && Log(v, u) == Log(w, u);
    forall u, p ensures ReceiptsOk(v, u, p) {
      assert ReceiptsOk(w, u, p);
    }
    forall u ensures PrefixRead(v.messages, u, Box(v, u)) {
      assert PrefixRead(w.messages, u, Box(w, u));
    }
    forall u, g ensures DeletedBy(v, u, g) <==> DeletedBy(w, u, g) {
    }
    forall a, b | a != b ensures SameEvents(v, a, b) {
      assert SameEvents(w, a, b);
    }
    assert Complete(v);
  }
}
