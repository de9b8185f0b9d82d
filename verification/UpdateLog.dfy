/** The durable update log of each account: pts accounting, and what the entries refer to. */
module UpdateLog {
  import opened Messaging
  import opened Structure

  function PtsBefore(log: seq<Entry>, i: int): int
    requires 0 <= i <= |log|
  {
    if i == 0 then 0 else log[i - 1].pts
  }

  /** How many pts an update uses up. */
  function Weight(u: Update): int {
    match u
    case Delete(ids) => |ids|
    case _ => 1
  }

  /** Entry `i` starts where the previous one ended and uses up its update's weight, at least one. */
  ghost predicate Chained(log: seq<Entry>, i: int)
    requires 0 <= i < |log|
  {
    && log[i].ptsCount == Weight(log[i].update) >= 1
    && log[i].pts == PtsBefore(log, i) + log[i].ptsCount
  }

  /** The entries are chained, and the last one ends at the account's pts. */
  ghost predicate Gapless(log: seq<Entry>, pts: int) {
    && (forall i | 0 <= i < |log| :: Chained(log, i))
    && pts == PtsBefore(log, |log|)
  }

  /** Global ids of the `new` entries, in log order. */
  function NewIds(log: seq<Entry>): seq<int> {
    if log == [] then []
    else
      var init := NewIds(log[..|log| - 1]);
      match log[|log| - 1].update
      case New(g) => init + [g]
      case _ => init
  }

  function Gids(box: seq<Ref>): seq<int> {
    seq(|box|, i requires 0 <= i < |box| => box[i].globalId)
  }

  /** Local ids the account itself deleted. */
  ghost function DeletedIds(log: seq<Entry>): set<int> {
    set e, l | e in log && e.update.Delete? && l in e.update.ids :: l
  }

  /** Edits name messages already announced in this log; deletes name local ids already allocated. */
  ghost predicate EntryOk(log: seq<Entry>, k: int)
    requires 0 <= k < |log|
  {
    match log[k].update
    case Edit(g) => g in NewIds(log[..k])
    case Delete(ids) => forall l | l in ids :: 1 <= l <= |NewIds(log[..k])|
    case _ => true
  }

  ghost predicate LogOk(a: Account) {
    && Gapless(a.log, a.pts)
    && NewIds(a.log) == Gids(a.box)
    && forall k | 0 <= k < |a.log| :: EntryOk(a.log, k)
  }

  ghost predicate Logged(w: World) {
    forall u | u in w.accounts :: LogOk(w.accounts[u])
  }

  // --- preservation --------------------------------------------------------

  lemma AppendEntry(a: Account, b: Account, e: Entry)
    requires LogOk(a) && b.log == a.log + [e] && b.pts == e.pts
    requires e.ptsCount >= 1 && e.ptsCount == Weight(e.update) && e.pts == a.pts + e.ptsCount
    requires Gids(b.box) == NewIds(a.log) + (match e.update case New(g) => [g] case _ => [])
    requires e.update.Edit? ==> e.update.globalId in NewIds(a.log)
    requires e.update.Delete? ==> forall l | l in e.update.ids :: 1 <= l <= |NewIds(a.log)|
    ensures LogOk(b)
  {
    var log := a.log + [e];
    assert log[..|log| - 1] == a.log;
    forall k | 0 <= k < |log| ensures EntryOk(log, k) {
      if k < |a.log| {
        assert log[..k] == a.log[..k];
        assert EntryOk(a.log, k);
      }
    }
    forall i | 0 <= i < |log| ensures Chained(log, i) {
      assert i < |a.log| ==> Chained(a.log, i) && log[i] == a.log[i] && PtsBefore(log, i) == PtsBefore(a.log, i);
    }
  }

  lemma PostedOk(a: Account, count: int, update: Update, now: int)
    requires LogOk(a) && !update.New? && count == Weight(update) >= 1
    requires update.Edit? ==> update.globalId in NewIds(a.log)
    requires update.Delete? ==> forall l | l in update.ids :: 1 <= l <= |NewIds(a.log)|
    ensures LogOk(Posted(a, count, update, now))
  {
    AppendEntry(a, Posted(a, count, update, now), Entry(a.pts + count, count, update, now));
  }

  lemma ReceiveOk(a: Account, g: int, out: bool, now: int)
    requires LogOk(a) && a.lastId == |a.box|
    ensures LogOk(Receive(a, g, out, now))
  {
    PutAppends(a, g, out, now);
    var b := Receive(a, g, out, now);
    assert Gids(b.box) == Gids(a.box) + [g];
    AppendEntry(a, b, Entry(a.pts + 1, 1, New(g), now));
  }

  lemma ReadBoxOk(ms: seq<Message>, self: int, peer: int, maxId: int, a: Account)
    requires LogOk(a)
    ensures LogOk(a.(box := ReadBox(ms, self, peer, maxId, a.box)))
  {
    assert Gids(ReadBox(ms, self, peer, maxId, a.box)) == Gids(a.box);
  }

  lemma HoldsAnnounced(w: World, u: int, g: int)
    requires u in w.accounts && LogOk(w.accounts[u])
    requires Holds(Box(w, u), g)
    ensures g in NewIds(w.accounts[u].log)
  {
    var i :| 0 <= i < |Box(w, u)| && Box(w, u)[i].globalId == g;
    assert Gids(Box(w, u))[i] == g;
  }

  lemma EditLogged(w: World, self: int, localId: int, text: string, now: int)
    requires Structured(w) && Logged(w)
    ensures Logged(EditText(w, self, localId, text, now))
  {
    if Editable(w, self, localId) {
      var r := Box(w, self)[localId - 1];
      var g := r.globalId;
      var m := MessageAt(w.messages, g);
      assert BoxOk(w.messages, self, Box(w, self)) && RefOk(w.messages, self, r);
      HoldsAnnounced(w, self, g);
      PostedOk(w.accounts[self], 1, Edit(g), now);
      if m.peer != self {
        assert Participant(w.messages, m.peer, g);
        HoldsAnnounced(w, m.peer, g);
        PostedOk(w.accounts[m.peer], 1, Edit(g), now);
      }
    }
  }

  lemma DeleteLogged(w: World, self: int, ids: seq<int>, now: int)
    requires Structured(w) && Logged(w)
    ensures Logged(DeleteIds(w, self, ids, now))
  {
    var held := Held(Box(w, self), ids);
    if held != [] && self in w.accounts {
      HeldFromBox(Box(w, self), ids);
      PostedOk(w.accounts[self], |held|, Delete(held), now);
    }
  }

  lemma ReadLogged(w: World, self: int, peer: int, maxId: int, now: int)
    requires Structured(w) && Logged(w) && self in w.accounts
    ensures Logged(Read(w, self, peer, maxId, now))
  {
    var v := Read(w, self, peer, maxId, now);
    ReadAccounts(w, self, peer, maxId, now, self);
    forall u | u in v.accounts ensures LogOk(v.accounts[u]) {
      ReadAccounts(w, self, peer, maxId, now, u);
      if u == self {
        var a := w.accounts[u];
        ReadBoxOk(w.messages, self, peer, maxId, a);
        PostedOk(a.(box := ReadBox(w.messages, self, peer, maxId, a.box)), 1, ReadInbox(peer, maxId), now);
      } else {
        PostedOk(w.accounts[u], 1, ReadOutbox(self, ReceiptId(w, self, peer, maxId)), now);
      }
    }
  }

  lemma StepLogged(w: World, op: Op)
    requires Structured(w) && Logged(w) && Enabled(w, op)
    ensures Logged(Step(w, op))
  {
    match op
    case CreateOp => CreateStructured(w);
    case SendOp(from, peer, text, randomId, media, now) =>
      forall u | u in Step(w, op).accounts ensures LogOk(Step(w, op).accounts[u]) {
        SendBoxes(w, from, peer, text, randomId, media, now, from);
        SendBoxes(w, from, peer, text, randomId, media, now, u);
        ReceiveOk(w.accounts[u], |w.messages| + 1, u == from, now);
      }
    case EditOp(self, localId, text, now) => EditLogged(w, self, localId, text, now);
    case DeleteOp(self, ids, now) => DeleteLogged(w, self, ids, now);
    case ReadOp(self, peer, maxId, now) => ReadLogged(w, self, peer, maxId, now);
  }

  // --- what the pts counts -----------------------------------------------------

  function Edits(log: seq<Entry>): int {
    if log == [] then 0
    else Edits(log[..|log| - 1]) + if log[|log| - 1].update.Edit? then 1 else 0
  }

  function ReadsLogged(log: seq<Entry>): int {
    if log == [] then 0
    else
      ReadsLogged(log[..|log| - 1]) +
      (if log[|log| - 1].update.ReadInbox? || log[|log| - 1].update.ReadOutbox? then 1 else 0)
  }

  function DeletedTotal(log: seq<Entry>): int {
    if log == [] then 0
    else DeletedTotal(log[..|log| - 1]) + match log[|log| - 1].update case Delete(ids) => |ids| case _ => 0
  }

  lemma {:induction false} PtsSum(log: seq<Entry>, pts: int)
    requires Gapless(log, pts)
    ensures pts == |NewIds(log)| + Edits(log) + ReadsLogged(log) + DeletedTotal(log)
  {
    if log != [] {
      var init := log[..|log| - 1];
      forall i | 0 <= i < |init| ensures Chained(init, i) {
        assert Chained(log, i);
      }
      assert Chained(log, |log| - 1);
      PtsSum(init, PtsBefore(log, |log| - 1));
    }
  }
}
