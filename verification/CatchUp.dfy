/**
 A client that catches up from the update log ends where a full replay ends.

 The client keeps the messages it holds by local id. A `new` entry adds a message, an `edit`
 entry replaces a held one, a `delete` entry removes ids; new and edit entries carry the text the
 message has when the difference is asked for, not the one it had when the entry was logged.
 */
module CatchUp {
  import opened Prelude
  import opened Messaging
  import opened Structure
  import opened UpdateLog
  import opened History
  import opened Agreement

  /** What resolving a log entry looks at: the account, the messages and its box. */
  datatype Sight = Sight(self: int, messages: seq<Message>, box: seq<Ref>)

  function SightOf(w: World, self: int): Sight {
    Sight(self, w.messages, Box(w, self))
  }

  ghost predicate Sound(s: Sight) {
    BoxOk(s.messages, s.self, s.box) && GlobalIdsOk(s.messages)
  }

  /** The account's reference to a canonical message, if it has one. */
  function Find(box: seq<Ref>, g: int): (r: Option<Ref>)
    ensures r.Some? ==> r.value in box && r.value.globalId == g
    ensures r.None? ==> !Holds(box, g)
  {
    if box == [] then None
    else if box[|box| - 1].globalId == g then Some(box[|box| - 1])
    else
      HoldsInit(box, g);
      Find(box[..|box| - 1], g)
  }

  lemma HoldsInit(box: seq<Ref>, g: int)
    requires box != [] && box[|box| - 1].globalId != g
    ensures Holds(box, g) ==> Holds(box[..|box| - 1], g)
  {
    if Holds(box, g) {
      var i :| 0 <= i < |box| && box[i].globalId == g;
      assert box[..|box| - 1][i].globalId == g;
    }
  }

  /** Increasing global ids leave one candidate, whatever order the box is searched in. */
  lemma FindUnique(box: seq<Ref>, q: Ref)
    requires Increasing(box) && q in box
    ensures Find(box, q.globalId) == Some(q)
  {
    var i :| 0 <= i < |box| && box[i] == q;
    assert Holds(box, q.globalId);
    var r := Find(box, q.globalId).value;
    var j :| 0 <= j < |box| && box[j] == r;
  }

  function ViewByGlobal(s: Sight, g: int): Option<View> {
    match Find(s.box, g)
    case None => None
    case Some(r) => if Known(s.messages, g) then Some(ViewOf(s.self, r, MessageAt(s.messages, g))) else None
  }

  function Apply(s: Sight, held: map<int, View>, u: Update): map<int, View> {
    match u
    case New(g) =>
      (match ViewByGlobal(s, g) case Some(v) => held[v.localId := v] case None => held)
    case Edit(g) =>
      (match ViewByGlobal(s, g)
       case Some(v) => if v.localId in held then held[v.localId := v] else held
       case None => held)
    case Delete(ids) => map l | l in held && l !in ids :: held[l]
    case ReadInbox(_, _) => held
    case ReadOutbox(_, _) => held
  }

  function ApplyAll(s: Sight, held: map<int, View>, entries: seq<Entry>): map<int, View> {
    if entries == [] then held
    else Apply(s, ApplyAll(s, held, entries[..|entries| - 1]), entries[|entries| - 1].update)
  }

  lemma {:induction false} ApplyConcat(s: Sight, held: map<int, View>, xs: seq<Entry>, ys: seq<Entry>)
    ensures ApplyAll(s, held, xs + ys) == ApplyAll(s, ApplyAll(s, held, xs), ys)
    decreases |ys|
  {
    if ys == [] {
      assert xs + ys == xs;
    } else {
      ApplyConcat(s, held, xs, ys[..|ys| - 1]);
      assert (xs + ys)[..|xs + ys| - 1] == xs + ys[..|ys| - 1];
    }
  }

  // --- the outcome of a batch of entries ----------------------------------------

  function LocalOf(s: Sight, g: int): int {
    match Find(s.box, g) case Some(r) => r.localId case None => 0
  }

  ghost function Announced(s: Sight, entries: seq<Entry>): set<int> {
    set e | e in entries && e.update.New? :: LocalOf(s, e.update.globalId)
  }

  ghost function Touched(s: Sight, entries: seq<Entry>): set<int> {
    set e | e in entries && (e.update.New? || e.update.Edit?) :: LocalOf(s, e.update.globalId)
  }

  /** Every message the entries name can be resolved. */
  ghost predicate Resolved(s: Sight, entries: seq<Entry>) {
    forall e | e in entries && (e.update.New? || e.update.Edit?) :: Holds(s.box, e.update.globalId)
  }

  /** No entry announces an id that an earlier entry deleted. */
  ghost predicate NeverReused(s: Sight, entries: seq<Entry>) {
    forall i, j | 0 <= i < j < |entries| && entries[i].update.Delete? && entries[j].update.New? ::
      LocalOf(s, entries[j].update.globalId) !in entries[i].update.ids
  }

  /** The view of local id `l` as the server would render it now. */
  function ViewAt(s: Sight, l: int): View
    requires 1 <= l <= |s.box| && Known(s.messages, s.box[l - 1].globalId)
  {
    ViewOf(s.self, s.box[l - 1], MessageAt(s.messages, s.box[l - 1].globalId))
  }

  predicate Current(s: Sight, l: int, v: View) {
    1 <= l <= |s.box| && Known(s.messages, s.box[l - 1].globalId) && v == ViewAt(s, l)
  }

  lemma Resolves(s: Sight, g: int)
    requires Sound(s) && Holds(s.box, g)
    ensures ViewByGlobal(s, g).Some?
    ensures ViewByGlobal(s, g).value.localId == LocalOf(s, g)
    ensures Current(s, LocalOf(s, g), ViewByGlobal(s, g).value)
  {
    var r := Find(s.box, g).value;
    var i :| 0 <= i < |s.box| && s.box[i] == r;
    assert RefOk(s.messages, s.self, s.box[i]);
  }

  /** What a client holds after a batch: old and announced ids minus deleted ones, touched ones current. */
  ghost predicate Outcome(s: Sight, held: map<int, View>, announced: set<int>, touched: set<int>, gone: set<int>,
                          after: map<int, View>) {
    && (forall l :: l in after <==> (l in held || l in announced) && l !in gone)
    && (forall l | l in after ::
          if l in touched then Current(s, l, after[l]) else l in held && after[l] == held[l])
  }

  lemma OutcomeUnique(s: Sight, held: map<int, View>, announced: set<int>, touched: set<int>, gone: set<int>,
                      a: map<int, View>, b: map<int, View>)
    requires Outcome(s, held, announced, touched, gone, a) && Outcome(s, held, announced, touched, gone, b)
    ensures a == b
  {
    forall l ensures l in a <==> l in b {
      assert l in a <==> (l in held || l in announced) && l !in gone;
    }
    forall l | l in a ensures a[l] == b[l] {
      assert l in b;
    }
  }

  lemma BatchStep(s: Sight, entries: seq<Entry>, e: Entry)
    ensures Announced(s, entries + [e]) ==
            Announced(s, entries) + (if e.update.New? then {LocalOf(s, e.update.globalId)} else {})
    ensures Touched(s, entries + [e]) ==
            Touched(s, entries) + (if e.update.New? || e.update.Edit? then {LocalOf(s, e.update.globalId)} else {})
    ensures DeletedIds(entries + [e]) ==
            DeletedIds(entries) + (match e.update case Delete(ids) => (set l | l in ids) case _ => {})
  {
    var all := entries + [e];
    assert forall x :: x in all <==> x in entries || x == e;
    forall l ensures l in DeletedIds(all) <==> l in DeletedIds(entries) || (e.update.Delete? && l in e.update.ids) {
      if l in DeletedIds(entries) {
        var d :| d in entries && d.update.Delete? && l in d.update.ids;
        assert d in all;
      }
      assert e in all;
    }
  }

  lemma {:induction false} ApplyAllOutcome(s: Sight, held: map<int, View>, entries: seq<Entry>)
    requires Sound(s) && Resolved(s, entries) && NeverReused(s, entries)
    ensures Outcome(s, held, Announced(s, entries), Touched(s, entries), DeletedIds(entries),
        ApplyAll(s, held, entries))
  {
    if entries == [] {
      assert DeletedIds(entries) == {};
    } else {
      var n := |entries| - 1;
      var init, e := entries[..n], entries[n];
      assert entries == init + [e];
      assert forall x | x in init :: x in entries;
      ApplyAllOutcome(s, held, init);
      BatchStep(s, init, e);
      var mid := ApplyAll(s, held, init);
      if e.update.New? || e.update.Edit? {
        assert e in entries;
        Resolves(s, e.update.globalId);
        if e.update.New? {
          NotDeletedBefore(s, entries, n);
        }
      }
      OutcomeStep(s, held, mid, Announced(s, init), Touched(s, init), DeletedIds(init), e.update);
    }
  }

  lemma NotDeletedBefore(s: Sight, entries: seq<Entry>, n: int)
    requires NeverReused(s, entries) && 0 <= n < |entries| && entries[n].update.New?
    ensures LocalOf(s, entries[n].update.globalId) !in DeletedIds(entries[..n])
  {
    var l := LocalOf(s, entries[n].update.globalId);
    forall d | d in entries[..n] && d.update.Delete? ensures l !in d.update.ids {
      var i :| 0 <= i < n && entries[i] == d;
    }
  }

  lemma OutcomeStep(s: Sight, held: map<int, View>, mid: map<int, View>,
                    announced: set<int>, touched: set<int>, gone: set<int>, u: Update)
    requires Outcome(s, held, announced, touched, gone, mid)
    requires u.New? || u.Edit? ==>
               var v := ViewByGlobal(s, u.globalId);
               v.Some? && v.value.localId == LocalOf(s, u.globalId) && Current(s, LocalOf(s, u.globalId), v.value)
    requires u.New? ==> LocalOf(s, u.globalId) !in gone
    ensures Outcome(s, held,
                    announced + (if u.New? then {LocalOf(s, u.globalId)} else {}),
                    touched + (if u.New? || u.Edit? then {LocalOf(s, u.globalId)} else {}),
                    gone + (match u case Delete(ids) => (set l | l in ids) case _ => {}),
                    Apply(s, mid, u))
  {
    match u
    case New(g) =>
    case Edit(g) =>
    case Delete(ids) =>
    case ReadInbox(_, _) =>
    case ReadOutbox(_, _) =>
  }

  // --- delivery order --------------------------------------------------------------

  function News(entries: seq<Entry>): seq<Entry> {
    if entries == [] then []
    else
      var e := entries[|entries| - 1];
      News(entries[..|entries| - 1]) + if e.update.New? then [e] else []
  }

  function Others(entries: seq<Entry>): seq<Entry> {
    if entries == [] then []
    else
      var e := entries[|entries| - 1];
      Others(entries[..|entries| - 1]) + if e.update.New? then [] else [e]
  }

  lemma {:induction false} Partition(entries: seq<Entry>)
    ensures forall e :: e in News(entries) <==> e in entries && e.update.New?
    ensures forall e :: e in Others(entries) <==> e in entries && !e.update.New?
  {
    if entries != [] {
      Partition(entries[..|entries| - 1]);
      assert entries == entries[..|entries| - 1] + [entries[|entries| - 1]];
    }
  }

  lemma NewsFirst(s: Sight, xs: seq<Entry>, ys: seq<Entry>)
    requires forall k | 0 <= k < |xs| :: xs[k].update.New?
    requires forall k | 0 <= k < |ys| :: !ys[k].update.New?
    ensures NeverReused(s, xs + ys)
  {
  }

  /** Delivering all new messages first and the other updates second changes nothing. */
  lemma ReorderingIsHarmless(s: Sight, held: map<int, View>, entries: seq<Entry>)
    requires Sound(s) && Resolved(s, entries) && NeverReused(s, entries)
    ensures ApplyAll(s, ApplyAll(s, held, News(entries)), Others(entries)) == ApplyAll(s, held, entries)
  {
    var reordered := News(entries) + Others(entries);
    Partition(entries);
    assert forall e :: e in reordered <==> e in entries;
    assert forall k | 0 <= k < |News(entries)| :: News(entries)[k] in News(entries);
    assert forall k | 0 <= k < |Others(entries)| :: Others(entries)[k] in Others(entries);
    NewsFirst(s, News(entries), Others(entries));
    ApplyConcat(s, held, News(entries), Others(entries));
    ApplyAllOutcome(s, held, entries);
    ApplyAllOutcome(s, held, reordered);
    assert Announced(s, reordered) == Announced(s, entries);
    assert Touched(s, reordered) == Touched(s, entries);
    assert DeletedIds(reordered) == DeletedIds(entries);
    OutcomeUnique(s, held, Announced(s, entries), Touched(s, entries), DeletedIds(entries),
                  ApplyAll(s, held, reordered), ApplyAll(s, held, entries));
  }

  // --- synchronisation ----------------------------------------------------------------

  /** `held` is what the first `k` log entries announced and did not delete; stale texts have a later entry. */
  ghost predicate Synced(s: Sight, log: seq<Entry>, k: int, held: map<int, View>) {
    && 0 <= k <= |log|
    && (forall l :: l in held <==> l in Announced(s, log[..k]) && l !in DeletedIds(log[..k]))
    && (forall l | l in held :: Current(s, l, held[l]) || l in Touched(s, log[k..]))
  }

  /** What a log satisfies so that it can be replayed. */
  ghost predicate Replayable(s: Sight, log: seq<Entry>) {
    Sound(s) && Resolved(s, log) && NeverReused(s, log)
  }

  lemma BatchConcat(s: Sight, xs: seq<Entry>, ys: seq<Entry>)
    ensures Announced(s, xs + ys) == Announced(s, xs) + Announced(s, ys)
    ensures Touched(s, xs + ys) == Touched(s, xs) + Touched(s, ys)
    ensures DeletedIds(xs + ys) == DeletedIds(xs) + DeletedIds(ys)
  {
    assert forall e :: e in xs + ys <==> e in xs || e in ys;
    forall l ensures l in DeletedIds(xs + ys) <==> l in DeletedIds(xs) || l in DeletedIds(ys) {
      if l in DeletedIds(xs) {
        var d :| d in xs && d.update.Delete? && l in d.update.ids;
        assert d in xs + ys;
      }
      if l in DeletedIds(ys) {
        var d :| d in ys && d.update.Delete? && l in d.update.ids;
        assert d in xs + ys;
      }
    }
  }

  lemma ReplayablePart(s: Sight, log: seq<Entry>, k: int, n: int)
    requires Replayable(s, log) && 0 <= k <= n <= |log|
    ensures Replayable(s, log[k..n])
    ensures forall l | l in Announced(s, log[k..n]) :: l !in DeletedIds(log[..k])
  {
    assert forall e | e in log[k..n] :: e in log;
    assert forall i | 0 <= i < n - k :: log[k..n][i] == log[k + i];
    forall e, d | e in log[k..n] && e.update.New? && d in log[..k] && d.update.Delete?
      ensures LocalOf(s, e.update.globalId) !in d.update.ids
    {
      var j :| 0 <= j < n - k && log[k..n][j] == e;
      var i :| 0 <= i < k && log[i] == d;
    }
  }

  /** Applying the next entries of the log keeps a client synchronised, now further along. */
  lemma AdvanceSynced(s: Sight, log: seq<Entry>, k: int, n: int, held: map<int, View>)
    requires Replayable(s, log) && Synced(s, log, k, held) && k <= n <= |log|
    ensures Synced(s, log, n, ApplyAll(s, held, log[k..n]))
  {
    var part := log[k..n];
    var after := ApplyAll(s, held, part);
    ReplayablePart(s, log, k, n);
    ApplyAllOutcome(s, held, part);
    assert log[..n] == log[..k] + part && log[k..] == part + log[n..];
    BatchConcat(s, log[..k], part);
    BatchConcat(s, part, log[n..]);
    forall l ensures l in after <==> l in Announced(s, log[..n]) && l !in DeletedIds(log[..n]) {
    }
    forall l | l in after ensures Current(s, l, after[l]) || l in Touched(s, log[n..]) {
    }
  }

  /** A client synchronised with the whole log is determined by the server's state. */
  lemma SyncedIsUnique(s: Sight, log: seq<Entry>, a: map<int, View>, b: map<int, View>)
    requires Synced(s, log, |log|, a) && Synced(s, log, |log|, b)
    ensures a == b
  {
    assert log[|log|..] == [];
    forall l ensures l in a <==> l in b {
    }
    forall l | l in a ensures a[l] == b[l] {
      assert Current(s, l, a[l]) && Current(s, l, b[l]);
    }
  }

  /** A client that starts with nothing and applies the whole log. */
  function Replay(s: Sight, log: seq<Entry>): map<int, View> {
    ApplyAll(s, map[], log)
  }

  lemma ReplaySynced(s: Sight, log: seq<Entry>)
    requires Replayable(s, log)
    ensures Synced(s, log, |log|, Replay(s, log))
  {
    assert log[..0] == [] && log[0..|log|] == log;
    assert Announced(s, []) == {} && DeletedIds([]) == {};
    AdvanceSynced(s, log, 0, |log|, map[]);
  }

  /** From any boundary: applying what is left gives what replaying everything gives. */
  lemma CatchUpEqualsReplay(s: Sight, log: seq<Entry>, k: int, held: map<int, View>)
    requires Replayable(s, log) && Synced(s, log, k, held)
    ensures ApplyAll(s, held, log[k..]) == Replay(s, log)
  {
    AdvanceSynced(s, log, k, |log|, held);
    assert log[k..|log|] == log[k..];
    ReplaySynced(s, log);
    SyncedIsUnique(s, log, ApplyAll(s, held, log[k..]), Replay(s, log));
  }
}
