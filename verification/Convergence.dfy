/** Catching up over whole runs: a client that follows the log converges to the server's state. */
module Convergence {
  import opened Prelude
  import opened Messaging
  import opened Structure
  import opened UpdateLog
  import opened Deletions
  import opened History
  import opened Agreement
  import opened Difference
  import opened CatchUp
  import opened Invariant

  // --- logs of reachable states can be replayed ------------------------------------

  lemma {:induction false} NewIdsAt(log: seq<Entry>, j: int)
    requires 0 <= j < |log| && log[j].update.New?
    ensures |NewIds(log[..j])| < |NewIds(log)|
    ensures NewIds(log)[|NewIds(log[..j])|] == log[j].update.globalId
  {
    var n := |log| - 1;
    if j < n {
      NewIdsAt(log[..n], j);
      assert log[..n][..j] == log[..j];
    }
  }

  /** The i-th `new` entry names the message at local id i. */
  lemma NewEntryLocal(s: Sight, a: Account, j: int)
    requires Sound(s) && s.box == a.box && LogOk(a)
    requires 0 <= j < |a.log| && a.log[j].update.New?
    ensures LocalOf(s, a.log[j].update.globalId) == |NewIds(a.log[..j])| + 1
  {
    NewIdsAt(a.log, j);
    var i := |NewIds(a.log[..j])|;
    assert Gids(a.box)[i] == a.box[i].globalId;
    FindUnique(s.box, s.box[i]);
  }

  lemma {:induction false} NewIdsMonotone(log: seq<Entry>, i: int, j: int)
    requires 0 <= i <= j <= |log|
    ensures |NewIds(log[..i])| <= |NewIds(log[..j])|
  {
    NewIdsGrow(log[..j], i);
    assert log[..j][..i] == log[..i];
  }

  lemma LogReplayable(s: Sight, a: Account)
    requires Sound(s) && s.box == a.box && LogOk(a)
    ensures Replayable(s, a.log)
  {
    var log := a.log;
    forall e | e in log && (e.update.New? || e.update.Edit?) ensures Holds(s.box, e.update.globalId) {
      var k :| 0 <= k < |log| && log[k] == e;
      if e.update.New? {
        NewIdsMember(log, k);
      } else {
        assert EntryOk(log, k);
        NewIdsPrefix(log, k, e.update.globalId);
      }
      var i :| 0 <= i < |Gids(a.box)| && Gids(a.box)[i] == e.update.globalId;
      assert s.box[i].globalId == e.update.globalId;
    }
    forall i, j | 0 <= i < j < |log| && log[i].update.Delete? && log[j].update.New?
      ensures LocalOf(s, log[j].update.globalId) !in log[i].update.ids
    {
      assert EntryOk(log, i);
      NewIdsMonotone(log, i, j);
      NewEntryLocal(s, a, j);
    }
  }

  lemma WorldReplayable(w: World, u: int)
    requires Inv(w)
    ensures Replayable(SightOf(w, u), Log(w, u))
  {
    if u in w.accounts {
      assert LogOk(w.accounts[u]);
      LogReplayable(SightOf(w, u), w.accounts[u]);
    }
  }

  // --- what a step changes for one viewer -----------------------------------------------

  ghost predicate SameRef(q: Ref, r: Ref) {
    q.localId == r.localId && q.globalId == r.globalId && q.out == r.out
  }

  /** Fields of a message a view shows, other than its text and edit date. */
  ghost predicate SameFacts(m: Message, n: Message) {
    && m.globalId == n.globalId && m.from == n.from && m.peer == n.peer && m.date == n.date
    && m.randomId == n.randomId && m.mediaFileId == n.mediaFileId
  }

  /** `t` shows all that `s` showed; a changed text comes with an `edit` entry in `added`. */
  ghost predicate Evolves(s: Sight, t: Sight, added: seq<Entry>) {
    && t.self == s.self
    && |s.box| <= |t.box|
    && (forall i | 0 <= i < |s.box| :: SameRef(s.box[i], t.box[i]))
    && |s.messages| <= |t.messages|
    && (forall i | 0 <= i < |s.messages| :: SameFacts(s.messages[i], t.messages[i]))
    && (forall i | 0 <= i < |s.messages| && Holds(s.box, i + 1) ::
          (s.messages[i].text == t.messages[i].text && s.messages[i].editDate == t.messages[i].editDate)
          || exists e :: e in added && e.update == Edit(i + 1))
  }

  lemma EvolvesLocal(s: Sight, t: Sight, added: seq<Entry>, g: int)
    requires Sound(s) && Sound(t) && Evolves(s, t, added) && Holds(s.box, g)
    ensures LocalOf(t, g) == LocalOf(s, g)
    ensures 1 <= LocalOf(s, g) <= |s.box| && s.box[LocalOf(s, g) - 1].globalId == g
  {
    var i :| 0 <= i < |s.box| && s.box[i].globalId == g;
    FindUnique(s.box, s.box[i]);
    assert SameRef(s.box[i], t.box[i]);
    FindUnique(t.box, t.box[i]);
  }

  lemma EvolvesBatch(s: Sight, t: Sight, added: seq<Entry>, entries: seq<Entry>)
    requires Sound(s) && Sound(t) && Evolves(s, t, added) && Resolved(s, entries)
    ensures Announced(t, entries) == Announced(s, entries)
    ensures Touched(t, entries) == Touched(s, entries)
  {
    forall e | e in entries && (e.update.New? || e.update.Edit?)
      ensures LocalOf(t, e.update.globalId) == LocalOf(s, e.update.globalId)
    {
      EvolvesLocal(s, t, added, e.update.globalId);
    }
  }

  lemma StaleIsTouched(s: Sight, t: Sight, added: seq<Entry>, l: int, v: View)
    requires Sound(s) && Sound(t) && Evolves(s, t, added) && Current(s, l, v)
    ensures Current(t, l, v) || l in Touched(t, added)
  {
    var g := s.box[l - 1].globalId;
    assert SameRef(s.box[l - 1], t.box[l - 1]);
    assert Holds(s.box, g);
    var i := g - 1;
    assert SameFacts(s.messages[i], t.messages[i]);
    if !(s.messages[i].text == t.messages[i].text && s.messages[i].editDate == t.messages[i].editDate) {
      var e :| e in added && e.update == Edit(i + 1);
      EvolvesLocal(s, t, added, g);
      FindUnique(s.box, s.box[l - 1]);
      assert LocalOf(t, e.update.globalId) in Touched(t, added);
    }
  }

  lemma EvolvesSynced(s: Sight, t: Sight, log: seq<Entry>, added: seq<Entry>, k: int, held: map<int, View>)
    requires Replayable(s, log) && Sound(t) && Evolves(s, t, added) && Synced(s, log, k, held)
    ensures Synced(t, log + added, k, held)
  {
    var all := log + added;
    assert all[..k] == log[..k] && all[k..] == log[k..] + added;
    assert forall e | e in log[..k] :: e in log;
    assert forall e | e in log[k..] :: e in log;
    EvolvesBatch(s, t, added, log[..k]);
    EvolvesBatch(s, t, added, log[k..]);
    BatchConcat(t, log[k..], added);
    forall l | l in held ensures Current(t, l, held[l]) || l in Touched(t, all[k..]) {
      if Current(s, l, held[l]) {
        StaleIsTouched(s, t, added, l, held[l]);
      }
    }
  }

  // --- every operation evolves every viewer -----------------------------------------------

  ghost function Added(w: World, v: World, u: int): seq<Entry>
    requires Log(w, u) <= Log(v, u)
  {
    Log(v, u)[|Log(w, u)|..]
  }

  ghost predicate StepEvolution(w: World, v: World, u: int) {
    Log(w, u) <= Log(v, u) && Evolves(SightOf(w, u), SightOf(v, u), Added(w, v, u))
  }

  lemma SendEvolves(w: World, v: World, m: Message, u: int)
    requires SendView(w, v, m, u)
    ensures StepEvolution(w, v, u)
  {
  }

  lemma EditEvolves(w: World, v: World, g: int, text: string, now: int, u: int)
    requires Sound(SightOf(w, u)) && Known(w.messages, g) && EditView(w, v, g, text, now, u)
    ensures StepEvolution(w, v, u)
  {
    var s, t, added := SightOf(w, u), SightOf(v, u), Added(w, v, u);
    if Holds(s.box, g) {
      var k :| 0 <= k < |s.box| && s.box[k].globalId == g;
      assert RefOk(w.messages, u, s.box[k]);
      assert added[0] in added && added[0].update == Edit(g);
    }
    assert forall i | 0 <= i < |s.messages| && i != g - 1 :: s.messages[i] == t.messages[i];
  }

  lemma BoxesOkHere(w: World, u: int)
    requires Inv(w)
    ensures Sound(SightOf(w, u))
  {
  }

  lemma NothingEvolves(w: World, u: int)
    ensures StepEvolution(w, w, u)
  {
  }

  lemma CreateEvolves(w: World, u: int)
    ensures StepEvolution(w, Create(w), u)
  {
    assert Box(Create(w), u) == Box(w, u) && Log(Create(w), u) == Log(w, u);
  }

  lemma DeleteEvolves(w: World, v: World, self: int, held: seq<int>, now: int, u: int)
    requires DeleteView(w, v, self, held, now, u)
    ensures StepEvolution(w, v, u)
  {
  }

  lemma ReadEvolves(w: World, v: World, self: int, peer: int, maxId: int, now: int, u: int)
    requires self in w.accounts && ReadView(w, v, self, peer, maxId, now, u)
    ensures StepEvolution(w, v, u)
  {
  }

  lemma StepEvolves(w: World, op: Op, u: int)
    requires Inv(w) && Enabled(w, op)
    ensures StepEvolution(w, Step(w, op), u)
  {
    NothingEvolves(w, u);
    match op
    case CreateOp => CreateEvolves(w, u);
    case SendOp(from, peer, text, randomId, media, now) =>
      SendViews(w, from, peer, text, randomId, media, now, u);
      SendEvolves(w, Step(w, op), Message(|w.messages| + 1, from, peer, text, now, None, randomId, media, false), u);
    case EditOp(self, localId, text, now) =>
      if Editable(w, self, localId) {
        BoxesOkHere(w, u);
        EditViews(w, self, localId, text, now, u);
        EditEvolves(w, Step(w, op), Box(w, self)[localId - 1].globalId, text, now, u);
      }
    case DeleteOp(self, ids, now) =>
      if Held(Box(w, self), ids) != [] {
        DeleteViews(w, self, ids, now, u);
        DeleteEvolves(w, Step(w, op), self, Held(Box(w, self), ids), now, u);
      }
    case ReadOp(self, peer, maxId, now) =>
      ReadViews(w, self, peer, maxId, now, u);
      ReadEvolves(w, Step(w, op), self, peer, maxId, now, u);
  }

  // --- a client beside the server ---------------------------------------------------------

  datatype Client = Client(pts: int, held: map<int, View>)

  /** The client asks for at most `limit` entries above its pts and applies what it gets, new messages first. */
  function Fetch(w: World, u: int, limit: int, c: Client): Client {
    var page := Limited(Pending(Log(w, u), c.pts), limit);
    var s := SightOf(w, u);
    Client(PtsAfter(page, c.pts), ApplyAll(s, ApplyAll(s, c.held, News(page)), Others(page)))
  }

  datatype Event = Serve(op: Op) | Poll(limit: int)

  datatype Scene = Scene(world: World, client: Client)

  /** Server operations and catch-ups of account `u`'s client, interleaved in any order. */
  ghost function Play(u: int, events: seq<Event>): Option<Scene> {
    if events == [] then Some(Scene(INITIAL, Client(0, map[])))
    else
      match Play(u, events[..|events| - 1])
      case None => None
      case Some(x) =>
        match events[|events| - 1]
        case Serve(op) => if Enabled(x.world, op) then Some(Scene(Step(x.world, op), x.client)) else None
        case Poll(limit) => Some(Scene(x.world, Fetch(x.world, u, limit, x.client)))
  }

  function PtsOf(w: World, u: int): int {
    if u in w.accounts then w.accounts[u].pts else 0
  }

  ghost predicate OnTrack(u: int, x: Scene) {
    var log := Log(x.world, u);
    && Inv(x.world)
    && exists k :: 0 <= k <= |log| && x.client.pts == PtsBefore(log, k)
        && Synced(SightOf(x.world, u), log, k, x.client.held)
  }

  lemma LogGapless(w: World, u: int)
    requires Inv(w)
    ensures Gapless(Log(w, u), PtsOf(w, u))
  {
    if u in w.accounts {
      assert LogOk(w.accounts[u]);
    }
  }

  lemma ServeOnTrack(u: int, x: Scene, op: Op)
    requires OnTrack(u, x) && Enabled(x.world, op)
    ensures OnTrack(u, Scene(Step(x.world, op), x.client))
  {
    var w, v := x.world, Step(x.world, op);
    var log := Log(w, u);
    var k :| 0 <= k <= |log| && x.client.pts == PtsBefore(log, k) && Synced(SightOf(w, u), log, k, x.client.held);
    StepInv(w, op);
    StepEvolves(w, op, u);
    WorldReplayable(w, u);
    BoxesOkHere(v, u);
    EvolvesSynced(SightOf(w, u), SightOf(v, u), log, Added(w, v, u), k, x.client.held);
    assert Log(v, u) == log + Added(w, v, u);
    assert PtsBefore(Log(v, u), k) == PtsBefore(log, k);
  }

  /** Applying a page of a replayable log, new messages first, moves a synchronised client to the page's end. */
  lemma PageAdvances(s: Sight, log: seq<Entry>, k: int, n: int, held: map<int, View>)
    requires Replayable(s, log) && Synced(s, log, k, held) && k <= n <= |log|
    ensures Synced(s, log, n, ApplyAll(s, ApplyAll(s, held, News(log[k..n])), Others(log[k..n])))
  {
    ReplayablePart(s, log, k, n);
    ReorderingIsHarmless(s, held, log[k..n]);
    AdvanceSynced(s, log, k, n, held);
  }

  /** The page asked for at a boundary, and the boundary it ends at. */
  lemma PageFromBoundary(log: seq<Entry>, pts: int, k: int, limit: int) returns (n: int)
    requires Gapless(log, pts) && 0 <= k <= |log|
    ensures k <= n <= |log| && Limited(Pending(log, PtsBefore(log, k)), limit) == log[k..n]
    ensures PtsAfter(log[k..n], PtsBefore(log, k)) == PtsBefore(log, n)
  {
    PendingFromBoundary(log, pts, k);
    var page := Limited(log[k..], limit);
    n := k + |page|;
    assert page == log[k..n];
  }

  lemma FetchOnTrack(u: int, x: Scene, limit: int)
    requires OnTrack(u, x)
    ensures OnTrack(u, Scene(x.world, Fetch(x.world, u, limit, x.client)))
  {
    var w := x.world;
    var s, log := SightOf(w, u), Log(w, u);
    var k :| 0 <= k <= |log| && x.client.pts == PtsBefore(log, k) && Synced(s, log, k, x.client.held);
    LogGapless(w, u);
    var n := PageFromBoundary(log, PtsOf(w, u), k, limit);
    WorldReplayable(w, u);
    PageAdvances(s, log, k, n, x.client.held);
  }

  lemma {:induction false} PlayOnTrack(u: int, events: seq<Event>)
    requires Play(u, events).Some?
    ensures OnTrack(u, Play(u, events).value)
  {
    if events == [] {
      InitialInv();
      assert Log(INITIAL, u) == [];
      assert Announced(SightOf(INITIAL, u), []) == {} && DeletedIds([]) == {};
      assert Synced(SightOf(INITIAL, u), Log(INITIAL, u), 0, map[]);
      assert PtsBefore(Log(INITIAL, u), 0) == 0;
    } else {
      var init := events[..|events| - 1];
      PlayOnTrack(u, init);
      match events[|events| - 1]
      case Serve(op) => ServeOnTrack(u, Play(u, init).value, op);
      case Poll(limit) => FetchOnTrack(u, Play(u, init).value, limit);
    }
  }

  /**
   Whatever the interleaving of server operations and (partial) catch-ups: once the client's pts
   is the account's, it holds exactly the local ids 1..lastMessageID the account did not delete
   itself, each with its current view, just as a client that replays the log from the start.
   */
  lemma CatchUpConverges(u: int, events: seq<Event>)
    requires Play(u, events).Some?
    requires Play(u, events).value.client.pts == PtsOf(Play(u, events).value.world, u)
    ensures var x := Play(u, events).value;
            var s := SightOf(x.world, u);
            && x.client.held == Replay(s, Log(x.world, u))
            && (forall l :: l in x.client.held <==> 1 <= l <= |s.box| && l !in DeletedIds(Log(x.world, u)))
            && (forall l | l in x.client.held :: Current(s, l, x.client.held[l]))
  {
    PlayOnTrack(u, events);
    var x := Play(u, events).value;
    var w := x.world;
    var s, log := SightOf(w, u), Log(w, u);
    var k :| 0 <= k <= |log| && x.client.pts == PtsBefore(log, k) && Synced(s, log, k, x.client.held);
    LogGapless(w, u);
    if k < |log| {
      PtsAtEnd(log, PtsOf(w, u), k);
    }
    assert k == |log|;
    WorldReplayable(w, u);
    ReplaySynced(s, log);
    SyncedIsUnique(s, log, x.client.held, Replay(s, log));
    assert log[..|log|] == log && log[|log|..] == [];
    if u in w.accounts {
      AllAnnounced(s, w.accounts[u]);
    } else {
      assert Announced(s, []) == {};
    }
  }

  /** Boundaries before the end lie below the current pts. */
  lemma {:induction false} PtsAtEnd(log: seq<Entry>, pts: int, k: int)
    requires Gapless(log, pts) && 0 <= k < |log|
    ensures PtsBefore(log, k) < pts
    decreases |log| - k
  {
    assert Chained(log, k);
    if k + 1 < |log| {
      PtsAtEnd(log, pts, k + 1);
    }
  }

  lemma {:induction false} NewIdsWhere(log: seq<Entry>, i: int) returns (j: int)
    requires 0 <= i < |NewIds(log)|
    ensures 0 <= j < |log| && log[j].update == New(NewIds(log)[i]) && |NewIds(log[..j])| == i
  {
    var n := |log| - 1;
    if i < |NewIds(log[..n])| {
      j := NewIdsWhere(log[..n], i);
      assert log[..n][..j] == log[..j];
    } else {
      j := n;
    }
  }

  /** The whole log announces exactly the allocated local ids. */
  lemma AllAnnounced(s: Sight, a: Account)
    requires Sound(s) && s.box == a.box && LogOk(a)
    ensures forall l :: l in Announced(s, a.log) <==> 1 <= l <= |a.box|
  {
    assert |Gids(a.box)| == |a.box|;
    forall l ensures l in Announced(s, a.log) <==> 1 <= l <= |a.box| {
      if 1 <= l <= |a.box| {
        var j := NewIdsWhere(a.log, l - 1);
        NewEntryLocal(s, a, j);
        assert a.log[j] in a.log;
      }
      if l in Announced(s, a.log) {
        var e :| e in a.log && e.update.New? && LocalOf(s, e.update.globalId) == l;
        var j :| 0 <= j < |a.log| && a.log[j] == e;
        NewEntryLocal(s, a, j);
        NewIdsAt(a.log, j);
      }
    }
  }

  /** Local id `l` appears in the account's history with some peer. */
  ghost predicate InSomeHistory(s: Sight, l: int) {
    exists peer, v :: v in Conversation(s.messages, s.self, peer, 0, s.box) && v.localId == l
  }

  lemma HistoryIsLive(s: Sight, l: int)
    requires Sound(s)
    ensures InSomeHistory(s, l) <==> 1 <= l <= |s.box| && Live(s.messages, s.box[l - 1])
  {
    if InSomeHistory(s, l) {
      var peer, v :| v in Conversation(s.messages, s.self, peer, 0, s.box) && v.localId == l;
      ListedShows(s.messages, s.self, peer, s.box, v);
    }
    if 1 <= l <= |s.box| && Live(s.messages, s.box[l - 1]) {
      LiveInHistory(s, l);
    }
  }

  lemma LiveInHistory(s: Sight, l: int)
    requires Sound(s) && 1 <= l <= |s.box| && Live(s.messages, s.box[l - 1])
    ensures InSomeHistory(s, l)
  {
    var r := s.box[l - 1];
    var m := MessageAt(s.messages, r.globalId);
    var peer := Other(s.self, m);
    ConversationMembers(s.messages, s.self, peer, 0, s.box);
    assert r in s.box && Listed(s.messages, s.self, peer, 0, r);
    var v := ViewOf(s.self, r, m);
    assert v in Conversation(s.messages, s.self, peer, 0, s.box) && v.localId == l;
  }

  /**
   A converged client holds what its histories list plus exactly the messages only the other side
   deleted: deletion is logged for the deleter alone.
   */
  lemma ReplayExceedsHistory(w: World, u: int, l: int)
    requires Reachable(w) && 1 <= l <= |Box(w, u)|
    ensures var g := Box(w, u)[l - 1].globalId;
            && Known(w.messages, g)
            && (l in Replay(SightOf(w, u), Log(w, u)) <==>
                  InSomeHistory(SightOf(w, u), l)
                  || (DeletedBy(w, Other(u, MessageAt(w.messages, g)), g) && !DeletedBy(w, u, g)))
  {
    ReachableInv(w);
    var s, log := SightOf(w, u), Log(w, u);
    var g := Box(w, u)[l - 1].globalId;
    BoxesOkHere(w, u);
    assert RefOk(w.messages, u, Box(w, u)[l - 1]);
    HistoryIsLive(s, l);
    WorldReplayable(w, u);
    ReplaySynced(s, log);
    assert log[..|log|] == log;
    AllAnnounced(s, w.accounts[u]);
    OwnDeletion(s.box, DeletedIds(log), l);
    var m := MessageAt(w.messages, g);
    assert m.deleted <==> DeletedBy(w, m.from, g) || DeletedBy(w, m.peer, g);
  }

  lemma OwnDeletion(box: seq<Ref>, gone: set<int>, l: int)
    requires Increasing(box) && 1 <= l <= |box|
    ensures GoneFor(box, gone, box[l - 1].globalId) <==> l in gone
  {
    if GoneFor(box, gone, box[l - 1].globalId) {
      var i :| 0 <= i < |box| && box[i].globalId == box[l - 1].globalId && i + 1 in gone;
      assert i == l - 1;
    }
    if l in gone {
      assert box[l - 1].globalId == box[l - 1].globalId && l - 1 + 1 in gone;
    }
  }
}
