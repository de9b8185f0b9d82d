/**
 The auth-key cache beside a durable key storage, under interleaving.

 A call of `addSession` caches the key in one lock region and saves it afterwards; a call of
 `getSession` looks in the cache, then asks the storage, then caches what it found. Each lock region
 and each storage call is one step; steps of different calls interleave in any order, storage calls
 may fail, and a restart empties the cache and drops the running calls. A key's value is determined
 by its id: `values` gives it.
 */
module KeyCache {
  import opened Prelude

  datatype Key = Key(id: int, value: int)

  /** A running call, between its steps; `wasStored` notes whether the id was in storage when a lookup began. */
  datatype Call =
    | Adding(key: Key)
    | Missed(id: int, wasStored: bool)
    | Loaded(id: int, key: Key, wasStored: bool)

  datatype Answer = Found(key: Key) | Absent | Failed

  datatype Answered = Answered(id: int, wasStored: bool, answer: Answer)

  /** `unsaved` notes the ids whose save reported an error since the last restart. */
  datatype State = State(cache: map<int, Key>, storage: map<int, Key>, calls: map<int, Call>, unsaved: set<int>,
                         answers: seq<Answered>)

  datatype Action =
    | BeginAdd(call: int, key: Key)
    | SaveOk(call: int)
    | SaveFails(call: int, kept: bool)
    | BeginGet(call: int, id: int)
    | LoadOk(call: int)
    | LoadFails(call: int)
    | Publish(call: int)
    | Restart

  function Without(calls: map<int, Call>, call: int): map<int, Call> {
    calls - {call}
  }

  /** The one key an id stands for. */
  predicate Genuine(values: map<int, int>, key: Key, id: int) {
    id in values && key == Key(id, values[id])
  }

  predicate Enabled(values: map<int, int>, s: State, a: Action) {
    match a
    case BeginAdd(call, key) => call !in s.calls && Genuine(values, key, key.id)
    case SaveOk(call) => call in s.calls && s.calls[call].Adding?
    case SaveFails(call, _) => call in s.calls && s.calls[call].Adding?
    case BeginGet(call, _) => call !in s.calls
    case LoadOk(call) => call in s.calls && s.calls[call].Missed?
    case LoadFails(call) => call in s.calls && s.calls[call].Missed?
    case Publish(call) => call in s.calls && s.calls[call].Loaded?
    case Restart => true
  }

  function Step(values: map<int, int>, s: State, a: Action): State
    requires Enabled(values, s, a)
  {
    match a
    case BeginAdd(call, key) => s.(cache := s.cache[key.id := key], calls := s.calls[call := Adding(key)])
    case SaveOk(call) =>
      var key := s.calls[call].key;
      s.(storage := s.storage[key.id := key], calls := Without(s.calls, call))
    case SaveFails(call, kept) =>
      var key := s.calls[call].key;
      s.(storage := if kept then s.storage[key.id := key] else s.storage,
         calls := Without(s.calls, call), unsaved := s.unsaved + {key.id})
    case BeginGet(call, id) =>
      if id in s.cache then s.(answers := s.answers + [Answered(id, id in s.storage, Found(s.cache[id]))])
      else s.(calls := s.calls[call := Missed(id, id in s.storage)])
    case LoadOk(call) =>
      var id := s.calls[call].id;
      if id in s.storage then s.(calls := s.calls[call := Loaded(id, s.storage[id], s.calls[call].wasStored)])
      else s.(calls := Without(s.calls, call), answers := s.answers + [Answered(id, s.calls[call].wasStored, Absent)])
    case LoadFails(call) =>
      s.(calls := Without(s.calls, call),
         answers := s.answers + [Answered(s.calls[call].id, s.calls[call].wasStored, Failed)])
    case Publish(call) =>
      var id, key := s.calls[call].id, s.calls[call].key;
      s.(cache := s.cache[id := key], calls := Without(s.calls, call),
         answers := s.answers + [Answered(id, s.calls[call].wasStored, Found(key))])
    case Restart => s.(cache := map[], calls := map[], unsaved := {})
  }

  function Start(storage: map<int, Key>): State {
    State(map[], storage, map[], {}, [])
  }

  function Run(values: map<int, int>, s: State, actions: seq<Action>): Option<State> {
    if actions == [] then Some(s)
    else
      match Run(values, s, actions[..|actions| - 1])
      case None => None
      case Some(v) =>
        if Enabled(values, v, actions[|actions| - 1]) then Some(Step(values, v, actions[|actions| - 1])) else None
  }

  // --- the invariant ----------------------------------------------------------------------

  ghost predicate GenuineKeys(values: map<int, int>, keys: map<int, Key>) {
    forall id | id in keys :: Genuine(values, keys[id], id)
  }

  /** A call of addSession has cached the key and not yet saved it. */
  ghost predicate Pending(s: State, id: int) {
    exists call :: call in s.calls && s.calls[call].Adding? && s.calls[call].key.id == id
  }

  ghost predicate CallOk(values: map<int, int>, s: State, c: Call) {
    match c
    case Adding(key) => Genuine(values, key, key.id) && key.id in s.cache
    case Missed(id, wasStored) => wasStored ==> id in s.storage
    case Loaded(id, key, _) => Genuine(values, key, id) && id in s.storage
  }

  ghost predicate AnswerOk(values: map<int, int>, a: Answered) {
    && (a.answer.Found? ==> Genuine(values, a.answer.key, a.id))
    && (a.wasStored ==> a.answer != Absent)
  }

  ghost predicate Inv(values: map<int, int>, s: State) {
    && GenuineKeys(values, s.cache)
    && GenuineKeys(values, s.storage)
    && (forall call | call in s.calls :: CallOk(values, s, s.calls[call]))
    && (forall id | id in s.cache :: id in s.storage || id in s.unsaved || Pending(s, id))
    && s.unsaved <= s.cache.Keys
    && (forall i | 0 <= i < |s.answers| :: AnswerOk(values, s.answers[i]))
  }

  lemma PendingKept(s: State, t: State, id: int)
    requires Pending(s, id)
    requires forall call | call in s.calls && s.calls[call].Adding? && s.calls[call].key.id == id ::
               call in t.calls && t.calls[call] == s.calls[call]
    ensures Pending(t, id)
  {
    var call :| call in s.calls && s.calls[call].Adding? && s.calls[call].key.id == id;
    assert t.calls[call].Adding?;
  }

  lemma StepInv(values: map<int, int>, s: State, a: Action)
    requires Inv(values, s) && Enabled(values, s, a)
    ensures Inv(values, Step(values, s, a))
    ensures s.storage.Keys <= Step(values, s, a).storage.Keys
  {
    var t := Step(values, s, a);
    forall id | id in t.cache ensures id in t.storage || id in t.unsaved || Pending(t, id) {
      if a.BeginAdd? && id == a.key.id {
        assert t.calls[a.call].Adding?;
      } else if id in s.cache && id !in t.storage && id !in t.unsaved {
        PendingKept(s, t, id);
      }
    }
    forall call | call in t.calls ensures CallOk(values, t, t.calls[call]) {
      assert !a.BeginAdd? && !a.BeginGet? && !a.LoadOk? ==> call in s.calls && t.calls[call] == s.calls[call];
      assert call in s.calls ==> CallOk(values, s, s.calls[call]);
    }
  }

  lemma {:induction false} RunInv(values: map<int, int>, s: State, actions: seq<Action>)
    requires Inv(values, s) && Run(values, s, actions).Some?
    ensures Inv(values, Run(values, s, actions).value)
    ensures s.storage.Keys <= Run(values, s, actions).value.storage.Keys
  {
    if actions != [] {
      var init := actions[..|actions| - 1];
      RunInv(values, s, init);
      StepInv(values, Run(values, s, init).value, actions[|actions| - 1]);
    }
  }

  // --- what follows --------------------------------------------------------------------------

  /** The state before action `n` of a run. */
  function At(values: map<int, int>, storage: map<int, Key>, actions: seq<Action>, n: nat): Option<State>
    requires n <= |actions|
  {
    Run(values, Start(storage), actions[..n])
  }

  /** The id whose key the call of an action is adding in state `s`. */
  predicate AddsId(s: Option<State>, call: int, id: int) {
    s.Some? && call in s.value.calls && s.value.calls[call].Adding? && s.value.calls[call].key.id == id
  }

  /** Action `n` left the key of `id` in storage. */
  predicate Keeps(values: map<int, int>, storage: map<int, Key>, actions: seq<Action>, n: int, id: int) {
    && 0 <= n < |actions|
    && match actions[n]
       case SaveOk(call) => AddsId(At(values, storage, actions, n), call, id)
       case SaveFails(call, kept) => kept && AddsId(At(values, storage, actions, n), call, id)
       case _ => false
  }

  ghost predicate EverKept(values: map<int, int>, storage: map<int, Key>, actions: seq<Action>, id: int) {
    exists n :: Keeps(values, storage, actions, n, id)
  }

  /** Action `n` reported that saving the key of `id` failed. */
  predicate Fails(values: map<int, int>, storage: map<int, Key>, actions: seq<Action>, n: int, id: int) {
    0 <= n < |actions| && actions[n].SaveFails? && AddsId(At(values, storage, actions, n), actions[n].call, id)
  }

  predicate NoRestartAfter(actions: seq<Action>, n: int) {
    forall k | n < k < |actions| && k >= 0 :: !actions[k].Restart?
  }

  ghost predicate FailedSinceRestart(values: map<int, int>, storage: map<int, Key>, actions: seq<Action>, id: int) {
    exists n :: Fails(values, storage, actions, n, id) && NoRestartAfter(actions, n)
  }

  /** The call has not finished: neither saved nor dropped by a restart after action `n`. */
  predicate OpenSince(actions: seq<Action>, n: int, call: int) {
    forall k | n < k < |actions| && k >= 0 ::
      !actions[k].Restart? && !(actions[k].SaveOk? && actions[k].call == call)
          && !(actions[k].SaveFails? && actions[k].call == call)
  }

  predicate Begins(actions: seq<Action>, n: int, id: int) {
    0 <= n < |actions| && actions[n].BeginAdd? && actions[n].key.id == id
  }

  /** Some addSession of the id has begun and not finished. */
  ghost predicate OpenAdd(actions: seq<Action>, id: int) {
    exists n :: Begins(actions, n, id) && OpenSince(actions, n, actions[n].call)
  }

  lemma KeepsPrefix(values: map<int, int>, storage: map<int, Key>, init: seq<Action>, a: Action, id: int)
    ensures EverKept(values, storage, init + [a], id) <==>
            EverKept(values, storage, init, id) || Keeps(values, storage, init + [a], |init|, id)
  {
    var all := init + [a];
    forall n | 0 <= n < |init| ensures Keeps(values, storage, all, n, id) <==> Keeps(values, storage, init, n, id) {
      assert all[..n] == init[..n];
    }
    if EverKept(values, storage, init, id) {
      var n :| Keeps(values, storage, init, n, id);
      assert Keeps(values, storage, all, n, id);
    }
  }

  lemma FailsPrefix(values: map<int, int>, storage: map<int, Key>, init: seq<Action>, a: Action, id: int)
    ensures FailedSinceRestart(values, storage, init + [a], id) <==>
            (FailedSinceRestart(values, storage, init, id) && !a.Restart?)
                || Fails(values, storage, init + [a], |init|, id)
  {
    var all := init + [a];
    forall n | 0 <= n < |init|
      ensures Fails(values, storage, all, n, id) <==> Fails(values, storage, init, n, id)
      ensures NoRestartAfter(all, n) <==> NoRestartAfter(init, n) && !a.Restart?
    {
      assert all[..n] == init[..n];
      assert all[|init|] == a && forall k | 0 <= k < |init| :: all[k] == init[k];
    }
    if FailedSinceRestart(values, storage, init, id) && !a.Restart? {
      var n :| Fails(values, storage, init, n, id) && NoRestartAfter(init, n);
      assert Fails(values, storage, all, n, id) && NoRestartAfter(all, n);
    }
    if Fails(values, storage, all, |init|, id) {
      assert NoRestartAfter(all, |init|);
    }
  }

  /** Storage holds what it held at the start and what some save kept. */
  lemma {:induction false} StoredIff(values: map<int, int>, storage: map<int, Key>, actions: seq<Action>, id: int)
    requires Run(values, Start(storage), actions).Some?
    ensures id in Run(values, Start(storage), actions).value.storage <==>
            id in storage || EverKept(values, storage, actions, id)
  {
    if actions != [] {
      var init, a := actions[..|actions| - 1], actions[|actions| - 1];
      assert actions == init + [a] && (init + [a])[..|init|] == init;
      StoredIff(values, storage, init, id);
      KeepsPrefix(values, storage, init, a, id);
    }
  }

  /** What the state notes as unsaved is what failed since the last restart. */
  lemma {:induction false} UnsavedIff(values: map<int, int>, storage: map<int, Key>, actions: seq<Action>, id: int)
    requires Run(values, Start(storage), actions).Some?
    ensures id in Run(values, Start(storage), actions).value.unsaved
        <==> FailedSinceRestart(values, storage, actions, id)
  {
    if actions != [] {
      var init, a := actions[..|actions| - 1], actions[|actions| - 1];
      assert actions == init + [a] && (init + [a])[..|init|] == init;
      UnsavedIff(values, storage, init, id);
      FailsPrefix(values, storage, init, a, id);
    }
  }

  /** Action `n` put the key of `id` into the cache: it began an add, or published what a lookup found. */
  predicate Caches(values: map<int, int>, storage: map<int, Key>, actions: seq<Action>, n: int, id: int) {
    && 0 <= n < |actions|
    && match actions[n]
       case BeginAdd(_, key) => key.id == id
       case Publish(call) => PublishesId(At(values, storage, actions, n), call, id)
       case _ => false
  }

  /** The id whose key the call has loaded in state `s`. */
  predicate PublishesId(s: Option<State>, call: int, id: int) {
    s.Some? && call in s.value.calls && s.value.calls[call].Loaded? && s.value.calls[call].id == id
  }

  ghost predicate CachedSinceRestart(values: map<int, int>, storage: map<int, Key>, actions: seq<Action>, id: int) {
    exists n :: Caches(values, storage, actions, n, id) && NoRestartAfter(actions, n)
  }

  lemma CachesPrefix(values: map<int, int>, storage: map<int, Key>, init: seq<Action>, a: Action, id: int)
    ensures CachedSinceRestart(values, storage, init + [a], id) <==>
            (CachedSinceRestart(values, storage, init, id) && !a.Restart?)
                || Caches(values, storage, init + [a], |init|, id)
  {
    var all := init + [a];
    forall n | 0 <= n < |init|
      ensures Caches(values, storage, all, n, id) <==> Caches(values, storage, init, n, id)
      ensures NoRestartAfter(all, n) <==> NoRestartAfter(init, n) && !a.Restart?
    {
      assert all[..n] == init[..n];
      assert all[|init|] == a && forall k | 0 <= k < |init| :: all[k] == init[k];
    }
    if CachedSinceRestart(values, storage, init, id) && !a.Restart? {
      var n :| Caches(values, storage, init, n, id) && NoRestartAfter(init, n);
      assert Caches(values, storage, all, n, id) && NoRestartAfter(all, n);
    }
    if Caches(values, storage, all, |init|, id) {
      assert NoRestartAfter(all, |init|);
    }
  }

  /** The cache holds exactly the keys added, or found in storage by a lookup, since the last restart. */
  lemma {:induction false} CachedIff(values: map<int, int>, storage: map<int, Key>, actions: seq<Action>, id: int)
    requires Run(values, Start(storage), actions).Some?
    ensures id in Run(values, Start(storage), actions).value.cache <==> CachedSinceRestart(values, storage, actions, id)
  {
    if actions != [] {
      var init, a := actions[..|actions| - 1], actions[|actions| - 1];
      assert actions == init + [a] && (init + [a])[..|init|] == init;
      CachedIff(values, storage, init, id);
      CachesPrefix(values, storage, init, a, id);
    }
  }

  /** The running adds are those that began and have not finished. */
  lemma {:induction false} OpenIff(values: map<int, int>, storage: map<int, Key>, actions: seq<Action>, call: int,
      id: int)
    requires Run(values, Start(storage), actions).Some?
    ensures AddsId(Run(values, Start(storage), actions), call, id) <==>
            exists n :: Begins(actions, n, id) && actions[n].call == call && OpenSince(actions, n, call)
  {
    if actions != [] {
      var init, a := actions[..|actions| - 1], actions[|actions| - 1];
      assert actions == init + [a] && actions[|init|] == a;
      assert forall k | 0 <= k < |init| :: actions[k] == init[k];
      OpenIff(values, storage, init, call, id);
    }
  }

  lemma PendingIff(values: map<int, int>, storage: map<int, Key>, actions: seq<Action>, id: int)
    requires Run(values, Start(storage), actions).Some?
    ensures Pending(Run(values, Start(storage), actions).value, id) <==> OpenAdd(actions, id)
  {
    var s := Run(values, Start(storage), actions);
    if Pending(s.value, id) {
      var call :| call in s.value.calls && s.value.calls[call].Adding? && s.value.calls[call].key.id == id;
      assert AddsId(s, call, id);
      OpenIff(values, storage, actions, call, id);
    }
    if OpenAdd(actions, id) {
      var n :| Begins(actions, n, id) && OpenSince(actions, n, actions[n].call);
      OpenIff(values, storage, actions, actions[n].call, id);
      assert AddsId(s, actions[n].call, id);
    }
  }

  /** A cached key that is not in storage and that no running call is about to save. */
  ghost predicate Lost(s: State, id: int) {
    id in s.cache && id !in s.storage && !Pending(s, id)
  }

  /**
   Over every run, a cached key is in storage or about to be saved, except exactly when a save of it
   failed since the last restart, it was not in storage at the start, no save of the run kept it, and
   no add of it is still open.
   */
  lemma CachedKeysAreDurable(values: map<int, int>, storage: map<int, Key>, actions: seq<Action>, id: int)
    requires GenuineKeys(values, storage) && Run(values, Start(storage), actions).Some?
    ensures Lost(Run(values, Start(storage), actions).value, id) <==>
            && FailedSinceRestart(values, storage, actions, id)
            && id !in storage && !EverKept(values, storage, actions, id)
            && !OpenAdd(actions, id)
  {
    RunInv(values, Start(storage), actions);
    StoredIff(values, storage, actions, id);
    UnsavedIff(values, storage, actions, id);
    PendingIff(values, storage, actions, id);
  }

  /** Without failing saves nothing is ever noted as unsaved, so every cached key is stored or pending. */
  lemma {:induction false} NoFailureNoLoss(values: map<int, int>, storage: map<int, Key>, actions: seq<Action>)
    requires GenuineKeys(values, storage) && Run(values, Start(storage), actions).Some?
    requires forall k | 0 <= k < |actions| :: !actions[k].SaveFails?
    ensures var s := Run(values, Start(storage), actions).value;
            s.unsaved == {} && forall id | id in s.cache :: id in s.storage || Pending(s, id)
  {
    RunInv(values, Start(storage), actions);
    if actions != [] {
      NoFailureNoLoss(values, storage, actions[..|actions| - 1]);
    }
  }

  /**
   Every answer in every run carries the one genuine key of its id, and an id that was in storage
   when the lookup began is never answered as absent, whatever else was going on.
   */
  lemma AnswersAgreeWithStorage(values: map<int, int>, storage: map<int, Key>, actions: seq<Action>, i: nat)
    requires GenuineKeys(values, storage) && Run(values, Start(storage), actions).Some?
    requires i < |Run(values, Start(storage), actions).value.answers|
    ensures var s := Run(values, Start(storage), actions).value;
            var a := s.answers[i];
            && (a.wasStored ==> a.answer.Found? || a.answer.Failed?)
            && (a.answer.Found? && a.id in s.storage ==> a.answer.key == s.storage[a.id])
  {
    RunInv(values, Start(storage), actions);
    assert AnswerOk(values, Run(values, Start(storage), actions).value.answers[i]);
  }

  /** From the moment a save succeeds, the id is in storage for good: later lookups count as `wasStored`. */
  lemma SavedStaysStored(values: map<int, int>, storage: map<int, Key>, actions: seq<Action>, more: seq<Action>,
      call: int)
    requires GenuineKeys(values, storage)
    requires Run(values, Start(storage), actions).Some?
    requires var s := Run(values, Start(storage), actions).value;
             Enabled(values, s, SaveOk(call)) && Run(values, Step(values, s, SaveOk(call)), more).Some?
    ensures var s := Run(values, Start(storage), actions).value;
            var key := s.calls[call].key;
            var t := Run(values, Step(values, s, SaveOk(call)), more).value;
            key.id in t.storage && t.storage[key.id] == key
  {
    var s := Run(values, Start(storage), actions).value;
    RunInv(values, Start(storage), actions);
    StepInv(values, s, SaveOk(call));
    assert CallOk(values, s, s.calls[call]);
    RunInv(values, Step(values, s, SaveOk(call)), more);
  }

  /** A key whose save failed is answered until the restart and unknown after it. */
  lemma FailedSaveIsForgotten(values: map<int, int>, id: int)
    requires id in values
    ensures var key := Key(id, values[id]);
            var run := Run(values, Start(map[]),
                           [BeginAdd(1, key), SaveFails(1, false), BeginGet(2, id), Restart, BeginGet(3, id),
                               LoadOk(3)]);
            run.Some? && run.value.answers == [Answered(id, false, Found(key)), Answered(id, false, Absent)]
  {
    var key := Key(id, values[id]);
    var actions := [BeginAdd(1, key), SaveFails(1, false), BeginGet(2, id), Restart, BeginGet(3, id), LoadOk(3)];
    assert actions[..5][..4] == actions[..4] && actions[..4][..3] == actions[..3];
    assert actions[..3][..2] == actions[..2] && actions[..2][..1] == actions[..1] && actions[..1][..0] == [];
    var s1 := Step(values, Start(map[]), actions[0]);
    assert Run(values, Start(map[]), actions[..0]) == Some(Start(map[]));
    assert Run(values, Start(map[]), actions[..1]) == Some(s1);
    var s2 := Step(values, s1, actions[1]);
    assert Run(values, Start(map[]), actions[..2]) == Some(s2);
    var s3 := Step(values, s2, actions[2]);
    assert Run(values, Start(map[]), actions[..3]) == Some(s3);
    var s4 := Step(values, s3, actions[3]);
    assert Run(values, Start(map[]), actions[..4]) == Some(s4);
    var s5 := Step(values, s4, actions[4]);
    assert Run(values, Start(map[]), actions[..5]) == Some(s5);
    assert actions == actions[..5] + [actions[5]];
  }

  /** All steps of one lookup with no other call running; `fails` tells whether the storage does. */
  function Lookup(values: map<int, int>, s: State, id: int, fails: bool): State
    requires s.calls == map[]
  {
    var begun := Step(values, s, BeginGet(0, id));
    if id in s.cache then begun
    else if fails then Step(values, begun, LoadFails(0))
    else
      var loaded := Step(values, begun, LoadOk(0));
      if id in s.storage then
        assert loaded.calls[0].Loaded?;
        Step(values, loaded, Publish(0))
      else loaded
  }

  // --- the registry itself -----------------------------------------------------------------

  class KeyRegistry {
    var cache: map<int, Key>
    var storage: map<int, Key>

    /** The state with no call running. */
    ghost function Idle(): State
      reads this
    {
      State(cache, storage, map[], {}, [])
    }

    constructor (storage: map<int, Key>)
      ensures Idle() == Start(storage)
    {
      cache, this.storage := map[], storage;
    }

    /** An undisturbed addSession is its two steps. */
    method AddSession(key: Key, fails: bool, kept: bool, ghost values: map<int, int>) returns (ok: bool)
      requires Genuine(values, key, key.id)
      modifies this
      ensures ok == !fails
      ensures var begun := Step(values, old(Idle()), BeginAdd(0, key));
              var done := Step(values, begun, if fails then SaveFails(0, kept) else SaveOk(0));
              Idle() == done.(unsaved := {})
    {
      cache := cache[key.id := key];
      ok := Save(key, fails, kept);
    }

    method Save(key: Key, fails: bool, kept: bool) returns (ok: bool)
      modifies this`storage
      ensures ok == !fails
      ensures storage == if !fails || kept then old(storage)[key.id := key] else old(storage)
    {
      if !fails || kept {
        storage := storage[key.id := key];
      }
      ok := !fails;
    }

    /** An undisturbed getSession is its steps: the cache, else the storage, and what it found is cached. */
    method GetSession(id: int, fails: bool, ghost values: map<int, int>) returns (answer: Answer)
      modifies this`cache
      ensures var done := Lookup(values, old(Idle()), id, fails);
              && Idle() == done.(answers := []) && done.answers == [Answered(id, id in storage, answer)]
      ensures answer == if id in old(cache) then Found(old(cache)[id])
                        else if fails then Failed
                        else if id in storage then Found(storage[id]) else Absent
      ensures cache == if answer.Found? then old(cache)[id := answer.key] else old(cache)
    {
      if id in cache {
        assert cache == cache[id := cache[id]];
        return Found(cache[id]);
      }
      if fails {
        return Failed;
      }
      if id !in storage {
        return Absent;
      }
      cache := cache[id := storage[id]];
      return Found(storage[id]);
    }
  }
}
