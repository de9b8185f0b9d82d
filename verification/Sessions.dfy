/**
 Who a request's auth key stands for: temporary keys, permanent keys and logged-in users over time.

 A temporary key bound to a permanent one stands for it until it expires; the authorization is kept
 on the permanent key. Resolution follows one binding, never a chain.
 */
module Sessions {
  import opened Prelude

  datatype Temp = Temp(perm: int, expiresAt: int)

  datatype State = State(now: int, sessions: map<int, int>, temps: map<int, Temp>)

  datatype Op =
    | LogIn(key: int, user: int)
    | BindTemp(temp: int, perm: int, expiresAt: int)
    | LogOut(key: int)
    | Tick(elapsed: nat)

  predicate LiveTemp(s: State, key: int) {
    key in s.temps && s.temps[key].expiresAt > s.now
  }

  /** The key that holds the authorization of a request's key. */
  function Effective(s: State, key: int): int {
    if LiveTemp(s, key) then s.temps[key].perm else key
  }

  function Resolve(s: State, key: int): Option<int> {
    var e := Effective(s, key);
    if e in s.sessions then Some(s.sessions[e]) else None
  }

  function Step(s: State, op: Op): State {
    match op
    case LogIn(key, user) => s.(sessions := s.sessions[Effective(s, key) := user])
    case BindTemp(temp, perm, expiresAt) => s.(temps := s.temps[temp := Temp(perm, expiresAt)])
    case LogOut(key) => s.(sessions := s.sessions - {Effective(s, key)})
    case Tick(elapsed) => s.(now := s.now + elapsed)
  }

  function Run(s: State, ops: seq<Op>): State {
    if ops == [] then s else Step(Run(s, ops[..|ops| - 1]), ops[|ops| - 1])
  }

  // --- what the tables say about one permanent key --------------------------------------------

  /** The operation logs in or out on permanent key `p`. */
  predicate Touches(s: State, op: Op, p: int) {
    match op
    case LogIn(key, _) => Effective(s, key) == p
    case LogOut(key) => Effective(s, key) == p
    case _ => false
  }

  ghost predicate NeverTouched(s: State, ops: seq<Op>, p: int) {
    forall n | 0 <= n < |ops| :: !Touches(Run(s, ops[..n]), ops[n], p)
  }

  lemma {:induction false} SessionSurvives(s: State, ops: seq<Op>, p: int)
    requires NeverTouched(s, ops, p)
    ensures var t := Run(s, ops);
            (p in t.sessions <==> p in s.sessions) && (p in s.sessions ==> t.sessions[p] == s.sessions[p])
  {
    if ops != [] {
      var n := |ops| - 1;
      assert forall m | 0 <= m < n :: ops[..n][..m] == ops[..m];
      SessionSurvives(s, ops[..n], p);
      assert !Touches(Run(s, ops[..n]), ops[n], p);
    }
  }

  /**
   After a login through any key that stands for `p`, and until the next login or logout on `p`, every
   key that stands for `p` resolves to that user: temporary keys bound before or after the login, for
   as long as they have not expired, and `p` itself unless it is in turn a live temporary key.
   */
  lemma AuthorizationSurvivesRotation(s: State, key: int, user: int, ops: seq<Op>, other: int)
    requires NeverTouched(Step(s, LogIn(key, user)), ops, Effective(s, key))
    requires var t := Run(Step(s, LogIn(key, user)), ops);
             (LiveTemp(t, other) && t.temps[other].perm == Effective(s, key))
                 || (other == Effective(s, key) && !LiveTemp(t, other))
    ensures Resolve(Run(Step(s, LogIn(key, user)), ops), other) == Some(user)
  {
    SessionSurvives(Step(s, LogIn(key, user)), ops, Effective(s, key));
  }

  /** A logout through any key that stands for `p` ends it for all of them, until somebody logs in on `p`. */
  lemma LogoutEndsAll(s: State, key: int, ops: seq<Op>, other: int)
    requires NeverTouched(Step(s, LogOut(key)), ops, Effective(s, key))
    requires Effective(Run(Step(s, LogOut(key)), ops), other) == Effective(s, key)
    ensures Resolve(Run(Step(s, LogOut(key)), ops), other) == None
  {
    SessionSurvives(Step(s, LogOut(key)), ops, Effective(s, key));
  }

  /** A login or logout on one permanent key leaves the others alone. */
  lemma OthersUnaffected(s: State, op: Op, other: int)
    requires op.LogIn? || op.LogOut?
    requires !Touches(s, op, Effective(s, other))
    ensures Resolve(Step(s, op), other) == Resolve(s, other)
  {
    assert Effective(Step(s, op), other) == Effective(s, other);
  }

  /** How far a binding reaches: a temporary key stands for its permanent key exactly until it expires. */
  lemma BindingLastsUntilExpiry(s: State, temp: int, perm: int, expiresAt: int, ops: seq<Op>)
    requires forall n | 0 <= n < |ops| :: !(ops[n].BindTemp? && ops[n].temp == temp)
    ensures var t := Run(Step(s, BindTemp(temp, perm, expiresAt)), ops);
            Effective(t, temp) == if t.now < expiresAt then perm else temp
  {
    BindingKept(Step(s, BindTemp(temp, perm, expiresAt)), ops, temp);
  }

  lemma {:induction false} BindingKept(s: State, ops: seq<Op>, temp: int)
    requires temp in s.temps && forall n | 0 <= n < |ops| :: !(ops[n].BindTemp? && ops[n].temp == temp)
    ensures temp in Run(s, ops).temps && Run(s, ops).temps[temp] == s.temps[temp]
  {
    if ops != [] {
      BindingKept(s, ops[..|ops| - 1], temp);
      assert !(ops[|ops| - 1].BindTemp? && ops[|ops| - 1].temp == temp);
    }
  }

  /** No operation of the run binds `p` as a temporary key. */
  ghost predicate StaysPermanent(ops: seq<Op>, p: int) {
    forall n | 0 <= n < |ops| :: !(ops[n].BindTemp? && ops[n].temp == p)
  }

  lemma {:induction false} NotATemp(s: State, ops: seq<Op>, p: int)
    requires p !in s.temps && StaysPermanent(ops, p)
    ensures p !in Run(s, ops).temps
  {
    if ops != [] {
      NotATemp(s, ops[..|ops| - 1], p);
      assert !(ops[|ops| - 1].BindTemp? && ops[|ops| - 1].temp == p);
    }
  }

  /**
   Over a whole run from the start: when `p` is never bound as a temporary key, a login through a live
   temporary key of `p` makes `p` itself resolve to the user, with no login or logout on `p` since.
   */
  lemma PermanentKeyKeepsAuthorization(before: seq<Op>, temp: int, p: int, user: int, after: seq<Op>, start: int)
    requires StaysPermanent(before, p) && StaysPermanent(after, p)
    requires var s := Run(State(start, map[], map[]), before);
             LiveTemp(s, temp) && s.temps[temp].perm == p && NeverTouched(Step(s, LogIn(temp, user)), after, p)
    ensures Resolve(Run(Step(Run(State(start, map[], map[]), before), LogIn(temp, user)), after), p) == Some(user)
  {
    var s := Run(State(start, map[], map[]), before);
    NotATemp(State(start, map[], map[]), before, p);
    NotATemp(Step(s, LogIn(temp, user)), after, p);
    AuthorizationSurvivesRotation(s, temp, user, after, p);
  }

  /**
   After a login through any key that stands for `p`, and until the next login or logout on `p`, `p` itself
   resolves to the user unless `p` is by then a live temporary key of another key: the guard is
   `LiveTemp(t, p)`. Under it `p` stands for that other key, and resolves to whatever user it has.
   */
  lemma PermanentKeyResolvesIff(s: State, key: int, user: int, ops: seq<Op>)
    requires NeverTouched(Step(s, LogIn(key, user)), ops, Effective(s, key))
    ensures var p, t := Effective(s, key), Run(Step(s, LogIn(key, user)), ops);
            Resolve(t, p) == Some(user) <==>
            !LiveTemp(t, p) || t.temps[p].perm == p
                || (t.temps[p].perm in t.sessions && t.sessions[t.temps[p].perm] == user)
  {
    SessionSurvives(Step(s, LogIn(key, user)), ops, Effective(s, key));
  }

  /** A permanent key bound to another loses its own authorization. */
  lemma BoundPermanentKeyLosesItself(p: int, q: int, user: int)
    requires p != q
    ensures var s := Step(State(0, map[], map[]), LogIn(p, user));
            Resolve(s, p) == Some(user) && Resolve(Step(s, BindTemp(p, q, 1)), p) == None
  {
    var s := Step(State(0, map[], map[]), LogIn(p, user));
    assert s.sessions == map[p := user];
  }

  // --- the tables and handlers ---------------------------------------------------------------------

  class KeyTables {
    var sessions: map<int, int>
    var tempKeys: map<int, Temp>

    ghost function At(now: int): State
      reads this
    {
      State(now, sessions, tempKeys)
    }

    constructor ()
      ensures At(0) == State(0, map[], map[])
    {
      sessions, tempKeys := map[], map[];
    }

    method BindSession(keyId: int, userId: int)
      modifies this`sessions
      ensures sessions == old(sessions)[keyId := userId]
    {
      sessions := sessions[keyId := userId];
    }

    method SessionUserId(keyId: int) returns (userId: Option<int>)
      ensures userId == if keyId in sessions then Some(sessions[keyId]) else None
    {
      if keyId !in sessions {
        return None;
      }
      return Some(sessions[keyId]);
    }

    method Unbind(keyId: int)
      modifies this`sessions
      ensures sessions == old(sessions) - {keyId}
    {
      sessions := sessions - {keyId};
    }

    method PermAuthKey(tempKeyId: int, now: int) returns (perm: Option<int>)
      ensures perm == if LiveTemp(At(now), tempKeyId) then Some(tempKeys[tempKeyId].perm) else None
    {
      if tempKeyId !in tempKeys || tempKeys[tempKeyId].expiresAt <= now {
        return None;
      }
      return Some(tempKeys[tempKeyId].perm);
    }

    method EffectiveKeyId(keyId: int, now: int) returns (effective: int)
      ensures effective == Effective(At(now), keyId)
    {
      var perm := PermAuthKey(keyId, now);
      effective := if perm.Some? then perm.value else keyId;
    }

    /** The user the key resolves to, when a record of that user is stored. */
    method CallerUser(keyId: int, now: int, stored: set<int>) returns (userId: Option<int>)
      ensures userId == match Resolve(At(now), keyId)
        case Some(u) => (if u in stored then Some(u) else None)
        case None => None
    {
      var effective := EffectiveKeyId(keyId, now);
      userId := SessionUserId(effective);
      if userId.Some? && userId.value !in stored {
        userId := None;
      }
    }

    method BindCaller(keyId: int, userId: int, now: int)
      modifies this`sessions
      ensures At(now) == Step(old(At(now)), LogIn(keyId, userId))
    {
      var effective := EffectiveKeyId(keyId, now);
      BindSession(effective, userId);
    }

    method BindTempAuthKey(tempKeyId: int, permKeyId: int, expiresAt: int, ghost now: int)
      modifies this`tempKeys
      ensures At(now) == Step(old(At(now)), BindTemp(tempKeyId, permKeyId, expiresAt))
    {
      tempKeys := tempKeys[tempKeyId := Temp(permKeyId, expiresAt)];
    }

    method AuthLogOut(keyId: int, now: int)
      modifies this`sessions
      ensures At(now) == Step(old(At(now)), LogOut(keyId))
    {
      var effective := EffectiveKeyId(keyId, now);
      Unbind(effective);
    }
  }
}
