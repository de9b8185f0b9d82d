/**
 Live connections per session, and when a session is told that it was created.

 Handling a message takes two steps: `createConnection` finds or makes the session's entry, and
 `sentCreated` swaps the entry's flag; the session is announced when the swap finds the flag clear.
 Steps of different messages interleave, also with disconnects and deletions. Entries are numbered
 in the order they are made, so a number stands for one uninterrupted stay of a session.
 */
module Connections {
  import opened Prelude

  datatype Entry = Entry(transport: int, sent: bool)

  /** `conns` maps sessions to entry numbers; `calls` maps messages being handled to theirs. */
  datatype State = State(conns: map<int, int>, entries: seq<Entry>, calls: map<int, int>)

  datatype Event =
    | Arrive(call: int, session: int, transport: int)
    | Swap(call: int)
    | Disconnect(transport: int)
    | Remove(session: int)

  const EMPTY := State(map[], [], map[])

  predicate Backed(s: State, session: int, transport: int) {
    session in s.conns && 0 <= s.conns[session] < |s.entries| && s.entries[s.conns[session]].transport == transport
  }

  /** Reuse the session's entry when the same transport backs it, else replace it by a new one. */
  function Connect(s: State, session: int, transport: int): State {
    if Backed(s, session, transport) then s
    else s.(conns := s.conns[session := |s.entries|], entries := s.entries + [Entry(transport, false)])
  }

  function Drop(s: State, transport: int): State {
    s.(conns := map k | k in s.conns && !Backed(s, k, transport) :: s.conns[k])
  }

  predicate Enabled(s: State, e: Event) {
    match e
    case Arrive(call, _, _) => call !in s.calls
    case Swap(call) => call in s.calls && 0 <= s.calls[call] < |s.entries|
    case Disconnect(_) => true
    case Remove(_) => true
  }

  function Step(s: State, e: Event): State
    requires Enabled(s, e)
  {
    match e
    case Arrive(call, session, transport) =>
      var t := Connect(s, session, transport);
      if session in t.conns then t.(calls := t.calls[call := t.conns[session]]) else t
    case Swap(call) =>
      var k := s.calls[call];
      s.(entries := s.entries[k := s.entries[k].(sent := true)], calls := s.calls - {call})
    case Disconnect(transport) => Drop(s, transport)
    case Remove(session) => s.(conns := s.conns - {session})
  }

  function After(events: seq<Event>): Option<State> {
    if events == [] then Some(EMPTY)
    else
      match After(events[..|events| - 1])
      case None => None
      case Some(s) => if Enabled(s, events[|events| - 1]) then Some(Step(s, events[|events| - 1])) else None
  }

  ghost predicate Trace(events: seq<Event>) {
    After(events).Some?
  }

  /** The state before event `n`. */
  function Before(events: seq<Event>, n: nat): State
    requires n <= |events| && Trace(events[..n])
  {
    After(events[..n]).value
  }

  lemma {:induction false} TracePrefix(events: seq<Event>, n: nat)
    requires Trace(events) && n <= |events|
    ensures Trace(events[..n])
    decreases |events|
  {
    if n == |events| {
      assert events[..n] == events;
    } else {
      TracePrefix(events[..|events| - 1], n);
      assert events[..|events| - 1][..n] == events[..n];
    }
  }

  /** The step event `n` makes. */
  lemma StepAt(events: seq<Event>, n: nat)
    requires Trace(events) && n < |events|
    ensures Trace(events[..n]) && Trace(events[..n + 1])
    ensures Enabled(Before(events, n), events[n])
    ensures Before(events, n + 1) == Step(Before(events, n), events[n])
  {
    TracePrefix(events, n);
    TracePrefix(events, n + 1);
    assert events[..n + 1][..n] == events[..n];
  }

  // --- the invariant -----------------------------------------------------------------------

  /** Sessions refer to existing entries, and no two sessions share one. */
  ghost predicate Inv(s: State) {
    && (forall k | k in s.conns :: 0 <= s.conns[k] < |s.entries|)
    && (forall j, k | j in s.conns && k in s.conns && s.conns[j] == s.conns[k] :: j == k)
    && (forall c | c in s.calls :: 0 <= s.calls[c] < |s.entries|)
  }

  lemma StepInv(s: State, e: Event)
    requires Inv(s) && Enabled(s, e)
    ensures Inv(Step(s, e))
    ensures var t := Step(s, e);
            |s.entries| <= |t.entries|
            && (forall k | 0 <= k < |s.entries| :: t.entries[k].transport == s.entries[k].transport)
            && (forall k | 0 <= k < |s.entries| && s.entries[k].sent :: t.entries[k].sent)
  {
  }

  lemma {:induction false} TraceInv(events: seq<Event>)
    requires Trace(events)
    ensures Inv(After(events).value)
  {
    if events != [] {
      var init := events[..|events| - 1];
      TraceInv(init);
      StepInv(After(init).value, events[|events| - 1]);
    }
  }

  // --- stays ---------------------------------------------------------------------------------

  /** The entry the message arriving at event `i` is handled with. */
  function StayOf(events: seq<Event>, i: nat): int
    requires Trace(events) && i < |events| && events[i].Arrive?
  {
    TracePrefix(events, i + 1);
    var s := Before(events, i + 1);
    if events[i].session in s.conns then s.conns[events[i].session] else -1
  }

  /** The event ends the stay of the session on the transport. */
  predicate Interrupts(e: Event, session: int, transport: int) {
    match e
    case Arrive(_, s, t) => s == session && t != transport
    case Swap(_) => false
    case Disconnect(t) => t == transport
    case Remove(s) => s == session
  }

  ghost predicate Uninterrupted(events: seq<Event>, i: nat, j: nat, session: int, transport: int)
    requires i <= j <= |events|
  {
    forall n | i <= n < j :: !Interrupts(events[n], session, transport)
  }

  /** While nothing interrupts it, a stay goes on; afterwards its number never comes back. */
  lemma KeepsStay(s: State, e: Event, session: int, k: int)
    requires Inv(s) && Enabled(s, e) && 0 <= k < |s.entries|
    ensures var t := Step(s, e);
            && (Holds(s, session, k) ==> (Holds(t, session, k) <==> !Interrupts(e, session, s.entries[k].transport)))
            && (!Holds(s, session, k) ==> !Holds(t, session, k))
  {
  }

  predicate Holds(s: State, session: int, k: int) {
    session in s.conns && s.conns[session] == k
  }

  lemma {:induction false} EntriesStay(events: seq<Event>, i: nat, j: nat, k: int)
    requires Trace(events) && i <= j <= |events| && Trace(events[..i]) && Trace(events[..j])
    requires 0 <= k < |Before(events, i).entries|
    ensures k < |Before(events, j).entries|
    ensures Before(events, j).entries[k].transport == Before(events, i).entries[k].transport
    decreases j
  {
    if i < j {
      StepAt(events, j - 1);
      EntriesStay(events, i, j - 1, k);
      TraceInv(events[..j - 1]);
      StepInv(Before(events, j - 1), events[j - 1]);
    }
  }

  /** A session that does not hold an existing entry never will. */
  lemma {:induction false} NeverReturns(events: seq<Event>, i: nat, j: nat, session: int, k: int)
    requires Trace(events) && i <= j <= |events| && Trace(events[..i]) && Trace(events[..j])
    requires 0 <= k < |Before(events, i).entries| && !Holds(Before(events, i), session, k)
    ensures !Holds(Before(events, j), session, k)
    decreases j
  {
    if i < j {
      StepAt(events, j - 1);
      NeverReturns(events, i, j - 1, session, k);
      TraceInv(events[..j - 1]);
      EntriesStay(events, i, j - 1, k);
      KeepsStay(Before(events, j - 1), events[j - 1], session, k);
    }
  }

  lemma {:induction false} StayLasts(events: seq<Event>, i: nat, j: nat, session: int, k: int, transport: int)
    requires Trace(events) && i <= j <= |events| && Trace(events[..i]) && Trace(events[..j])
    requires var s := Before(events, i);
             Holds(s, session, k) && 0 <= k < |s.entries| && s.entries[k].transport == transport
    ensures Holds(Before(events, j), session, k) <==> Uninterrupted(events, i, j, session, transport)
    decreases j
  {
    if i < j {
      StepAt(events, j - 1);
      StayLasts(events, i, j - 1, session, k, transport);
      StayStepAt(events, i, j, session, k, transport);
      OneMoreEvent(events, i, j, session, transport);
    }
  }

  lemma StayStepAt(events: seq<Event>, i: nat, j: nat, session: int, k: int, transport: int)
    requires Trace(events) && i < j <= |events| && Trace(events[..i]) && Trace(events[..j])
    requires var s := Before(events, i); 0 <= k < |s.entries| && s.entries[k].transport == transport
    ensures Trace(events[..j - 1])
    ensures Holds(Before(events, j), session, k) <==>
            Holds(Before(events, j - 1), session, k) && !Interrupts(events[j - 1], session, transport)
  {
    StepAt(events, j - 1);
    TraceInv(events[..j - 1]);
    EntriesStay(events, i, j - 1, k);
    StayStep(Before(events, j - 1), events[j - 1], session, k, transport);
  }

  lemma StayStep(s: State, e: Event, session: int, k: int, transport: int)
    requires Inv(s) && Enabled(s, e) && 0 <= k < |s.entries| && s.entries[k].transport == transport
    ensures Holds(Step(s, e), session, k) <==> Holds(s, session, k) && !Interrupts(e, session, transport)
  {
    KeepsStay(s, e, session, k);
  }

  lemma OneMoreEvent(events: seq<Event>, i: nat, j: nat, session: int, transport: int)
    requires i < j <= |events|
    ensures Uninterrupted(events, i, j, session, transport) <==>
            Uninterrupted(events, i, j - 1, session, transport) && !Interrupts(events[j - 1], session, transport)
  {
  }

  lemma ArrivalStay(events: seq<Event>, i: nat)
    requires Trace(events) && i < |events| && events[i].Arrive?
    ensures Trace(events[..i + 1])
    ensures var s, e := Before(events, i + 1), events[i];
            && e.session in s.conns && s.conns[e.session] == StayOf(events, i)
            && 0 <= StayOf(events, i) < |s.entries|
            && s.entries[StayOf(events, i)].transport == e.transport
            && e.call in s.calls && s.calls[e.call] == StayOf(events, i)
  {
    StepAt(events, i);
    TraceInv(events[..i]);
  }

  /**
   Two messages are handled with the same entry exactly when they belong to the same session, came
   over the same transport, and nothing ended the stay in between.
   */
  lemma SameStayIff(events: seq<Event>, i: nat, j: nat)
    requires Trace(events) && i < j < |events| && events[i].Arrive? && events[j].Arrive?
    ensures StayOf(events, i) == StayOf(events, j) <==>
            && events[i].session == events[j].session && events[i].transport == events[j].transport
            && Uninterrupted(events, i + 1, j, events[i].session, events[i].transport)
  {
    ArrivalStay(events, i);
    ArrivalStay(events, j);
    StepAt(events, j);
    TraceInv(events[..i + 1]);
    TraceInv(events[..j]);
    var k, a, b := StayOf(events, i), events[i], events[j];
    if b.session != a.session {
      NeverReturns(events, i + 1, j + 1, b.session, k);
    } else {
      StayLasts(events, i + 1, j, a.session, k, a.transport);
      EntriesStay(events, i + 1, j, k);
      ReuseIff(Before(events, j), b, k);
    }
  }

  /** An arriving message is handled with an existing entry exactly when it finds it in place and fitting. */
  lemma ReuseIff(s: State, e: Event, k: int)
    requires Inv(s) && e.Arrive? && Enabled(s, e) && 0 <= k < |s.entries|
    ensures Holds(Step(s, e), e.session, k) <==> Holds(s, e.session, k) && s.entries[k].transport == e.transport
  {
  }

  // --- announcements ---------------------------------------------------------------------------

  /** The entry whose flag event `n` swaps. */
  function SwappedAt(events: seq<Event>, n: nat): int
    requires Trace(events) && n < |events| && events[n].Swap?
  {
    TracePrefix(events, n);
    StepAt(events, n);
    Before(events, n).calls[events[n].call]
  }

  /** Event `n` makes the server send new_session_created. */
  ghost predicate Announces(events: seq<Event>, n: nat)
    requires Trace(events) && n < |events| && events[n].Swap?
  {
    StepAt(events, n);
    !Before(events, n).entries[SwappedAt(events, n)].sent
  }

  ghost predicate SwappedBefore(events: seq<Event>, n: nat, k: int)
    requires Trace(events) && n <= |events|
  {
    exists m :: 0 <= m < n && events[m].Swap? && SwappedAt(events, m) == k
  }

  lemma {:induction false} SentIff(events: seq<Event>, n: nat, k: int)
    requires Trace(events) && n <= |events| && Trace(events[..n]) && 0 <= k < |Before(events, n).entries|
    ensures Before(events, n).entries[k].sent <==> SwappedBefore(events, n, k)
    decreases n
  {
    if n > 0 {
      StepAt(events, n - 1);
      TraceInv(events[..n - 1]);
      if k < |Before(events, n - 1).entries| {
        SentIff(events, n - 1, k);
      } else {
        SwapsKnown(events, n - 1, k);
      }
      OneMoreSwap(events, n, k);
    }
  }

  lemma OneMoreSwap(events: seq<Event>, n: nat, k: int)
    requires Trace(events) && 0 < n <= |events|
    ensures SwappedBefore(events, n, k) <==>
            SwappedBefore(events, n - 1, k) || (events[n - 1].Swap? && SwappedAt(events, n - 1) == k)
  {
    if SwappedBefore(events, n - 1, k) {
      var m :| 0 <= m < n - 1 && events[m].Swap? && SwappedAt(events, m) == k;
      assert m < n;
    }
  }

  /** Only entries that exist are swapped. */
  lemma {:induction false} SwapsKnown(events: seq<Event>, n: nat, k: int)
    requires Trace(events) && n <= |events| && Trace(events[..n]) && |Before(events, n).entries| <= k
    ensures !SwappedBefore(events, n, k)
    decreases n
  {
    if n > 0 {
      StepAt(events, n - 1);
      TraceInv(events[..n - 1]);
      StepInv(Before(events, n - 1), events[n - 1]);
      SwapsKnown(events, n - 1, k);
      forall m | 0 <= m < n && events[m].Swap? ensures SwappedAt(events, m) != k {
        assert m == n - 1 || m < n - 1;
      }
    }
  }

  /** A stay is announced by the first swap of its entry and by no other, so at most once. */
  lemma AnnouncedByFirstSwap(events: seq<Event>, n: nat)
    requires Trace(events) && n < |events| && events[n].Swap?
    ensures Announces(events, n) <==> !SwappedBefore(events, n, SwappedAt(events, n))
  {
    StepAt(events, n);
    SentIff(events, n, SwappedAt(events, n));
  }

  /** Event `m` is the swap of the message that arrived at event `j`. */
  ghost predicate SwapFor(events: seq<Event>, j: nat, m: nat)
    requires j < |events| && events[j].Arrive?
  {
    j < m < |events| && events[m] == Swap(events[j].call) && forall n | j < n < m :: events[n] != Swap(events[j].call)
  }

  /** A message being handled keeps its entry until its swap. */
  lemma {:induction false} CallKept(events: seq<Event>, j: nat, m: nat)
    requires Trace(events) && j < m <= |events| && events[j].Arrive? && Trace(events[..m])
    requires forall n | j < n < m :: events[n] != Swap(events[j].call)
    ensures events[j].call in Before(events, m).calls
    ensures Before(events, m).calls[events[j].call] == StayOf(events, j)
    decreases m
  {
    if m == j + 1 {
      ArrivalStay(events, j);
    } else {
      StepAt(events, m - 1);
      CallKept(events, j, m - 1);
    }
  }

  lemma SwapOfArrival(events: seq<Event>, j: nat, m: nat)
    requires Trace(events) && j < |events| && events[j].Arrive? && SwapFor(events, j, m)
    ensures SwappedAt(events, m) == StayOf(events, j)
  {
    StepAt(events, m);
    CallKept(events, j, m);
  }

  /** Every message being handled has arrived and not been swapped since. */
  lemma {:induction false} ArrivalOfCall(events: seq<Event>, m: nat, call: int) returns (j: nat)
    requires Trace(events) && m <= |events| && Trace(events[..m]) && call in Before(events, m).calls
    ensures j < m && events[j].Arrive? && events[j].call == call
    ensures forall n | j < n < m :: events[n] != Swap(call)
    decreases m
  {
    StepAt(events, m - 1);
    if events[m - 1].Arrive? && events[m - 1].call == call {
      j := m - 1;
    } else {
      j := ArrivalOfCall(events, m - 1, call);
    }
  }

  lemma ArrivalOfSwap(events: seq<Event>, m: nat) returns (j: nat)
    requires Trace(events) && m < |events| && events[m].Swap?
    ensures j < m && events[j].Arrive? && SwapFor(events, j, m)
  {
    StepAt(events, m);
    j := ArrivalOfCall(events, m, events[m].call);
  }

  /** The read loop of a transport handles one message at a time; different transports run in parallel. */
  ghost predicate OrderedPerTransport(events: seq<Event>) {
    forall i: nat, j: nat | i < j < |events| && events[i].Arrive? && events[j].Arrive?
                            && events[i].transport == events[j].transport ::
      SwappedBy(events, i, j)
  }

  /** The message that arrived at event `i` has been swapped before event `j`. */
  ghost predicate SwappedBy(events: seq<Event>, i: nat, j: nat)
    requires i < |events| && events[i].Arrive?
  {
    exists m: nat :: m < j && SwapFor(events, i, m)
  }

  /** An earlier message of the same session over the same transport, with no interruption since. */
  ghost predicate StayBegan(events: seq<Event>, j: nat)
    requires j < |events| && events[j].Arrive?
  {
    exists i :: 0 <= i < j && events[i].Arrive?
      && events[i].session == events[j].session && events[i].transport == events[j].transport
      && Uninterrupted(events, i + 1, j, events[i].session, events[i].transport)
  }

  lemma SwapForUnique(events: seq<Event>, j: nat, m: nat, n: nat)
    requires j < |events| && events[j].Arrive? && SwapFor(events, j, m) && SwapFor(events, j, n)
    ensures m == n
  {
  }

  /** On one transport, the earlier message is swapped first. */
  lemma SwapsInOrder(events: seq<Event>, i: nat, n: nat, j: nat, m: nat)
    requires OrderedPerTransport(events) && i < j < |events| && events[i].Arrive? && events[j].Arrive?
    requires events[i].transport == events[j].transport && SwapFor(events, i, n) && SwapFor(events, j, m)
    ensures n < m
  {
    assert SwappedBy(events, i, j);
    var o: nat :| o < j && SwapFor(events, i, o);
    SwapForUnique(events, i, n, o);
  }

  /** A swap of the same entry before the message's own comes from an earlier message of the same stay. */
  lemma EarlierSwapBeganStay(events: seq<Event>, j: nat, m: nat)
    requires Trace(events) && OrderedPerTransport(events)
    requires j < |events| && events[j].Arrive? && SwapFor(events, j, m) && SwappedBefore(events, m, StayOf(events, j))
    ensures StayBegan(events, j)
  {
    var n: nat :| n < m && events[n].Swap? && SwappedAt(events, n) == StayOf(events, j);
    var i := ArrivalOfSwap(events, n);
    SwapOfArrival(events, i, n);
    if i < j {
      SameStayIff(events, i, j);
    } else if i == j {
      SwapForUnique(events, j, m, n);
    } else {
      SameStayIff(events, j, i);
      SwapsInOrder(events, j, m, i, n);
    }
  }

  lemma BegunStayWasSwapped(events: seq<Event>, j: nat, m: nat)
    requires Trace(events) && OrderedPerTransport(events)
    requires j < |events| && events[j].Arrive? && SwapFor(events, j, m) && StayBegan(events, j)
    ensures SwappedBefore(events, m, StayOf(events, j))
  {
    var i: nat :| i < j && events[i].Arrive?
      && events[i].session == events[j].session && events[i].transport == events[j].transport
      && Uninterrupted(events, i + 1, j, events[i].session, events[i].transport);
    SameStayIff(events, i, j);
    assert SwappedBy(events, i, j);
    var n: nat :| n < j && SwapFor(events, i, n);
    SwapOfArrival(events, i, n);
  }

  /**
   Whatever other transports do in between, a message triggers new_session_created exactly when it is
   the first of an uninterrupted stay of its session on one transport.
   */
  lemma AnnouncedIffFirstOfStay(events: seq<Event>, j: nat, m: nat)
    requires Trace(events) && OrderedPerTransport(events)
    requires j < |events| && events[j].Arrive? && SwapFor(events, j, m)
    ensures Announces(events, m) <==> !StayBegan(events, j)
  {
    SwapOfArrival(events, j, m);
    AnnouncedByFirstSwap(events, m);
    if SwappedBefore(events, m, StayOf(events, j)) {
      EarlierSwapBeganStay(events, j, m);
    }
    if StayBegan(events, j) {
      BegunStayWasSwapped(events, j, m);
    }
  }

  /** After a disconnect no session is backed by the transport. */
  lemma NothingBackedAfterDisconnect(events: seq<Event>, transport: int, session: int)
    requires Trace(events)
    ensures Trace(events + [Disconnect(transport)])
    ensures !Backed(After(events + [Disconnect(transport)]).value, session, transport)
    ensures !Backed(After(events).value, session, transport) && session in After(events).value.conns ==>
              var s := After(events + [Disconnect(transport)]).value;
              session in s.conns && s.conns[session] == After(events).value.conns[session]
  {
    var all := events + [Disconnect(transport)];
    assert all[..|all| - 1] == events;
  }

  // --- the registry itself ------------------------------------------------------------------------

  class Connection {
    const transport: int
    var sent: bool

    constructor (transport: int)
      ensures this.transport == transport && !sent
    {
      this.transport, sent := transport, false;
    }

    /** The previous value of the flag, which is set from now on. */
    method SentCreated() returns (before: bool)
      modifies this
      ensures before == old(sent) && sent
    {
      before := sent;
      sent := true;
    }
  }

  class Registry {
    var conns: map<int, Connection>
    /** Transports this registry has closed. */
    var closed: set<int>
    /** Every connection made so far, and the number of each session's. */
    ghost var made: seq<Connection>
    ghost var number: map<int, int>

    ghost predicate Valid()
      reads this
    {
      && (forall i, j | 0 <= i < j < |made| :: made[i] != made[j])
      && number.Keys == conns.Keys
      && (forall s | s in conns :: 0 <= number[s] < |made| && made[number[s]] == conns[s])
    }

    ghost function Abs(): State
      requires Valid()
      reads this, made
    {
      State(number, seq(|made|, i requires 0 <= i < |made| reads this,
          made => Entry(made[i].transport, made[i].sent)), map[])
    }

    constructor ()
      ensures Valid() && Abs() == EMPTY && closed == {}
    {
      conns, closed := map[], {};
      made, number := [], map[];
    }

    method CreateConnection(session: int, transport: int) returns (c: Connection)
      requires Valid()
      modifies this
      ensures Valid() && Abs() == Connect(old(Abs()), session, transport) && closed == old(closed)
      ensures session in conns && conns[session] == c && c.transport == transport
      ensures old(made) <= made && forall x | x in made :: x in old(made) || fresh(x)
    {
      if session in conns && conns[session].transport == transport {
        return conns[session];
      }
      c := new Connection(transport);
      conns := conns[session := c];
      number := number[session := |made|];
      made := made + [c];
    }

    lemma BackedBy(session: int, transport: int)
      requires Valid()
      ensures Backed(Abs(), session, transport) <==> session in conns && conns[session].transport == transport
    {
    }

    /** Drop every session backed by the transport, visiting sessions in any order. */
    method RemoveConn(transport: int)
      requires Valid()
      modifies this
      ensures Valid() && Abs() == Drop(old(Abs()), transport) && made == old(made) && closed == old(closed)
      ensures forall s | s in conns :: conns[s].transport != transport
    {
      ghost var was, before := Abs(), conns;
      forall s ensures Backed(was, s, transport) <==> s in before && before[s].transport == transport {
        BackedBy(s, transport);
      }
      var rest := conns.Keys;
      while rest != {}
        invariant Valid() && made == old(made) && closed == old(closed) && rest <= conns.Keys <= old(conns).Keys
        invariant forall s | s in conns :: number[s] == old(number)[s] && conns[s] == old(conns)[s]
        invariant forall s | s in old(conns) && s !in conns :: old(conns)[s].transport == transport
        invariant forall s | s in conns && s !in rest :: conns[s].transport != transport
      {
        var id := Next(rest);
        rest := rest - {id};
        if conns[id].transport == transport {
          Forget(id);
        }
      }
      assert number == Drop(was, transport).conns;
      assert Abs().entries == was.entries;
    }

    method Forget(session: int)
      requires Valid()
      modifies this`conns, this`number
      ensures Valid() && conns == old(conns) - {session} && number == old(number) - {session}
    {
      conns := conns - {session};
      number := number - {session};
    }

    /** Close the session's connection, if it has one, and drop its entry. */
    method DeleteConnection(session: int)
      requires Valid()
      modifies this
      ensures Valid() && made == old(made)
      ensures Abs() == old(Abs()).(conns := old(Abs()).conns - {session})
      ensures closed == old(closed) + if session in old(conns) then {old(conns)[session].transport} else {}
    {
      if session in conns {
        closed := closed + {conns[session].transport};
      }
      Forget(session);
    }

    /** The two steps of handling one message; true when the session is to be announced. */
    method Handle(session: int, transport: int) returns (announce: bool)
      requires Valid()
      modifies this, made
      ensures Valid()
      ensures var t := Connect(old(Abs()), session, transport);
              && session in t.conns && 0 <= t.conns[session] < |t.entries|
              && announce == !t.entries[t.conns[session]].sent
              && Abs() == t.(entries := t.entries[t.conns[session] := Entry(transport, true)])
    {
      var c := CreateConnection(session, transport);
      assert c == made[number[session]] && c in made;
      assert c in old(made) || fresh(c);
      var before := c.SentCreated();
      announce := !before;
    }
  }
}
