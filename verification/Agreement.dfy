/** Both participants of a conversation see the same messages and log the same events. */
module Agreement {
  import opened Prelude
  import opened Messaging
  import opened Structure
  import opened UpdateLog
  import opened History

  /** The message belongs to the conversation of `a` and `b`. */
  predicate Between(ms: seq<Message>, a: int, b: int, g: int) {
    && Known(ms, g)
    && ((MessageAt(ms, g).from == a && MessageAt(ms, g).peer == b)
        || (MessageAt(ms, g).from == b && MessageAt(ms, g).peer == a))
  }

  predicate Concerns(ms: seq<Message>, a: int, b: int, u: Update) {
    (u.New? || u.Edit?) && Between(ms, a, b, u.globalId)
  }

  /** The new-message and edit events of one conversation, in log order. */
  function Events(ms: seq<Message>, a: int, b: int, log: seq<Entry>): seq<Update> {
    if log == [] then []
    else
      var init := Events(ms, a, b, log[..|log| - 1]);
      var u := log[|log| - 1].update;
      if Concerns(ms, a, b, u) then init + [u] else init
  }

  ghost predicate SameEvents(w: World, a: int, b: int) {
    Events(w.messages, a, b, Log(w, a)) == Events(w.messages, a, b, Log(w, b))
  }

  ghost predicate Agreed(w: World) {
    forall a, b | a != b :: SameEvents(w, a, b)
  }

  // --- preservation --------------------------------------------------------

  lemma AppendEvents(ms: seq<Message>, a: int, b: int, log: seq<Entry>, e: Entry)
    ensures Events(ms, a, b, log + [e]) ==
            Events(ms, a, b, log) + (if Concerns(ms, a, b, e.update) then [e.update] else [])
  {
    assert (log + [e])[..|log|] == log;
  }

  ghost predicate LogKnown(ms: seq<Message>, log: seq<Entry>) {
    forall e | e in log && (e.update.New? || e.update.Edit?) :: Known(ms, e.update.globalId)
  }

  lemma {:induction false} NewIdsMember(log: seq<Entry>, k: int)
    requires 0 <= k < |log| && log[k].update.New?
    ensures log[k].update.globalId in NewIds(log)
  {
    var init := log[..|log| - 1];
    if k < |log| - 1 {
      assert init[k] == log[k];
      NewIdsMember(init, k);
    }
  }

  lemma {:induction false} NewIdsPrefix(log: seq<Entry>, k: int, g: int)
    requires 0 <= k <= |log| && g in NewIds(log[..k])
    ensures g in NewIds(log)
  {
    if k == |log| {
      assert log[..k] == log;
    } else {
      assert log[..|log| - 1][..k] == log[..k];
      NewIdsPrefix(log[..|log| - 1], k, g);
    }
  }

  /** The log names only known messages. */
  lemma LogsKnown(w: World, u: int)
    requires Structured(w) && Logged(w)
    ensures LogKnown(w.messages, Log(w, u))
  {
    var log := Log(w, u);
    forall e | e in log && (e.update.New? || e.update.Edit?) ensures Known(w.messages, e.update.globalId) {
      var k :| 0 <= k < |log| && log[k] == e;
      if e.update.New? {
        NewIdsMember(log, k);
      } else {
        assert EntryOk(log, k);
        NewIdsPrefix(log, k, e.update.globalId);
      }
      var i :| 0 <= i < |Gids(Box(w, u))| && Gids(Box(w, u))[i] == e.update.globalId;
      assert RefOk(w.messages, u, Box(w, u)[i]);
    }
  }

  /** Events depend on who the participants are, and on nothing else. */
  lemma {:induction false} SameParticipantsEvents(ms: seq<Message>, ns: seq<Message>, a: int, b: int, log: seq<Entry>)
    requires LogKnown(ms, log) && |ms| <= |ns|
    requires forall i | 0 <= i < |ms| :: ns[i].from == ms[i].from && ns[i].peer == ms[i].peer
    ensures Events(ns, a, b, log) == Events(ms, a, b, log)
  {
    if log != [] {
      var init := log[..|log| - 1];
      assert forall e | e in init :: e in log;
      SameParticipantsEvents(ms, ns, a, b, init);
      assert log[|log| - 1] in log;
    }
  }

  /** What a send adds to the events of a conversation in one log. */
  lemma SendEvents(w: World, v: World, m: Message, u: int, a: int, b: int)
    requires LogKnown(w.messages, Log(w, u)) && SendView(w, v, m, u) && a != b && (u == a || u == b)
    ensures Events(v.messages, a, b, Log(v, u)) ==
            Events(w.messages, a, b, Log(w, u))
            + (if (m.from == a && m.peer == b) || (m.from == b && m.peer == a) then [New(m.globalId)] else [])
  {
    SameParticipantsEvents(w.messages, v.messages, a, b, Log(w, u));
    if u == m.from || u == m.peer {
      AppendEvents(v.messages, a, b, Log(w, u), Log(v, u)[|Log(w, u)|]);
    }
  }

  lemma SendAgreed(w: World, v: World, m: Message, a: int, b: int)
    requires Structured(w) && Logged(w) && a != b && SameEvents(w, a, b)
    requires SendView(w, v, m, a) && SendView(w, v, m, b)
    ensures SameEvents(v, a, b)
  {
    LogsKnown(w, a);
    LogsKnown(w, b);
    SendEvents(w, v, m, a, a, b);
    SendEvents(w, v, m, b, a, b);
  }

  lemma EditEvents(w: World, v: World, g: int, text: string, now: int, u: int, a: int, b: int)
    requires LogKnown(w.messages, Log(w, u)) && Known(w.messages, g) && EditView(w, v, g, text, now, u)
    requires u == a || u == b
    ensures Events(v.messages, a, b, Log(v, u)) ==
            Events(w.messages, a, b, Log(w, u)) + (if Between(w.messages, a, b, g) then [Edit(g)] else [])
  {
    SameParticipantsEvents(w.messages, v.messages, a, b, Log(w, u));
    if Participant(w.messages, u, g) {
      var e := Log(v, u)[|Log(w, u)|];
      AppendEvents(v.messages, a, b, Log(w, u), e);
      assert Concerns(v.messages, a, b, e.update) <==> Between(w.messages, a, b, g);
    }
  }

  lemma EditAgreed(w: World, v: World, g: int, text: string, now: int, a: int, b: int)
    requires Structured(w) && Logged(w) && SameEvents(w, a, b)
    requires Known(w.messages, g) && EditView(w, v, g, text, now, a) && EditView(w, v, g, text, now, b)
    ensures SameEvents(v, a, b)
  {
    LogsKnown(w, a);
    LogsKnown(w, b);
    EditEvents(w, v, g, text, now, a, a, b);
    EditEvents(w, v, g, text, now, b, a, b);
  }

  lemma DeleteAgreed(w: World, v: World, self: int, held: seq<int>, now: int, a: int, b: int)
    requires Structured(w) && Logged(w) && SameEvents(w, a, b)
    requires DeleteView(w, v, self, held, now, a) && DeleteView(w, v, self, held, now, b)
    ensures SameEvents(v, a, b)
  {
    forall u | u == a || u == b ensures Events(v.messages, a, b, Log(v, u)) == Events(w.messages, a, b, Log(w, u)) {
      LogsKnown(w, u);
      SameParticipantsEvents(w.messages, v.messages, a, b, Log(w, u));
      if u == self {
        AppendEvents(v.messages, a, b, Log(w, u), Log(v, u)[|Log(w, u)|]);
      }
    }
  }

  lemma ReadAgreed(w: World, self: int, peer: int, maxId: int, now: int, a: int, b: int)
    requires self in w.accounts && SameEvents(w, a, b)
    ensures SameEvents(Read(w, self, peer, maxId, now), a, b)
  {
    var v := Read(w, self, peer, maxId, now);
    forall u ensures v.messages == w.messages
        && Events(v.messages, a, b, Log(v, u)) == Events(w.messages, a, b, Log(w, u)) {
      ReadViews(w, self, peer, maxId, now, u);
      if Log(v, u) != Log(w, u) {
        AppendEvents(v.messages, a, b, Log(w, u), Log(v, u)[|Log(w, u)|]);
      }
    }
  }

  lemma StepSameEvents(w: World, op: Op, a: int, b: int)
    requires Structured(w) && Logged(w) && a != b && SameEvents(w, a, b) && Enabled(w, op)
    ensures SameEvents(Step(w, op), a, b)
  {
    match op
    case CreateOp =>
      assert forall u :: Log(Create(w), u) == Log(w, u);
    case SendOp(from, peer, text, randomId, media, now) =>
      SendViews(w, from, peer, text, randomId, media, now, a);
      SendViews(w, from, peer, text, randomId, media, now, b);
      SendAgreed(w, Step(w, op), Message(|w.messages| + 1, from, peer, text, now, None, randomId, media, false), a, b);
    case EditOp(self, localId, text, now) =>
      if Editable(w, self, localId) {
        EditViews(w, self, localId, text, now, a);
        EditViews(w, self, localId, text, now, b);
        EditAgreed(w, Step(w, op), Box(w, self)[localId - 1].globalId, text, now, a, b);
      }
    case DeleteOp(self, ids, now) =>
      if Held(Box(w, self), ids) != [] {
        DeleteViews(w, self, ids, now, a);
        DeleteViews(w, self, ids, now, b);
        DeleteAgreed(w, Step(w, op), self, Held(Box(w, self), ids), now, a, b);
      }
    case ReadOp(self, peer, maxId, now) => ReadAgreed(w, self, peer, maxId, now, a, b);
  }

  lemma StepAgreed(w: World, op: Op)
    requires Structured(w) && Logged(w) && Agreed(w) && Enabled(w, op)
    ensures Agreed(Step(w, op))
  {
    forall a, b | a != b ensures SameEvents(Step(w, op), a, b) {
      StepSameEvents(w, op, a, b);
    }
  }

  // --- the conversation --------------------------------------------------------

  ghost function GlobalOf(views: seq<View>): seq<int> {
    seq(|views|, i requires 0 <= i < |views| => views[i].globalId)
  }

  const IDENTITY := (x: int) => x

  /** A listed view shows the canonical message under the viewer's local id. */
  ghost predicate Shows(ms: seq<Message>, a: int, b: int, box: seq<Ref>, view: View) {
    && Between(ms, a, b, view.globalId)
    && 1 <= view.localId <= |box|
    && box[view.localId - 1].globalId == view.globalId
    && var m := MessageAt(ms, view.globalId);
    && !m.deleted
    && (view.out <==> m.from == a)
    && view.text == m.text && view.date == m.date && view.editDate == m.editDate
  }

  ghost predicate GlobalIdsOk(ms: seq<Message>) {
    forall i | 0 <= i < |ms| :: ms[i].globalId == i + 1
  }

  lemma ListedShows(ms: seq<Message>, a: int, b: int, box: seq<Ref>, view: View)
    requires BoxOk(ms, a, box) && GlobalIdsOk(ms)
    requires view in Conversation(ms, a, b, 0, box)
    ensures Shows(ms, a, b, box, view)
  {
    ConversationMembers(ms, a, b, 0, box);
    var r :| r in box && Listed(ms, a, b, 0, r) && view == ViewOf(a, r, MessageAt(ms, r.globalId));
    var k :| 0 <= k < |box| && box[k] == r;
    assert RefOk(ms, a, box[k]);
  }

  lemma LiveListed(ms: seq<Message>, a: int, b: int, box: seq<Ref>, g: int)
    requires BoxOk(ms, a, box) && GlobalIdsOk(ms)
    requires Between(ms, a, b, g) && !MessageAt(ms, g).deleted && Holds(box, g)
    ensures g in GlobalOf(Conversation(ms, a, b, 0, box))
  {
    var views := Conversation(ms, a, b, 0, box);
    ConversationMembers(ms, a, b, 0, box);
    var k :| 0 <= k < |box| && box[k].globalId == g;
    assert RefOk(ms, a, box[k]) && box[k] in box;
    var view := ViewOf(a, box[k], MessageAt(ms, g));
    assert Listed(ms, a, b, 0, box[k]) && view in views;
    var i :| 0 <= i < |views| && views[i] == view;
    assert GlobalOf(views)[i] == g;
  }

  lemma ConversationDescends(ms: seq<Message>, a: int, b: int, box: seq<Ref>)
    requires BoxOk(ms, a, box) && GlobalIdsOk(ms)
    ensures StrictlyDescending(GlobalOf(Conversation(ms, a, b, 0, box)), IDENTITY)
  {
    var views := Conversation(ms, a, b, 0, box);
    ConversationMembers(ms, a, b, 0, box);
    forall i, j | 0 <= i < j < |views| ensures views[i].globalId > views[j].globalId {
      assert BY_LOCAL_ID(views[i]) > BY_LOCAL_ID(views[j]);
      ListedShows(ms, a, b, box, views[i]);
      ListedShows(ms, a, b, box, views[j]);
    }
  }

  /** The listed global ids are the live messages between the two, newest first. */
  lemma ConversationGlobals(w: World, a: int, b: int)
    requires Structured(w)
    ensures var views := Conversation(w.messages, a, b, 0, Box(w, a));
            && StrictlyDescending(GlobalOf(views), IDENTITY)
            && (forall g :: g in GlobalOf(views) <==> Between(w.messages, a, b, g) && !MessageAt(w.messages, g).deleted)
            && (forall i | 0 <= i < |views| :: Shows(w.messages, a, b, Box(w, a), views[i]))
  {
    var ms, box := w.messages, Box(w, a);
    var views := Conversation(ms, a, b, 0, box);
    assert BoxOk(ms, a, box) && GlobalIdsOk(ms);
    ConversationDescends(ms, a, b, box);
    forall i | 0 <= i < |views| ensures Shows(ms, a, b, box, views[i]) {
      ListedShows(ms, a, b, box, views[i]);
    }
    forall g | Between(ms, a, b, g) && !MessageAt(ms, g).deleted ensures g in GlobalOf(views) {
      assert Participant(ms, a, g) && Holds(box, g);
      LiveListed(ms, a, b, box, g);
    }
  }

  /** The two histories list the same messages in the same order, mirrored. */
  lemma HistoriesAgree(w: World, a: int, b: int)
    requires Structured(w) && a != b
    ensures var mine := Conversation(w.messages, a, b, 0, Box(w, a));
            var theirs := Conversation(w.messages, b, a, 0, Box(w, b));
            && |mine| == |theirs|
            && forall i | 0 <= i < |mine| ::
                 && mine[i].globalId == theirs[i].globalId
                 && mine[i].text == theirs[i].text
                 && mine[i].date == theirs[i].date
                 && mine[i].editDate == theirs[i].editDate
                 && mine[i].out == !theirs[i].out
  {
    var mine := Conversation(w.messages, a, b, 0, Box(w, a));
    var theirs := Conversation(w.messages, b, a, 0, Box(w, b));
    ConversationGlobals(w, a, b);
    ConversationGlobals(w, b, a);
    forall g ensures g in GlobalOf(mine) <==> g in GlobalOf(theirs) {
      assert Between(w.messages, a, b, g) <==> Between(w.messages, b, a, g);
    }
    SortedUnique(GlobalOf(mine), GlobalOf(theirs), IDENTITY);
    forall i | 0 <= i < |mine|
      ensures mine[i].globalId == theirs[i].globalId && mine[i].out == !theirs[i].out
    {
      assert GlobalOf(mine)[i] == GlobalOf(theirs)[i];
      assert mine[i].globalId in GlobalOf(mine);
    }
  }
}
