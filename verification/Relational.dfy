/**
 The queries of the PostgreSQL backend as functions over finite tables, and the proof that the
 in-memory specification computes them.
 */
module Relational {
  import opened Prelude
  import opened Messaging
  import opened Structure
  import opened ReadState
  import opened History
  import opened Watermarks
  import opened Invariant
  import opened Readers

  /** A row of message_refs. */
  datatype RefRow = RefRow(userId: int, messageId: int, globalId: int, out: bool, unread: bool)

  function RowOf(u: int, r: Ref): RefRow {
    RefRow(u, r.localId, r.globalId, r.out, r.unread)
  }

  ghost function RefTable(w: World): set<RefRow> {
    set u, r | u in w.accounts && r in w.accounts[u].box :: RowOf(u, r)
  }

  ghost function MessageTable(w: World): set<Message> {
    set m | m in w.messages
  }

  lemma RowsAreRefs(w: World, u: int, r: Ref)
    ensures RowOf(u, r) in RefTable(w) <==> r in Box(w, u)
  {
    if RowOf(u, r) in RefTable(w) {
      var v, q :| v in w.accounts && q in w.accounts[v].box && RowOf(v, q) == RowOf(u, r);
      assert q == r;
    }
  }

  lemma RowIsRef(w: World, row: RefRow)
    requires row in RefTable(w)
    ensures Ref(row.messageId, row.globalId, row.out, row.unread) in Box(w, row.userId)
  {
  }

  /** The canonical message of a reference is the one table row with its global id. */
  lemma MessageRow(w: World, g: int, m: Message)
    requires Structured(w)
    ensures m in MessageTable(w) && m.globalId == g <==> Known(w.messages, g) && m == MessageAt(w.messages, g)
  {
    if m in MessageTable(w) && m.globalId == g {
      var i :| 0 <= i < |w.messages| && w.messages[i] == m;
    }
    if Known(w.messages, g) && m == MessageAt(w.messages, g) {
      assert w.messages[g - 1] in w.messages;
    }
  }

  // --- GetDialogs ------------------------------------------------------------------

  /** A row of the inner SELECT. */
  datatype JoinRow = JoinRow(messageId: int, out: bool, unread: bool, peer: int, peerRead: bool)

  /** The LEFT JOIN finds the peer's incoming copy, and it is read. */
  ghost predicate PeerCopyRead(refs: set<RefRow>, g: int, peer: int) {
    exists pr :: pr in refs && pr.globalId == g && !pr.out && pr.userId == peer && !pr.unread
  }

  ghost function InnerSelect(refs: set<RefRow>, messages: set<Message>, self: int): set<JoinRow> {
    set r, m | r in refs && m in messages && m.globalId == r.globalId && r.userId == self && !m.deleted ::
      JoinRow(r.messageId, r.out, r.unread, Other(self, m), PeerCopyRead(refs, r.globalId, Other(self, m)))
  }

  ghost function Group(rows: set<JoinRow>, peer: int): set<JoinRow> {
    set s | s in rows && s.peer == peer
  }

  ghost function UnreadRows(rows: set<JoinRow>): set<JoinRow> {
    set s | s in rows && s.unread && !s.out
  }

  /** MAX, COUNT FILTER and the two COALESCE(MAX FILTER, 0) of one group. */
  ghost function Aggregate(rows: set<JoinRow>, peer: int): Dialog {
    Dialog(peer,
           Max0(set s | s in rows :: s.messageId),
           Max0(set s | s in rows && !s.out && !s.unread :: s.messageId),
           Max0(set s | s in rows && s.out && s.peerRead :: s.messageId),
           |UnreadRows(rows)|)
  }

  ghost function SqlGroup(w: World, self: int, peer: int): set<JoinRow> {
    Group(InnerSelect(RefTable(w), MessageTable(w), self), peer)
  }

  /** The LEFT JOIN matches at most one row, so it does not multiply the outer rows. */
  lemma LeftJoinIsSingle(w: World, p: RefRow, q: RefRow)
    requires Reachable(w) && p in RefTable(w) && q in RefTable(w)
    requires p.userId == q.userId && p.globalId == q.globalId
    ensures p == q
  {
    ReachableInv(w);
    BoxesOk(w, p.userId);
    RowIsRef(w, p);
    RowIsRef(w, q);
    OneCopy(w.messages, p.userId, Box(w, p.userId), Ref(p.messageId, p.globalId, p.out, p.unread),
            Ref(q.messageId, q.globalId, q.out, q.unread));
  }

  lemma OneCopy(ms: seq<Message>, u: int, box: seq<Ref>, q: Ref, r: Ref)
    requires BoxOk(ms, u, box) && q in box && r in box
    requires q.globalId == r.globalId || q.localId == r.localId
    ensures q == r
  {
    var i :| 0 <= i < |box| && box[i] == q;
    var j :| 0 <= j < |box| && box[j] == r;
  }

  lemma PeerCopyIsHasRead(w: World, g: int, peer: int)
    ensures PeerCopyRead(RefTable(w), g, peer) <==> HasRead(Box(w, peer), g)
  {
    if PeerCopyRead(RefTable(w), g, peer) {
      var pr :| pr in RefTable(w) && pr.globalId == g && !pr.out && pr.userId == peer && !pr.unread;
      RowIsRef(w, pr);
    }
    if HasRead(Box(w, peer), g) {
      var q :| q in Box(w, peer) && q.globalId == g && !q.out && !q.unread;
      RowsAreRefs(w, peer, q);
    }
  }

  ghost function JoinOf(w: World, peer: int, r: Ref): JoinRow {
    JoinRow(r.localId, r.out, r.unread, peer, HasRead(Box(w, peer), r.globalId))
  }

  lemma RefInGroup(w: World, self: int, peer: int, r: Ref)
    requires Structured(w) && r in LiveRefs(w.messages, self, peer, Box(w, self))
    ensures JoinOf(w, peer, r) in SqlGroup(w, self, peer)
  {
    var m := MessageAt(w.messages, r.globalId);
    var row := RowOf(self, r);
    MessageRow(w, r.globalId, m);
    RowsAreRefs(w, self, r);
    PeerCopyIsHasRead(w, r.globalId, peer);
    assert row in RefTable(w) && m in MessageTable(w) && m.globalId == row.globalId && row.userId == self && !m.deleted;
    assert JoinRow(row.messageId, row.out, row.unread, Other(self, m),
        PeerCopyRead(RefTable(w), row.globalId, Other(self, m)))
           in InnerSelect(RefTable(w), MessageTable(w), self);
  }

  lemma GroupFromRef(w: World, self: int, peer: int, s: JoinRow)
    requires Structured(w) && s in SqlGroup(w, self, peer)
    ensures exists r :: r in LiveRefs(w.messages, self, peer, Box(w, self)) && s == JoinOf(w, peer, r)
  {
    var row, m :| row in RefTable(w) && m in MessageTable(w) && m.globalId == row.globalId && row.userId == self
        && !m.deleted
                  && s == JoinRow(row.messageId, row.out, row.unread, Other(self, m),
                      PeerCopyRead(RefTable(w), row.globalId, Other(self, m)));
    JoinedRef(w, self, peer, row, m);
    var r := Ref(row.messageId, row.globalId, row.out, row.unread);
    assert s == JoinOf(w, peer, r);
  }

  lemma JoinedRef(w: World, self: int, peer: int, row: RefRow, m: Message)
    requires Structured(w) && row in RefTable(w) && m in MessageTable(w)
    requires m.globalId == row.globalId && row.userId == self && !m.deleted && Other(self, m) == peer
    ensures Ref(row.messageId, row.globalId, row.out, row.unread) in LiveRefs(w.messages, self, peer, Box(w, self))
    ensures PeerCopyRead(RefTable(w), row.globalId, peer) == HasRead(Box(w, peer), row.globalId)
  {
    RowIsRef(w, row);
    MessageRow(w, row.globalId, m);
    PeerCopyIsHasRead(w, row.globalId, peer);
  }

  /** The inner SELECT's rows of one conversation are its live references. */
  ghost predicate Matches(w: World, peer: int, refs: set<Ref>, rows: set<JoinRow>) {
    && (forall r | r in refs :: JoinOf(w, peer, r) in rows)
    && (forall s | s in rows :: exists r :: r in refs && s == JoinOf(w, peer, r))
  }

  lemma GroupIsLiveRefs(w: World, self: int, peer: int)
    requires Structured(w)
    ensures Matches(w, peer, LiveRefs(w.messages, self, peer, Box(w, self)), SqlGroup(w, self, peer))
  {
    var refs := LiveRefs(w.messages, self, peer, Box(w, self));
    forall r | r in refs ensures JoinOf(w, peer, r) in SqlGroup(w, self, peer) {
      RefInGroup(w, self, peer, r);
    }
    forall s | s in SqlGroup(w, self, peer) ensures exists r :: r in refs && s == JoinOf(w, peer, r) {
      GroupFromRef(w, self, peer, s);
    }
  }

  /** Counting rows counts references: distinct references have distinct message ids. */
  lemma CountRows(w: World, self: int, peer: int, refs: set<Ref>, rows: set<JoinRow>)
    requires forall q, r | q in refs && r in refs && q.localId == r.localId :: q == r
    requires Matches(w, peer, refs, rows)
    ensures |rows| == |refs|
    decreases refs
  {
    if refs == {} {
      assert rows == {};
    } else {
      var r := Pick(refs);
      var s := JoinOf(w, peer, r);
      forall t | t in rows - {s} ensures exists q :: q in refs - {r} && t == JoinOf(w, peer, q) {
        var q :| q in refs && t == JoinOf(w, peer, q);
        assert q in refs - {r};
      }
      CountRows(w, self, peer, refs - {r}, rows - {s});
    }
  }

  lemma SameIds(w: World, peer: int, refs: set<Ref>, rows: set<JoinRow>)
    requires Matches(w, peer, refs, rows)
    ensures (set s | s in rows :: s.messageId) == LocalIds(refs)
    ensures (set s | s in rows && !s.out && !s.unread :: s.messageId) == ReadInboxIds(refs)
    ensures (set s | s in rows && s.out && s.peerRead :: s.messageId) == ReadOutboxIds(refs, Box(w, peer))
  {
    forall x ensures x in (set s | s in rows :: s.messageId) <==> x in LocalIds(refs) {
      if x in LocalIds(refs) {
        var r :| r in refs && r.localId == x;
        assert JoinOf(w, peer, r) in rows;
      }
    }
    forall x ensures x in (set s | s in rows && !s.out && !s.unread :: s.messageId) <==> x in ReadInboxIds(refs) {
      if x in ReadInboxIds(refs) {
        var r :| r in refs && !r.out && !r.unread && r.localId == x;
        assert JoinOf(w, peer, r) in rows;
      }
    }
    forall x ensures x in (set s | s in rows && s.out && s.peerRead :: s.messageId)
        <==> x in ReadOutboxIds(refs, Box(w, peer)) {
      if x in ReadOutboxIds(refs, Box(w, peer)) {
        var r :| r in refs && r.out && HasRead(Box(w, peer), r.globalId) && r.localId == x;
        assert JoinOf(w, peer, r) in rows;
      }
    }
  }

  lemma UnreadMatch(w: World, peer: int, refs: set<Ref>, rows: set<JoinRow>)
    requires Matches(w, peer, refs, rows)
    ensures Matches(w, peer, UnreadRefs(refs), UnreadRows(rows))
  {
    forall s | s in UnreadRows(rows) ensures exists r :: r in UnreadRefs(refs) && s == JoinOf(w, peer, r) {
      var r :| r in refs && s == JoinOf(w, peer, r);
      assert r in UnreadRefs(refs);
    }
  }

  lemma EmptyTogether(w: World, peer: int, refs: set<Ref>, rows: set<JoinRow>)
    requires Matches(w, peer, refs, rows)
    ensures refs == {} <==> rows == {}
  {
    if refs != {} {
      assert JoinOf(w, peer, Pick(refs)) in rows;
    }
    if rows != {} {
      var s := Pick(rows);
      var r :| r in refs && s == JoinOf(w, peer, r);
    }
  }

  /** The in-memory dialog entry is the row the aggregate query returns for that peer. */
  lemma DialogIsSqlRow(w: World, self: int, peer: int)
    requires Reachable(w)
    ensures DialogOf(w, self, peer) == Aggregate(SqlGroup(w, self, peer), peer)
    ensures LiveRefs(w.messages, self, peer, Box(w, self)) == {} <==> SqlGroup(w, self, peer) == {}
  {
    ReachableInv(w);
    BoxesOk(w, self);
    var refs := LiveRefs(w.messages, self, peer, Box(w, self));
    var rows := SqlGroup(w, self, peer);
    GroupIsLiveRefs(w, self, peer);
    SameIds(w, peer, refs, rows);
    UnreadMatch(w, peer, refs, rows);
    forall q, r | q in UnreadRefs(refs) && r in UnreadRefs(refs) && q.localId == r.localId ensures q == r {
      OneCopy(w.messages, self, Box(w, self), q, r);
    }
    CountRows(w, self, peer, UnreadRefs(refs), UnreadRows(rows));
    EmptyTogether(w, peer, refs, rows);
  }

  /** The whole query: grouped rows ordered by top, cut at a LIMIT of at least one. */
  ghost predicate SqlDialogs(w: World, self: int, limit: nat, result: seq<Dialog>) {
    exists list ::
      && StrictlyDescending(list, BY_TOP)
      && (forall d :: d in list <==> exists p :: SqlGroup(w, self, p) != {} && d == Aggregate(SqlGroup(w, self, p), p))
      && result == if limit < |list| then list[..limit] else list
  }

  /** The in-memory list answers the query, for every limit the query accepts. */
  lemma DialogsAnswerQuery(w: World, self: int, limit: int, list: seq<Dialog>)
    requires Reachable(w) && limit >= 1 && IsDialogList(w, self, list)
    ensures SqlDialogs(w, self, limit, Limited(list, limit))
  {
    forall p
      ensures DialogOf(w, self, p) == Aggregate(SqlGroup(w, self, p), p)
      ensures LiveRefs(w.messages, self, p, Box(w, self)) == {} <==> SqlGroup(w, self, p) == {}
    {
      DialogIsSqlRow(w, self, p);
    }
  }

  // --- ReadHistory -------------------------------------------------------------------

  /** COALESCE(MAX(pr.message_id), 0) over the caller's matching rows joined with the peer's outgoing ones. */
  ghost function SqlReceipt(refs: set<RefRow>, messages: set<Message>, self: int, peer: int, maxId: int): int {
    Max0(set r, m, pr |
           && r in refs && m in messages && pr in refs
           && m.globalId == r.globalId && pr.globalId == r.globalId && pr.userId == peer && pr.out
           && r.userId == self && !r.out && r.messageId <= maxId && Other(self, m) == peer ::
           pr.messageId)
  }

  lemma ReceiptAnswersQuery(w: World, self: int, peer: int, maxId: int)
    requires Structured(w)
    ensures ReceiptId(w, self, peer, maxId) == SqlReceipt(RefTable(w), MessageTable(w), self, peer, maxId)
  {
    var refs, ms := RefTable(w), MessageTable(w);
    var globals := ReadGlobals(w.messages, self, peer, maxId, Box(w, self));
    var ids := OutgoingIds(Box(w, peer), globals);
    var sql := set r, m, pr |
      && r in refs && m in ms && pr in refs
      && m.globalId == r.globalId && pr.globalId == r.globalId && pr.userId == peer && pr.out
      && r.userId == self && !r.out && r.messageId <= maxId && Other(self, m) == peer :: pr.messageId;
    forall x ensures x in ids <==> x in sql {
      if x in ids {
        var q :| q in Box(w, peer) && q.out && q.globalId in globals && q.localId == x;
        var r :| r in Box(w, self) && Reads(w.messages, self, peer, maxId, r) && r.globalId == q.globalId;
        RowsAreRefs(w, peer, q);
        RowsAreRefs(w, self, r);
        MessageRow(w, r.globalId, MessageAt(w.messages, r.globalId));
        assert RowOf(peer, q).messageId in sql;
      }
      if x in sql {
        var row, m, pr :|
          && row in refs && m in ms && pr in refs
          && m.globalId == row.globalId && pr.globalId == row.globalId && pr.userId == peer && pr.out
          && row.userId == self && !row.out && row.messageId <= maxId && Other(self, m) == peer && pr.messageId == x;
        RowIsRef(w, row);
        RowIsRef(w, pr);
        MessageRow(w, row.globalId, m);
        var r := Ref(row.messageId, row.globalId, row.out, row.unread);
        assert Reads(w.messages, self, peer, maxId, r);
        assert r.globalId in globals;
      }
    }
  }

  /** UPDATE message_refs SET unread = false: the table after the statement. */
  ghost function SqlMarkRead(refs: set<RefRow>, messages: set<Message>, self: int, peer: int, maxId: int): set<RefRow> {
    set row | row in refs :: if SqlReads(messages, self, peer, maxId, row) then row.(unread := false) else row
  }

  ghost predicate SqlReads(messages: set<Message>, self: int, peer: int, maxId: int, row: RefRow) {
    row.userId == self && !row.out && row.messageId <= maxId
    && exists m :: m in messages && m.globalId == row.globalId && Other(self, m) == peer
  }

  lemma RowReads(w: World, self: int, peer: int, maxId: int, u: int, r: Ref)
    requires Structured(w)
    ensures SqlReads(MessageTable(w), self, peer, maxId, RowOf(u, r))
        <==> u == self && Reads(w.messages, self, peer, maxId, r)
  {
    if u == self && Reads(w.messages, self, peer, maxId, r) {
      MessageRow(w, r.globalId, MessageAt(w.messages, r.globalId));
    }
    if SqlReads(MessageTable(w), self, peer, maxId, RowOf(u, r)) {
      var m :| m in MessageTable(w) && m.globalId == r.globalId && Other(self, m) == peer;
      MessageRow(w, r.globalId, m);
    }
  }

  /** The reference table after a read is the UPDATE applied to the table before it. */
  lemma ReadAnswersUpdate(w: World, self: int, peer: int, maxId: int, now: int)
    requires Structured(w) && self in w.accounts
    ensures RefTable(Read(w, self, peer, maxId, now)) == SqlMarkRead(RefTable(w), MessageTable(w), self, peer, maxId)
  {
    var v := Read(w, self, peer, maxId, now);
    var after := SqlMarkRead(RefTable(w), MessageTable(w), self, peer, maxId);
    forall row | row in RefTable(v) ensures row in after {
      RowIsRef(v, row);
      ReadRowBack(w, v, self, peer, maxId, now, row.userId, Ref(row.messageId, row.globalId, row.out, row.unread));
    }
    forall row | row in after ensures row in RefTable(v) {
      var before :| before in RefTable(w)
          && row == if SqlReads(MessageTable(w), self, peer, maxId, before) then before.(unread := false) else before;
      RowIsRef(w, before);
      ReadRowForth(w, v, self, peer, maxId, now, before.userId,
          Ref(before.messageId, before.globalId, before.out, before.unread));
    }
  }

  lemma ReadRowBack(w: World, v: World, self: int, peer: int, maxId: int, now: int, u: int, r: Ref)
    requires Structured(w) && self in w.accounts && v == Read(w, self, peer, maxId, now) && r in Box(v, u)
    ensures RowOf(u, r) in SqlMarkRead(RefTable(w), MessageTable(w), self, peer, maxId)
  {
    ReadViews(w, self, peer, maxId, now, u);
    var i :| 0 <= i < |Box(v, u)| && Box(v, u)[i] == r;
    var q := Box(w, u)[i];
    RowsAreRefs(w, u, q);
    RowReads(w, self, peer, maxId, u, q);
    assert RowOf(u, q) in RefTable(w);
  }

  lemma ReadRowForth(w: World, v: World, self: int, peer: int, maxId: int, now: int, u: int, q: Ref)
    requires Structured(w) && self in w.accounts && v == Read(w, self, peer, maxId, now) && q in Box(w, u)
    ensures (if SqlReads(MessageTable(w), self, peer, maxId, RowOf(u, q)) then RowOf(u, q).(unread := false)
        else RowOf(u, q)) in RefTable(v)
  {
    ReadViews(w, self, peer, maxId, now, u);
    var i :| 0 <= i < |Box(w, u)| && Box(w, u)[i] == q;
    var r := Box(v, u)[i];
    RowReads(w, self, peer, maxId, u, q);
    RowsAreRefs(v, u, r);
  }

  /** SELECT count(*): the incoming unread rows of the conversation. */
  ghost function SqlRemaining(refs: set<RefRow>, messages: set<Message>, self: int, peer: int): set<RefRow> {
    set row | row in refs && row.userId == self && !row.out && row.unread
              && exists m :: m in messages && m.globalId == row.globalId && Other(self, m) == peer
  }

  lemma RemainingRow(w: World, self: int, peer: int, r: Ref)
    requires Structured(w)
    ensures RowOf(self, r) in SqlRemaining(RefTable(w), MessageTable(w), self, peer) <==>
            r in StillUnread(w.messages, self, peer, Box(w, self))
  {
    RowsAreRefs(w, self, r);
    if Known(w.messages, r.globalId) {
      MessageRow(w, r.globalId, MessageAt(w.messages, r.globalId));
    }
    forall m | m in MessageTable(w) && m.globalId == r.globalId
      ensures Known(w.messages, r.globalId) && m == MessageAt(w.messages, r.globalId)
    {
      MessageRow(w, r.globalId, m);
    }
  }

  /** Rows of one account and its references are the same thing counted twice. */
  lemma {:induction false} SameCount(u: int, refs: set<Ref>, rows: set<RefRow>)
    requires forall r :: r in refs <==> RowOf(u, r) in rows
    requires forall row | row in rows :: row.userId == u
    ensures |rows| == |refs|
    decreases |refs|
  {
    forall row | row in rows ensures Ref(row.messageId, row.globalId, row.out, row.unread) in refs {
      assert RowOf(u, Ref(row.messageId, row.globalId, row.out, row.unread)) == row;
    }
    if refs == {} {
      assert rows == {};
    } else {
      var r := Pick(refs);
      forall q ensures q in refs - {r} <==> RowOf(u, q) in rows - {RowOf(u, r)} {
      }
      SameCount(u, refs - {r}, rows - {RowOf(u, r)});
    }
  }

  /** The reported number of unread messages is the count of the query over the tables after the read. */
  lemma RemainingAnswersQuery(w: World, self: int, peer: int)
    requires Structured(w)
    ensures |StillUnread(w.messages, self, peer, Box(w, self))| ==
            |SqlRemaining(RefTable(w), MessageTable(w), self, peer)|
  {
    forall r ensures r in StillUnread(w.messages, self, peer, Box(w, self)) <==>
                     RowOf(self, r) in SqlRemaining(RefTable(w), MessageTable(w), self, peer) {
      RemainingRow(w, self, peer, r);
    }
    SameCount(self, StillUnread(w.messages, self, peer, Box(w, self)),
              SqlRemaining(RefTable(w), MessageTable(w), self, peer));
  }

  // --- the counters and the log --------------------------------------------------------------

  /** The columns of users that sending changes. */
  datatype UserRow = UserRow(id: int, pts: int, lastMessageId: int)

  /** A row of updates_log. */
  datatype LogRow = LogRow(userId: int, entry: Entry)

  ghost function UserTable(w: World): set<UserRow> {
    set u | u in w.accounts :: UserRow(u, w.accounts[u].pts, w.accounts[u].lastId)
  }

  ghost function LogTable(w: World): set<LogRow> {
    set u, e | u in w.accounts && e in w.accounts[u].log :: LogRow(u, e)
  }

  /** UPDATE users SET last_message_id = last_message_id + 1, pts = pts + 1 for the given ids. */
  ghost function SqlAllocate(users: set<UserRow>, ids: set<int>): set<UserRow> {
    set row | row in users :: if row.id in ids then UserRow(row.id, row.pts + 1, row.lastMessageId + 1) else row
  }

  /** The rows a send inserts into updates_log: each participant's new pts and the new message. */
  ghost function InsertedLog(w: World, from: int, peer: int, now: int): set<LogRow>
    requires from in w.accounts && peer in w.accounts
  {
    {LogRow(from, Entry(w.accounts[from].pts + 1, 1, New(|w.messages| + 1), now)),
     LogRow(peer, Entry(w.accounts[peer].pts + 1, 1, New(|w.messages| + 1), now))}
  }

  lemma LogRowsAreEntries(w: World, u: int, e: Entry)
    ensures LogRow(u, e) in LogTable(w) <==> e in Log(w, u)
  {
    if LogRow(u, e) in LogTable(w) {
      var v, f :| v in w.accounts && f in w.accounts[v].log && LogRow(v, f) == LogRow(u, e);
      assert f == e;
    }
  }

  lemma SentLogRow(w: World, from: int, peer: int, text: string, randomId: int, media: int, now: int, row: LogRow)
    requires Structured(w) && from in w.accounts && peer in w.accounts
    ensures row in LogTable(Send(w, from, peer, text, randomId, media, now)) <==>
            row in LogTable(w) || row in InsertedLog(w, from, peer, now)
  {
    var v := Send(w, from, peer, text, randomId, media, now);
    SendViews(w, from, peer, text, randomId, media, now, row.userId);
    LogRowsAreEntries(v, row.userId, row.entry);
    LogRowsAreEntries(w, row.userId, row.entry);
    assert LogRow(row.userId, row.entry) == row;
  }

  /** Sending allocates one local id and one pts for each participant and logs the new message for each. */
  lemma SendAllocatesAndLogs(w: World, from: int, peer: int, text: string, randomId: int, media: int, now: int)
    requires Structured(w) && from in w.accounts && peer in w.accounts
    ensures var v := Send(w, from, peer, text, randomId, media, now);
            && UserTable(v) == SqlAllocate(UserTable(w), {from, peer})
            && LogTable(v) == LogTable(w) + InsertedLog(w, from, peer, now)
  {
    var v := Send(w, from, peer, text, randomId, media, now);
    UsersAllocated(w, from, peer, text, randomId, media, now);
    forall row ensures row in LogTable(v) <==> row in LogTable(w) || row in InsertedLog(w, from, peer, now) {
      SentLogRow(w, from, peer, text, randomId, media, now, row);
    }
  }

  lemma UsersAllocated(w: World, from: int, peer: int, text: string, randomId: int, media: int, now: int)
    requires from in w.accounts && peer in w.accounts
    ensures UserTable(Send(w, from, peer, text, randomId, media, now)) == SqlAllocate(UserTable(w), {from, peer})
  {
    var v := Send(w, from, peer, text, randomId, media, now);
    SendAccounts(w, from, peer, text, randomId, media, now, from);
    forall u | u in w.accounts
      ensures UserRow(u, v.accounts[u].pts, v.accounts[u].lastId) ==
              if u in {from, peer} then UserRow(u, w.accounts[u].pts + 1, w.accounts[u].lastId + 1)
              else UserRow(u, w.accounts[u].pts, w.accounts[u].lastId)
    {
      SendAccounts(w, from, peer, text, randomId, media, now, u);
    }
    AllocatedRows(w, v, {from, peer});
  }

  lemma AllocatedRows(w: World, v: World, ids: set<int>)
    requires v.accounts.Keys == w.accounts.Keys
    requires forall u | u in w.accounts ::
               UserRow(u, v.accounts[u].pts, v.accounts[u].lastId) ==
               if u in ids then UserRow(u, w.accounts[u].pts + 1, w.accounts[u].lastId + 1)
               else UserRow(u, w.accounts[u].pts, w.accounts[u].lastId)
    ensures UserTable(v) == SqlAllocate(UserTable(w), ids)
  {
    var users := UserTable(w);
    forall row | row in UserTable(v) ensures row in SqlAllocate(users, ids) {
      var before := UserRow(row.id, w.accounts[row.id].pts, w.accounts[row.id].lastId);
      assert before in users;
    }
    forall row | row in SqlAllocate(users, ids) ensures row in UserTable(v) {
      var before :| before in users
          && row == if before.id in ids then UserRow(before.id, before.pts + 1, before.lastMessageId + 1) else before;
      assert row.id in v.accounts;
    }
  }

  // --- SendMessage -----------------------------------------------------------------

  /** The rows SendMessage inserts into message_refs. */
  ghost function InsertedRefs(w: World, from: int, peer: int): set<RefRow> {
    {RefRow(from, |Box(w, from)| + 1, |w.messages| + 1, true, false)}
    + (if from == peer then {} else {RefRow(peer, |Box(w, peer)| + 1, |w.messages| + 1, false, true)})
  }

  lemma SentRow(w: World, v: World, m: Message, row: RefRow)
    requires SendView(w, v, m, row.userId)
    ensures row in RefTable(v) <==> row in RefTable(w) || row in InsertedRefs(w, m.from, m.peer)
  {
    var r := Ref(row.messageId, row.globalId, row.out, row.unread);
    RowsAreRefs(v, row.userId, r);
    RowsAreRefs(w, row.userId, r);
    assert RowOf(row.userId, r) == row;
  }

  /** After a send the tables hold the inserted rows besides the old ones, under keys nobody used before. */
  lemma SendAnswersInserts(w: World, from: int, peer: int, text: string, randomId: int, media: int, now: int)
    requires Structured(w) && from in w.accounts && peer in w.accounts
    ensures var v := Send(w, from, peer, text, randomId, media, now);
            var m := Message(|w.messages| + 1, from, peer, text, now, None, randomId, media, false);
            && MessageTable(v) == MessageTable(w) + {m}
            && (forall before | before in MessageTable(w) :: before.globalId != m.globalId)
            && RefTable(v) == RefTable(w) + InsertedRefs(w, from, peer)
            && (forall p, q | p in RefTable(w) && q in InsertedRefs(w, from, peer) ::
                  p.userId != q.userId || p.messageId != q.messageId)
  {
    var m := Message(|w.messages| + 1, from, peer, text, now, None, randomId, media, false);
    SendViews(w, from, peer, text, randomId, media, now, from);
    MessagesInserted(w, Send(w, from, peer, text, randomId, media, now), m);
    RefsInserted(w, from, peer, text, randomId, media, now);
    KeysFresh(w, from, peer);
  }

  lemma MessagesInserted(w: World, v: World, m: Message)
    requires v.messages == w.messages + [m] && m.globalId == |w.messages| + 1
    requires forall i | 0 <= i < |w.messages| :: w.messages[i].globalId == i + 1
    ensures MessageTable(v) == MessageTable(w) + {m}
    ensures forall before | before in MessageTable(w) :: before.globalId != m.globalId
  {
    assert forall x :: x in v.messages <==> x in w.messages || x == m;
  }

  lemma RefsInserted(w: World, from: int, peer: int, text: string, randomId: int, media: int, now: int)
    requires Structured(w) && from in w.accounts && peer in w.accounts
    ensures RefTable(Send(w, from, peer, text, randomId, media, now)) == RefTable(w) + InsertedRefs(w, from, peer)
  {
    var v := Send(w, from, peer, text, randomId, media, now);
    var m := Message(|w.messages| + 1, from, peer, text, now, None, randomId, media, false);
    forall row ensures row in RefTable(v) <==> row in RefTable(w) || row in InsertedRefs(w, from, peer) {
      SendViews(w, from, peer, text, randomId, media, now, row.userId);
      SentRow(w, v, m, row);
    }
  }

  lemma KeysFresh(w: World, from: int, peer: int)
    requires Structured(w)
    ensures forall p, q | p in RefTable(w) && q in InsertedRefs(w, from, peer) ::
              p.userId != q.userId || p.messageId != q.messageId
  {
    forall p, q | p in RefTable(w) && q in InsertedRefs(w, from, peer)
      ensures p.userId != q.userId || p.messageId != q.messageId
    {
      FreshKey(w, p);
    }
  }

  /** Stored keys do not exceed the account's counter. */
  lemma FreshKey(w: World, row: RefRow)
    requires Structured(w) && row in RefTable(w)
    ensures 1 <= row.messageId <= |Box(w, row.userId)|
  {
    RowIsRef(w, row);
    BoxesOk(w, row.userId);
  }

  // --- GetHistory ----------------------------------------------------------------------

  /** The rows of the history SELECT. */
  ghost function SqlHistory(refs: set<RefRow>, messages: set<Message>, self: int, peer: int, offsetId: int): set<View> {
    set r, m | r in refs && m in messages && m.globalId == r.globalId && r.userId == self && !m.deleted
               && Other(self, m) == peer && (offsetId > 0 ==> r.messageId < offsetId) ::
      View(m.globalId, r.messageId, m.from, Other(self, m), r.out, m.text, m.date, m.editDate, m.randomId,
          m.mediaFileId)
  }

  lemma ListedSelected(w: World, self: int, peer: int, offsetId: int, r: Ref)
    requires Structured(w) && r in Box(w, self) && Listed(w.messages, self, peer, offsetId, r)
    ensures ViewOf(self, r, MessageAt(w.messages, r.globalId))
        in SqlHistory(RefTable(w), MessageTable(w), self, peer, offsetId)
  {
    var m := MessageAt(w.messages, r.globalId);
    var row := RowOf(self, r);
    RowsAreRefs(w, self, r);
    MessageRow(w, r.globalId, m);
    assert row in RefTable(w) && m in MessageTable(w) && m.globalId == row.globalId && row.userId == self && !m.deleted;
    assert View(m.globalId, row.messageId, m.from, Other(self, m), row.out, m.text, m.date, m.editDate, m.randomId,
        m.mediaFileId)
           in SqlHistory(RefTable(w), MessageTable(w), self, peer, offsetId);
  }

  lemma SelectedListed(w: World, self: int, peer: int, offsetId: int, v: View)
    requires Structured(w) && v in SqlHistory(RefTable(w), MessageTable(w), self, peer, offsetId)
    ensures exists r :: r in Box(w, self) && Listed(w.messages, self, peer, offsetId, r)
                        && v == ViewOf(self, r, MessageAt(w.messages, r.globalId))
  {
    var row, m :| row in RefTable(w) && m in MessageTable(w) && m.globalId == row.globalId && row.userId == self
        && !m.deleted
                  && Other(self, m) == peer && (offsetId > 0 ==> row.messageId < offsetId)
                  && v == View(m.globalId, row.messageId, m.from, Other(self, m), row.out, m.text, m.date, m.editDate,
                      m.randomId, m.mediaFileId);
    RowIsRef(w, row);
    MessageRow(w, row.globalId, m);
    var r := Ref(row.messageId, row.globalId, row.out, row.unread);
    assert Listed(w.messages, self, peer, offsetId, r) && v == ViewOf(self, r, m);
  }

  /** The conversation lists exactly the selected rows, by descending message id. */
  lemma HistoryAnswersQuery(w: World, self: int, peer: int, offsetId: int)
    requires Reachable(w)
    ensures var list := Conversation(w.messages, self, peer, offsetId, Box(w, self));
            && StrictlyDescending(list, BY_LOCAL_ID)
            && forall v :: v in list <==> v in SqlHistory(RefTable(w), MessageTable(w), self, peer, offsetId)
  {
    ReachableInv(w);
    BoxesOk(w, self);
    var list := Conversation(w.messages, self, peer, offsetId, Box(w, self));
    var sql := SqlHistory(RefTable(w), MessageTable(w), self, peer, offsetId);
    ConversationMembers(w.messages, self, peer, offsetId, Box(w, self));
    forall v | v in list ensures v in sql {
      var r :| r in Box(w, self) && Listed(w.messages, self, peer, offsetId, r)
          && v == ViewOf(self, r, MessageAt(w.messages, r.globalId));
      ListedSelected(w, self, peer, offsetId, r);
    }
    forall v | v in sql ensures v in list {
      SelectedListed(w, self, peer, offsetId, v);
    }
  }
}
