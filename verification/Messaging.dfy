/**
 The messaging tables of memory/db.go and what each mutating method does to them.

 A `World` lists, per account, the message view (`box`, one reference per local id) and the
 durable update log, next to the canonical messages. Local id `l` is `box[l - 1]` and global
 id `g` is `messages[g - 1]`. Time is an argument of every operation that reads the clock.
 */
module Messaging {
  import opened Prelude

  const BOT_FATHER_ID := 93372553

  /** A canonical message, shared by both participants of a direct conversation. */
  datatype Message = Message(
    globalId: int, from: int, peer: int, text: string, date: int, editDate: Option<int>,
    randomId: int, mediaFileId: int, deleted: bool)

  /** One participant's view of a canonical message. */
  datatype Ref = Ref(localId: int, globalId: int, out: bool, unread: bool)

  /** The type of a log entry together with its decoded payload. */
  datatype Update =
    | New(globalId: int)
    | Edit(globalId: int)
    | Delete(ids: seq<int>)
    | ReadInbox(peer: int, maxId: int)
    | ReadOutbox(peer: int, maxId: int)

  datatype Entry = Entry(pts: int, ptsCount: int, update: Update, date: int)

  datatype Account = Account(pts: int, lastId: int, box: seq<Ref>, log: seq<Entry>)

  datatype World = World(userSeq: int, accounts: map<int, Account>, messages: seq<Message>)

  const INITIAL := World(0, map[BOT_FATHER_ID := Account(0, 0, [], [])], [])

  function Box(w: World, u: int): seq<Ref> {
    if u in w.accounts then w.accounts[u].box else []
  }

  function Log(w: World, u: int): seq<Entry> {
    if u in w.accounts then w.accounts[u].log else []
  }

  predicate Known(ms: seq<Message>, g: int) {
    1 <= g <= |ms|
  }

  function MessageAt(ms: seq<Message>, g: int): Message
    requires Known(ms, g)
  {
    ms[g - 1]
  }

  /** The partner of `self` in the conversation a message belongs to. */
  function Other(self: int, m: Message): int {
    if m.from == self then m.peer else m.from
  }

  /** The reference belongs to the conversation of `self` with `peer`. */
  predicate With(ms: seq<Message>, self: int, peer: int, r: Ref) {
    Known(ms, r.globalId) && Other(self, MessageAt(ms, r.globalId)) == peer
  }

  predicate Live(ms: seq<Message>, r: Ref) {
    Known(ms, r.globalId) && !MessageAt(ms, r.globalId).deleted
  }

  // --- one account ---------------------------------------------------------

  /** Storing a reference under its local id: a new key, or the replacement of an old one. */
  function PutRef(box: seq<Ref>, r: Ref): seq<Ref> {
    if 1 <= r.localId <= |box| then box[r.localId - 1 := r] else box + [r]
  }

  /** Allocate a local id and a pts together, store the reference, log the new message. */
  function Receive(a: Account, g: int, out: bool, now: int): Account {
    var id := a.lastId + 1;
    Account(a.pts + 1, id, PutRef(a.box, Ref(id, g, out, !out)), a.log + [Entry(a.pts + 1, 1, New(g), now)])
  }

  /** Advance the pts by `count` and log the update that used them. */
  function Posted(a: Account, count: int, update: Update, now: int): Account {
    a.(pts := a.pts + count, log := a.log + [Entry(a.pts + count, count, update, now)])
  }

  function Post(w: World, u: int, count: int, update: Update, now: int): World {
    if u in w.accounts
    then w.(accounts := w.accounts[u := Posted(w.accounts[u], count, update, now)])
    else w
  }

  // --- the mutating methods ------------------------------------------------

  /** A fresh account under the next user id; a colliding id loses its counters, not its tables. */
  function Create(w: World): World {
    var id := w.userSeq + 1;
    w.(userSeq := id, accounts := w.accounts[id := Account(0, 0, Box(w, id), Log(w, id))])
  }

  function Deliver(w: World, u: int, g: int, out: bool, now: int): World
    requires u in w.accounts
  {
    w.(accounts := w.accounts[u := Receive(w.accounts[u], g, out, now)])
  }

  function Send(w: World, from: int, peer: int, text: string, randomId: int, mediaFileId: int, now: int): World
    requires from in w.accounts && peer in w.accounts
  {
    var g := |w.messages| + 1;
    var m := Message(g, from, peer, text, now, None, randomId, mediaFileId, false);
    var sent := Deliver(w.(messages := w.messages + [m]), from, g, true, now);
    if from == peer then sent else Deliver(sent, peer, g, false, now)
  }

  /** The caller holds the message, sent it, and nobody deleted it. */
  predicate Editable(w: World, self: int, localId: int) {
    1 <= localId <= |Box(w, self)|
    && var g := Box(w, self)[localId - 1].globalId;
    Known(w.messages, g) && !MessageAt(w.messages, g).deleted && MessageAt(w.messages, g).from == self
  }

  function EditText(w: World, self: int, localId: int, text: string, now: int): World {
    if !Editable(w, self, localId) then w
    else
      var g := Box(w, self)[localId - 1].globalId;
      var m := MessageAt(w.messages, g);
      var edited := w.(messages := w.messages[g - 1 := m.(text := text, editDate := Some(now))]);
      var logged := Post(edited, self, 1, Edit(g), now);
      if m.peer == self then logged else Post(logged, m.peer, 1, Edit(g), now)
  }

  /** The requested ids the account has, in request order; repetitions stay. */
  function Held(box: seq<Ref>, ids: seq<int>): seq<int> {
    if ids == [] then []
    else
      var init := Held(box, ids[..|ids| - 1]);
      if 1 <= ids[|ids| - 1] <= |box| then init + [ids[|ids| - 1]] else init
  }

  ghost function GlobalIds(box: seq<Ref>, ids: seq<int>): set<int> {
    set l | l in ids && 1 <= l <= |box| :: box[l - 1].globalId
  }

  function Marked(messages: seq<Message>, gone: set<int>): seq<Message> {
    seq(|messages|, i requires 0 <= i < |messages| =>
      if i + 1 in gone then messages[i].(deleted := true) else messages[i])
  }

  ghost function DeleteIds(w: World, self: int, ids: seq<int>, now: int): World {
    var held := Held(Box(w, self), ids);
    if held == [] then w
    else
      var gone := w.(messages := Marked(w.messages, GlobalIds(Box(w, self), held)));
      Post(gone, self, |held|, Delete(held), now)
  }

  /** The references a read of the conversation with `peer` up to `maxId` touches. */
  predicate Reads(ms: seq<Message>, self: int, peer: int, maxId: int, r: Ref) {
    !r.out && r.localId <= maxId && With(ms, self, peer, r)
  }

  function ReadRef(ms: seq<Message>, self: int, peer: int, maxId: int, r: Ref): Ref {
    if Reads(ms, self, peer, maxId, r) then r.(unread := false) else r
  }

  function ReadBox(ms: seq<Message>, self: int, peer: int, maxId: int, box: seq<Ref>): seq<Ref> {
    seq(|box|, i requires 0 <= i < |box| => ReadRef(ms, self, peer, maxId, box[i]))
  }

  ghost function ReadGlobals(ms: seq<Message>, self: int, peer: int, maxId: int, box: seq<Ref>): set<int> {
    set r | r in box && Reads(ms, self, peer, maxId, r) :: r.globalId
  }

  /** Local ids of outgoing references to one of the given messages. */
  ghost function OutgoingIds(box: seq<Ref>, globals: set<int>): set<int> {
    set r | r in box && r.out && r.globalId in globals :: r.localId
  }

  /** The peer's greatest outgoing local id among the messages being read; 0 when none. */
  ghost function ReceiptId(w: World, self: int, peer: int, maxId: int): int {
    Max0(OutgoingIds(Box(w, peer), ReadGlobals(w.messages, self, peer, maxId, Box(w, self))))
  }

  ghost function Read(w: World, self: int, peer: int, maxId: int, now: int): World
    requires self in w.accounts
  {
    var receipt := ReceiptId(w, self, peer, maxId);
    var a := w.accounts[self];
    var read := w.(accounts := w.accounts[self := a.(box := ReadBox(w.messages, self, peer, maxId, a.box))]);
    var logged := Post(read, self, 1, ReadInbox(peer, maxId), now);
    if receipt > 0 && peer != self then Post(logged, peer, 1, ReadOutbox(self, receipt), now) else logged
  }

  // --- runs ------------------------------------------------------------------

  /** One call of a mutating method. The mutex serialises calls, so a run is a sequence of them. */
  datatype Op =
    | CreateOp
    | SendOp(from: int, peer: int, text: string, randomId: int, mediaFileId: int, now: int)
    | EditOp(self: int, localId: int, text: string, now: int)
    | DeleteOp(self: int, ids: seq<int>, now: int)
    | ReadOp(self: int, peer: int, maxId: int, now: int)

  /** What the callers guarantee: accounts exist, and user ids do not reach the built-in one. */
  predicate Enabled(w: World, op: Op) {
    match op
    case CreateOp => w.userSeq + 1 != BOT_FATHER_ID
    case SendOp(from, peer, _, _, _, _) => from in w.accounts && peer in w.accounts
    case EditOp(_, _, _, _) => true
    case DeleteOp(_, _, _) => true
    case ReadOp(self, _, _, _) => self in w.accounts
  }

  ghost function Step(w: World, op: Op): World
    requires Enabled(w, op)
  {
    match op
    case CreateOp => Create(w)
    case SendOp(from, peer, text, randomId, media, now) => Send(w, from, peer, text, randomId, media, now)
    case EditOp(self, localId, text, now) => EditText(w, self, localId, text, now)
    case DeleteOp(self, ids, now) => DeleteIds(w, self, ids, now)
    case ReadOp(self, peer, maxId, now) => Read(w, self, peer, maxId, now)
  }

  ghost function Run(w: World, ops: seq<Op>): Option<World> {
    if ops == [] then Some(w)
    else
      match Run(w, ops[..|ops| - 1])
      case None => None
      case Some(v) => if Enabled(v, ops[|ops| - 1]) then Some(Step(v, ops[|ops| - 1])) else None
  }

  ghost predicate Reachable(w: World) {
    exists ops :: Run(INITIAL, ops) == Some(w)
  }
}
