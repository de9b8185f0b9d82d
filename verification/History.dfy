/** A conversation as one participant sees it, and reading it page by page. */
module History {
  import opened Prelude
  import opened Messaging
  import opened Structure

  /** One account's view of a message, as every reader returns it. */
  datatype View = View(
    globalId: int, localId: int, from: int, peer: int, out: bool, text: string, date: int,
    editDate: Option<int>, randomId: int, mediaFileId: int)

  function ViewOf(self: int, r: Ref, m: Message): View {
    View(m.globalId, r.localId, m.from, Other(self, m), r.out, m.text, m.date, m.editDate, m.randomId, m.mediaFileId)
  }

  /** The reference is listed in the conversation below `offsetId` (0 or less: no bound). */
  predicate Listed(ms: seq<Message>, self: int, peer: int, offsetId: int, r: Ref) {
    Live(ms, r) && With(ms, self, peer, r) && (offsetId > 0 ==> r.localId < offsetId)
  }

  /** The conversation, newest first. */
  function Conversation(ms: seq<Message>, self: int, peer: int, offsetId: int, box: seq<Ref>): seq<View> {
    if box == [] then []
    else
      var r := box[|box| - 1];
      var rest := Conversation(ms, self, peer, offsetId, box[..|box| - 1]);
      if Listed(ms, self, peer, offsetId, r) then [ViewOf(self, r, MessageAt(ms, r.globalId))] + rest else rest
  }

  const BY_LOCAL_ID := (v: View) => v.localId

  /** Exactly the listed references, each once, newest first. */
  lemma {:induction false} ConversationMembers(ms: seq<Message>, self: int, peer: int, offsetId: int, box: seq<Ref>)
    requires BoxOk(ms, self, box)
    ensures forall v :: v in Conversation(ms, self, peer, offsetId, box) <==>
              exists r :: r in box && Listed(ms, self, peer, offsetId, r)
                  && v == ViewOf(self, r, MessageAt(ms, r.globalId))
    ensures StrictlyDescending(Conversation(ms, self, peer, offsetId, box), BY_LOCAL_ID)
    ensures forall v | v in Conversation(ms, self, peer, offsetId, box) :: 1 <= v.localId <= |box|
  {
    if box != [] {
      var init := box[..|box| - 1];
      var last := box[|box| - 1];
      assert box == init + [last];
      assert BoxOk(ms, self, init);
      ConversationMembers(ms, self, peer, offsetId, init);
      var rest := Conversation(ms, self, peer, offsetId, init);
      if Listed(ms, self, peer, offsetId, last) {
        PutFirst(rest, ViewOf(self, last, MessageAt(ms, last.globalId)));
      }
      forall v
        ensures (exists r ::
                   r in box && Listed(ms, self, peer, offsetId, r) && v == ViewOf(self, r, MessageAt(ms, r.globalId)))
             <==>
                v in rest ||
                (Listed(ms, self, peer, offsetId, last) && v == ViewOf(self, last, MessageAt(ms, last.globalId)))
      {
        ShownGrows(ms, self, peer, offsetId, init, last, v);
      }
    }
  }

  lemma PutFirst(rest: seq<View>, head: View)
    requires StrictlyDescending(rest, BY_LOCAL_ID) && forall v | v in rest :: v.localId < head.localId
    ensures StrictlyDescending([head] + rest, BY_LOCAL_ID)
    ensures forall v :: v in [head] + rest <==> v == head || v in rest
  {
    var all := [head] + rest;
    forall i, j | 0 <= i < j < |all| ensures BY_LOCAL_ID(all[i]) > BY_LOCAL_ID(all[j]) {
      assert all[j] == rest[j - 1] && rest[j - 1] in rest;
    }
  }

  lemma ShownGrows(ms: seq<Message>, self: int, peer: int, offsetId: int, init: seq<Ref>, last: Ref, v: View)
    ensures (exists r ::
               && r in init + [last] && Listed(ms, self, peer, offsetId, r)
               && v == ViewOf(self, r, MessageAt(ms, r.globalId)))
        <==> (exists r ::
                r in init && Listed(ms, self, peer, offsetId, r) && v == ViewOf(self, r, MessageAt(ms, r.globalId)))
             || (Listed(ms, self, peer, offsetId, last) && v == ViewOf(self, last, MessageAt(ms, last.globalId)))
  {
    var box := init + [last];
    if r :| r in init && Listed(ms, self, peer, offsetId, r) && v == ViewOf(self, r, MessageAt(ms, r.globalId)) {
      assert r in box;
    }
    if r :| r in box && Listed(ms, self, peer, offsetId, r) && v == ViewOf(self, r, MessageAt(ms, r.globalId)) {
      assert r == last || r in init;
    }
    assert last in box;
  }

  /** Asking below the k-th listed message gives exactly what follows it. */
  lemma ConversationBelow(ms: seq<Message>, self: int, peer: int, offsetId: int, box: seq<Ref>, k: int)
    requires BoxOk(ms, self, box)
    requires 0 <= k < |Conversation(ms, self, peer, offsetId, box)|
    ensures var all := Conversation(ms, self, peer, offsetId, box);
            Conversation(ms, self, peer, all[k].localId, box) == all[k + 1..]
  {
    var all := Conversation(ms, self, peer, offsetId, box);
    ConversationMembers(ms, self, peer, offsetId, box);
    assert all[k] in all;
    var below := all[k].localId;
    var next := Conversation(ms, self, peer, below, box);
    ConversationMembers(ms, self, peer, below, box);
    forall v ensures v in next <==> v in all[k + 1..] {
      DescendingBelow(all, BY_LOCAL_ID, k, v);
      if v in all && v.localId < below {
        var r :| r in box && Listed(ms, self, peer, offsetId, r) && v == ViewOf(self, r, MessageAt(ms, r.globalId));
        assert Listed(ms, self, peer, below, r);
      }
      if v in next {
        var r :| r in box && Listed(ms, self, peer, below, r) && v == ViewOf(self, r, MessageAt(ms, r.globalId));
        var top :| top in box && Listed(ms, self, peer, offsetId, top)
            && all[k] == ViewOf(self, top, MessageAt(ms, top.globalId));
        assert Listed(ms, self, peer, offsetId, r);
      }
    }
    SortedUnique(next, all[k + 1..], BY_LOCAL_ID);
  }

  lemma DescendingBelow<T>(xs: seq<T>, key: T -> int, k: int, x: T)
    requires StrictlyDescending(xs, key) && 0 <= k < |xs|
    ensures x in xs[k + 1..] <==> x in xs && key(x) < key(xs[k])
  {
    if x in xs && key(x) < key(xs[k]) {
      var i :| 0 <= i < |xs| && xs[i] == x;
      assert i > k;
      assert xs[k + 1..][i - k - 1] == x;
    }
    if x in xs[k + 1..] {
      var i :| 0 <= i < |xs| - k - 1 && xs[k + 1..][i] == x;
      assert xs[k + 1 + i] == x;
    }
  }

  /** One call of GetHistory. */
  function Page(ms: seq<Message>, self: int, peer: int, offsetId: int, limit: int, box: seq<Ref>): seq<View> {
    Limited(Conversation(ms, self, peer, offsetId, box), limit)
  }

  /** A page is a prefix, and the next page starts where it stops. */
  lemma PageThenRest(ms: seq<Message>, self: int, peer: int, offsetId: int, limit: int, box: seq<Ref>)
    requires BoxOk(ms, self, box)
    ensures var all := Conversation(ms, self, peer, offsetId, box);
            var page := Page(ms, self, peer, offsetId, limit, box);
            && (page == [] <==> all == [])
            && (page != [] ==>
                  all == page + Conversation(ms, self, peer, page[|page| - 1].localId, box))
  {
    var all := Conversation(ms, self, peer, offsetId, box);
    var page := Page(ms, self, peer, offsetId, limit, box);
    if page != [] {
      ConversationBelow(ms, self, peer, offsetId, box, |page| - 1);
      assert all == all[..|page|] + all[|page|..];
    }
  }

  /** Calling GetHistory again from the last local id of each page until a page is empty. */
  ghost function Pages(ms: seq<Message>, self: int, peer: int, offsetId: int, limit: int, box: seq<Ref>): seq<View>
    requires BoxOk(ms, self, box)
    decreases |Conversation(ms, self, peer, offsetId, box)|
  {
    PageThenRest(ms, self, peer, offsetId, limit, box);
    var page := Page(ms, self, peer, offsetId, limit, box);
    if page == [] then [] else page + Pages(ms, self, peer, page[|page| - 1].localId, limit, box)
  }

  /** Paging stops, loses nothing and repeats nothing. */
  lemma {:induction false} HistoryPagingLossless(ms: seq<Message>, self: int, peer: int, offsetId: int, limit: int,
      box: seq<Ref>)
    requires BoxOk(ms, self, box)
    ensures Pages(ms, self, peer, offsetId, limit, box) == Conversation(ms, self, peer, offsetId, box)
    decreases |Conversation(ms, self, peer, offsetId, box)|
  {
    PageThenRest(ms, self, peer, offsetId, limit, box);
    var page := Page(ms, self, peer, offsetId, limit, box);
    if page != [] {
      HistoryPagingLossless(ms, self, peer, page[|page| - 1].localId, limit, box);
    }
  }
}
