/** How the maps of the in-memory database stand for boxes and message sequences. */
module Tables {
  import opened Messaging

  /** The keys of a local-id map are 1..n. */
  ghost predicate Dense(m: map<int, Ref>) {
    forall l :: l in m <==> 1 <= l <= |m|
  }

  ghost function BoxSeq(m: map<int, Ref>): seq<Ref>
    requires Dense(m)
  {
    seq(|m|, i requires 0 <= i < |m| => m[i + 1])
  }

  ghost function MessageSeq(m: map<int, Message>, n: int): seq<Message>
    requires n >= 0 && forall g :: g in m <==> 1 <= g <= n
  {
    seq(n, i requires 0 <= i < n => m[i + 1])
  }

  function RefsOf(refs: map<int, map<int, Ref>>, u: int): map<int, Ref> {
    if u in refs then refs[u] else map[]
  }

  function UpdatesOf(updates: map<int, seq<Entry>>, u: int): seq<Entry> {
    if u in updates then updates[u] else []
  }

  ghost predicate Numbered(box: seq<Ref>) {
    forall i | 0 <= i < |box| :: box[i].localId == i + 1
  }

  /** The message map as the sequence it represents. */
  ghost predicate Mirrors(stored: map<int, Message>, ms: seq<Message>) {
    && (forall g :: g in stored <==> Known(ms, g))
    && (forall g | Known(ms, g) :: stored[g] == MessageAt(ms, g))
  }

  /** The counted references outside the local ids still to visit. */
  ghost function Visited(counted: set<Ref>, rest: set<int>): set<Ref> {
    set r | r in counted && r.localId !in rest
  }

  lemma VisitOne(box: seq<Ref>, counted: set<Ref>, rest: set<int>, l: int)
    requires forall i | 0 <= i < |box| :: box[i].localId == i + 1
    requires forall r | r in counted :: r in box
    requires l in rest && 1 <= l <= |box|
    ensures Visited(counted, rest - {l}) == Visited(counted, rest)
        + (if box[l - 1] in counted then {box[l - 1]} else {})
    ensures |Visited(counted, rest - {l})| == |Visited(counted, rest)| + (if box[l - 1] in counted then 1 else 0)
  {
    forall r | r in counted && r.localId == l ensures r == box[l - 1] {
      var i :| 0 <= i < |box| && box[i] == r;
    }
    assert box[l - 1] !in Visited(counted, rest);
    assert Visited(counted, rest - {l}) == Visited(counted, rest)
        + (if box[l - 1] in counted then {box[l - 1]} else {});
  }

  lemma PutKeepsDense(m: map<int, Ref>, r: Ref)
    requires Dense(m) && 1 <= r.localId <= |m| + 1
    ensures Dense(m[r.localId := r])
    ensures BoxSeq(m[r.localId := r]) == PutRef(BoxSeq(m), r)
  {
    var n := m[r.localId := r];
    assert r.localId in m <==> r.localId <= |m|;
    assert |n| == if r.localId in m then |m| else |m| + 1;
  }
}
