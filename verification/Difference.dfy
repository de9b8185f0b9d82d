/** Reading the update log from a given pts, at once or page by page. */
module Difference {
  import opened Prelude
  import opened Messaging
  import opened UpdateLog

  /** The entries above `since`, in log order. */
  function Pending(log: seq<Entry>, since: int): seq<Entry> {
    if log == [] then []
    else
      var init := Pending(log[..|log| - 1], since);
      if log[|log| - 1].pts > since then init + [log[|log| - 1]] else init
  }

  lemma {:induction false} PtsIncrease(log: seq<Entry>, pts: int, i: int, j: int)
    requires Gapless(log, pts) && 0 <= i < j < |log|
    ensures log[i].pts < log[j].pts
  {
    assert Chained(log, j);
    if i < j - 1 {
      PtsIncrease(log, pts, i, j - 1);
    }
  }

  lemma {:induction false} PendingPrefix(log: seq<Entry>, pts: int, since: int, n: nat) returns (k: nat)
    requires Gapless(log, pts) && n <= |log|
    ensures k <= n && Pending(log[..n], since) == log[k..n]
    ensures forall i | 0 <= i < k :: log[i].pts <= since
    ensures forall i | k <= i < n :: log[i].pts > since
  {
    if n == 0 {
      k := 0;
    } else {
      k := PendingPrefix(log, pts, since, n - 1);
      assert log[..n][..n - 1] == log[..n - 1];
      if k < n - 1 {
        PtsIncrease(log, pts, n - 2, n - 1);
      } else if log[n - 1].pts <= since {
        k := n;
      }
      assert k < n ==> log[k..n] == log[k..n - 1] + [log[n - 1]];
    }
  }

  /** What is pending is a suffix of the log: everything from the first entry above `since`. */
  lemma PendingIsSuffix(log: seq<Entry>, pts: int, since: int) returns (k: nat)
    requires Gapless(log, pts)
    ensures k <= |log| && Pending(log, since) == log[k..]
    ensures forall i | 0 <= i < k :: log[i].pts <= since
    ensures forall i | k <= i < |log| :: log[i].pts > since
  {
    k := PendingPrefix(log, pts, since, |log|);
    assert log[..|log|] == log && log[k..|log|] == log[k..];
  }

  /** From a log boundary, what is pending is everything logged after it. */
  lemma PendingFromBoundary(log: seq<Entry>, pts: int, k: int)
    requires Gapless(log, pts) && 0 <= k <= |log|
    ensures Pending(log, PtsBefore(log, k)) == log[k..]
  {
    var j := PendingIsSuffix(log, pts, PtsBefore(log, k));
    if k < |log| {
      if k > 0 {
        PtsIncrease(log, pts, k - 1, k);
      }
      assert Chained(log, k);
      assert j <= k;
    }
    if k == 0 && |log| > 0 {
      assert j == 0;
    }
  }

  /** The pts a client has after applying some entries. */
  function PtsAfter(entries: seq<Entry>, since: int): int {
    if entries == [] then since else entries[|entries| - 1].pts
  }

  lemma PendingPage(log: seq<Entry>, pts: int, since: int, limit: int)
    requires Gapless(log, pts)
    ensures var all := Pending(log, since);
            var page := Limited(all, limit);
            && (page == [] <==> all == [])
            && all == page + Pending(log, PtsAfter(page, since))
  {
    var k := PendingIsSuffix(log, pts, since);
    PageThenRest(log, pts, since, k, limit);
  }

  /** A page of a suffix, and what is pending at the pts of its last entry. */
  lemma PageThenRest(log: seq<Entry>, pts: int, since: int, k: nat, limit: int)
    requires Gapless(log, pts) && k <= |log| && Pending(log, since) == log[k..]
    ensures var page := Limited(log[k..], limit);
            && (page == [] <==> log[k..] == [])
            && log[k..] == page + Pending(log, PtsAfter(page, since))
  {
    var page := Limited(log[k..], limit);
    if page != [] {
      var n := k + |page|;
      assert page == log[k..n] && log[k..] == log[k..n] + log[n..];
      assert page[|page| - 1] == log[n - 1];
      PendingFromBoundary(log, pts, n);
    }
  }

  /** Calling GetDifference again from the last pts of each page until a page is empty. */
  ghost function DifferencePages(log: seq<Entry>, pts: int, since: int, limit: int): seq<Entry>
    requires Gapless(log, pts)
    decreases |Pending(log, since)|
  {
    PendingPage(log, pts, since, limit);
    var page := Limited(Pending(log, since), limit);
    if page == [] then [] else page + DifferencePages(log, pts, PtsAfter(page, since), limit)
  }

  /** Paging stops, loses nothing and repeats nothing. */
  lemma {:induction false} DifferencePagingLossless(log: seq<Entry>, pts: int, since: int, limit: int)
    requires Gapless(log, pts)
    ensures DifferencePages(log, pts, since, limit) == Pending(log, since)
    decreases |Pending(log, since)|
  {
    PendingPage(log, pts, since, limit);
    var page := Limited(Pending(log, since), limit);
    if page != [] {
      DifferencePagingLossless(log, pts, PtsAfter(page, since), limit);
    }
  }

  function SumCounts(entries: seq<Entry>): int {
    if entries == [] then 0 else SumCounts(entries[..|entries| - 1]) + entries[|entries| - 1].ptsCount
  }

  lemma {:induction false} RangeCounts(log: seq<Entry>, pts: int, k: nat, n: nat)
    requires Gapless(log, pts) && k <= n <= |log|
    ensures SumCounts(log[k..n]) == PtsBefore(log, n) - PtsBefore(log, k)
  {
    if k < n {
      RangeCounts(log, pts, k, n - 1);
      assert Chained(log, n - 1);
      assert log[k..n][..n - 1 - k] == log[k..n - 1];
    }
  }

  /** The pts counts of what is pending from a boundary add up to the distance to the current pts. */
  lemma PendingCounts(log: seq<Entry>, pts: int, k: int)
    requires Gapless(log, pts) && 0 <= k <= |log|
    ensures SumCounts(Pending(log, PtsBefore(log, k))) == pts - PtsBefore(log, k)
  {
    PendingFromBoundary(log, pts, k);
    RangeCounts(log, pts, k, |log|);
    assert log[k..|log|] == log[k..];
  }
}
