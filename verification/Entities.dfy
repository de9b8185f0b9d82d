/**
 Detected entities of a text: trimming, greedy selection and UTF-16 positions.

 Text is a sequence of Unicode scalar values; which of them are letters is a parameter. Matches of
 one pattern are found leftmost first, each as long as possible, without overlap.
 */
module Entities {
  import opened Prelude

  datatype Kind = Url | Mention | Hashtag

  datatype Span = Span(start: nat, end: nat, kind: Kind)

  datatype Entity = Entity(kind: Kind, offset: int, length: int)

  /** Punctuation that is not swallowed into a link. */
  const URL_TRAILING := ".,!?;:)]}'\"\U{00BB}\U{2026}"

  /** The first character of a match tells its kind. */
  predicate Leads(kind: Kind, c: char) {
    match kind
    case Url => c == 'h' || c == 'H' || c == 'w' || c == 'W'
    case Mention => c == '@'
    case Hashtag => c == '#'
  }

  ghost predicate Matches(text: string, locs: seq<(nat, nat)>, kind: Kind) {
    && (forall i | 0 <= i < |locs| :: locs[i].0 < locs[i].1 <= |text| && Leads(kind, text[locs[i].0]))
    && (forall i, j | 0 <= i < j < |locs| :: locs[i].1 <= locs[j].0)
  }

  // --- the three patterns ------------------------------------------------------------

  /** Case-insensitive comparison with a lower-case letter of the link pattern; the long s folds to s. */
  predicate Folds(c: char, letter: char)
    requires 'a' <= letter <= 'z'
  {
    c == letter || c as int == letter as int - 32 || (letter == 's' && c == '\U{017F}')
  }

  predicate HasPrefix(text: string, i: nat, prefix: string) {
    i + |prefix| <= |text|
    && forall k | 0 <= k < |prefix| ::
         if 'a' <= prefix[k] <= 'z' then Folds(text[i + k], prefix[k]) else text[i + k] == prefix[k]
  }

  predicate NonSpace(c: char) {
    c !in "\t\n\r \U{000C}"
  }

  predicate WordChar(c: char) {
    'A' <= c <= 'Z' || 'a' <= c <= 'z' || '0' <= c <= '9' || c == '_'
  }

  /** How many characters from `i` on satisfy `p`. */
  function RunLength(text: string, i: nat, p: char -> bool): (n: nat)
    requires i <= |text|
    ensures i + n <= |text|
    ensures forall k | i <= k < i + n :: p(text[k])
    ensures i + n < |text| ==> !p(text[i + n])
    decreases |text| - i
  {
    if i < |text| && p(text[i]) then 1 + RunLength(text, i + 1, p) else 0
  }

  /** A lead of `n` characters followed by as many as satisfy `p`, at least one and at most `max` if positive. */
  function LeadAndRun(text: string, i: nat, n: nat, p: char -> bool, max: nat): (len: nat)
    requires i + n <= |text|
    ensures i + len <= |text| && (len > 0 ==> len > n && forall k | i + n <= k < i + len :: p(text[k]))
    ensures max > 0 ==> len <= n + max
  {
    var run := RunLength(text, i + n, p);
    if run == 0 then 0 else n + (if 0 < max < run then max else run)
  }

  lemma PrefixLeads(text: string, i: nat, prefix: string, letter: char)
    requires HasPrefix(text, i, prefix) && prefix != [] && prefix[0] == letter && 'a' <= letter <= 'z'
    ensures Folds(text[i], letter)
  {
    assert text[i + 0] == text[i];
  }

  /** The length of the link pattern's fixed beginning at position `i`; 0 where it does not match. */
  function LinkPrefix(text: string, i: nat): nat {
    if HasPrefix(text, i, "https://") then 8
    else if HasPrefix(text, i, "http://") then 7
    else if HasPrefix(text, i, "www.") then 4
    else 0
  }

  predicate TagChar(letters: set<char>, c: char) {
    c in letters || '0' <= c <= '9' || c == '_'
  }

  /** The string begins with one of the fixed beginnings of links, of length `n`. */
  predicate BeginsLink(m: string, n: int) {
    || (n == 8 && HasPrefix(m, 0, "https://"))
    || (n == 7 && HasPrefix(m, 0, "http://"))
    || (n == 4 && HasPrefix(m, 0, "www."))
  }

  ghost predicate IsLink(m: string) {
    exists n :: BeginsLink(m, n) && n < |m| && forall k | n <= k < |m| :: NonSpace(m[k])
  }

  /** The whole string is one match of the pattern. */
  ghost predicate Pattern(kind: Kind, m: string, letters: set<char>) {
    match kind
    case Url => IsLink(m)
    case Mention =>
      2 <= |m| <= 33 && m[0] == '@' && forall k | 1 <= k < |m| :: WordChar(m[k])
    case Hashtag =>
      2 <= |m| && m[0] == '#' && forall k | 1 <= k < |m| :: TagChar(letters, m[k])
  }

  /** The length of the pattern's match at position `i`; 0 where it does not match. */
  function MatchLength(text: string, i: nat, kind: Kind, letters: set<char>): (len: nat)
    requires i < |text|
    ensures i + len <= |text|
  {
    match kind
    case Url =>
      var n := LinkPrefix(text, i);
      if n == 0 then 0 else LeadAndRun(text, i, n, NonSpace, 0)
    case Mention => if text[i] == '@' then LeadAndRun(text, i, 1, WordChar, 32) else 0
    case Hashtag =>
      if text[i] == '#' then LeadAndRun(text, i, 1, c => TagChar(letters, c), 0) else 0
  }

  lemma MatchLeads(text: string, i: nat, kind: Kind, letters: set<char>)
    requires i < |text| && MatchLength(text, i, kind, letters) > 0
    ensures Leads(kind, text[i])
  {
    if kind.Url? {
      if HasPrefix(text, i, "https://") {
        PrefixLeads(text, i, "https://", 'h');
      } else if HasPrefix(text, i, "http://") {
        PrefixLeads(text, i, "http://", 'h');
      } else {
        PrefixLeads(text, i, "www.", 'w');
      }
      assert text[i] as int in {'h' as int, 'H' as int, 'w' as int, 'W' as int};
    }
  }

  lemma PrefixInside(text: string, i: nat, len: nat, prefix: string)
    requires i + len <= |text| && |prefix| <= len
    ensures HasPrefix(text[i..i + len], 0, prefix) <==> HasPrefix(text, i, prefix)
  {
    var m := text[i..i + len];
    assert forall k | 0 <= k < |prefix| :: m[k] == text[i + k];
  }

  /** Cutting the text behind the fixed beginning of a link leaves that beginning. */
  lemma LinkPrefixInside(text: string, i: nat, len: nat)
    requires i + len <= |text| && 0 < LinkPrefix(text, i) <= len
    ensures LinkPrefix(text[i..i + len], 0) == LinkPrefix(text, i)
  {
    if len >= 8 {
      PrefixInside(text, i, len, "https://");
    }
    if len >= 7 {
      PrefixInside(text, i, len, "http://");
    }
    PrefixInside(text, i, len, "www.");
  }

  /** The beginnings exclude each other. */
  lemma PrefixesExclude(m: string)
    ensures HasPrefix(m, 0, "http://") ==> !HasPrefix(m, 0, "https://")
    ensures HasPrefix(m, 0, "www.") ==> !HasPrefix(m, 0, "https://") && !HasPrefix(m, 0, "http://")
  {
    assert "http://"[4] == ':' && "https://"[4] == 's';
    assert "www."[0] == 'w' && "http://"[0] == 'h' && "https://"[0] == 'h';
  }

  lemma LinkPrefixBegins(m: string, n: int)
    ensures BeginsLink(m, n) <==> n == LinkPrefix(m, 0) && n > 0
  {
    PrefixesExclude(m);
  }

  /** A link is its beginning and at least one more character, none of them a space. */
  lemma LinkIff(m: string)
    ensures IsLink(m) <==>
            0 < LinkPrefix(m, 0) < |m| && forall k | LinkPrefix(m, 0) <= k < |m| :: NonSpace(m[k])
  {
    if IsLink(m) {
      var n :| BeginsLink(m, n) && n < |m| && forall k | n <= k < |m| :: NonSpace(m[k]);
      LinkPrefixBegins(m, n);
    }
    LinkPrefixBegins(m, LinkPrefix(m, 0));
  }

  /** What is matched is one match of the pattern, and nothing else. */
  lemma MatchIsPattern(text: string, i: nat, kind: Kind, letters: set<char>)
    requires i < |text| && MatchLength(text, i, kind, letters) > 0
    ensures Pattern(kind, text[i..i + MatchLength(text, i, kind, letters)], letters)
  {
    var len := MatchLength(text, i, kind, letters);
    var m := text[i..i + len];
    assert forall k | 0 <= k < len :: m[k] == text[i + k];
    if kind.Url? {
      LinkPrefixInside(text, i, len);
      LinkIff(m);
    }
  }

  lemma RunAtLeast(text: string, i: nat, p: char -> bool, n: nat)
    requires i + n <= |text| && forall k | i <= k < i + n :: p(text[k])
    ensures RunLength(text, i, p) >= n
  {
  }

  /** The beginning of a link inside the text is the one found there. */
  lemma LinkBeginsInside(text: string, i: nat, n: nat)
    requires i + n <= |text| && 0 < LinkPrefix(text[i..i + n], 0) <= n
    ensures LinkPrefix(text, i) == LinkPrefix(text[i..i + n], 0)
  {
    var m := text[i..i + n];
    var b := LinkPrefix(m, 0);
    if HasPrefix(m, 0, "https://") {
      PrefixInside(text, i, n, "https://");
    } else if HasPrefix(m, 0, "http://") {
      PrefixInside(text, i, n, "http://");
    } else {
      PrefixInside(text, i, n, "www.");
    }
    LinkPrefixElsewhere(text, i, b);
  }

  lemma LinkPrefixElsewhere(text: string, i: nat, b: nat)
    requires i <= |text|
    requires || (b == 8 && HasPrefix(text, i, "https://"))
             || (b == 7 && HasPrefix(text, i, "http://"))
             || (b == 4 && HasPrefix(text, i, "www."))
    ensures LinkPrefix(text, i) == b
  {
    assert "http://"[4] == ':' && "https://"[4] == 's';
    assert "www."[0] == 'w' && "http://"[0] == 'h' && "https://"[0] == 'h';
  }

  /** Nothing longer at the same position matches the pattern. */
  lemma MatchIsLongest(text: string, i: nat, n: nat, kind: Kind, letters: set<char>)
    requires i < |text| && i + n <= |text| && Pattern(kind, text[i..i + n], letters)
    ensures n <= MatchLength(text, i, kind, letters)
  {
    var m := text[i..i + n];
    assert forall k | 0 <= k < n :: m[k] == text[i + k];
    match kind
    case Url =>
      LinkIff(m);
      var b := LinkPrefix(m, 0);
      LinkBeginsInside(text, i, n);
      forall k | i + b <= k < i + n ensures NonSpace(text[k]) {
        assert m[k - i] == text[k];
      }
      RunAtLeast(text, i + b, NonSpace, n - b);
    case Mention =>
      forall k | i + 1 <= k < i + n ensures WordChar(text[k]) {
        assert m[k - i] == text[k];
      }
      RunAtLeast(text, i + 1, WordChar, n - 1);
    case Hashtag =>
      forall k | i + 1 <= k < i + n ensures TagChar(letters, text[k]) {
        assert m[k - i] == text[k];
      }
      RunAtLeast(text, i + 1, c => TagChar(letters, c), n - 1);
  }

  /** The match length at every position. */
  ghost function Lengths(text: string, kind: Kind, letters: set<char>): (lens: seq<nat>)
    ensures |lens| == |text|
  {
    seq(|text|, i requires 0 <= i < |text| => MatchLength(text, i, kind, letters))
  }

  lemma LengthAt(text: string, kind: Kind, letters: set<char>, i: nat)
    requires i < |text|
    ensures Lengths(text, kind, letters)[i] == MatchLength(text, i, kind, letters)
  {
  }

  /**
   The matches starting among the first `n` positions, given the length of the match at each
   position: in order, none inside another, and every matching position lies inside one.
   */
  ghost predicate Found(lens: seq<nat>, locs: seq<(nat, nat)>, n: nat) {
    && (forall i | 0 <= i < |locs| ::
          locs[i].0 < n && locs[i].0 < |lens| && lens[locs[i].0] > 0 && locs[i].1 == locs[i].0 + lens[locs[i].0])
    && (forall i, j | 0 <= i < j < |locs| :: locs[i].1 <= locs[j].0)
    && (forall p {:trigger Inside(locs, p)} | 0 <= p < n && p < |lens| && lens[p] > 0 :: Inside(locs, p))
  }

  ghost predicate Inside(locs: seq<(nat, nat)>, p: nat) {
    exists i :: 0 <= i < |locs| && locs[i].0 <= p < locs[i].1
  }

  /** The located piece of text is a whole match of the pattern. */
  ghost predicate Matched(text: string, kind: Kind, letters: set<char>, loc: (nat, nat)) {
    loc.0 <= loc.1 <= |text| && Pattern(kind, text[loc.0..loc.1], letters)
  }

  /** No match at the same position ends later. */
  ghost predicate Longest(text: string, kind: Kind, letters: set<char>, loc: (nat, nat)) {
    forall e: nat | Matched(text, kind, letters, (loc.0, e)) :: e <= loc.1
  }

  /** Whole matches, each as long as possible, in order and apart; every match begins inside one of them. */
  ghost predicate LeftmostLongest(text: string, kind: Kind, letters: set<char>, locs: seq<(nat, nat)>) {
    && (forall i | 0 <= i < |locs| :: Matched(text, kind, letters, locs[i]) && Longest(text, kind, letters, locs[i]))
    && (forall i, j | 0 <= i < j < |locs| :: locs[i].1 <= locs[j].0)
    && (forall m | Matched(text, kind, letters, m) :: Inside(locs, m.0))
  }

  lemma PatternNonEmpty(kind: Kind, m: string, letters: set<char>)
    requires Pattern(kind, m, letters)
    ensures m != ""
  {
  }

  lemma LongestHasLength(text: string, kind: Kind, letters: set<char>, loc: (nat, nat))
    requires Matched(text, kind, letters, loc) && Longest(text, kind, letters, loc)
    ensures loc.0 < |text| && loc.1 == loc.0 + MatchLength(text, loc.0, kind, letters) > loc.0
  {
    StartsMatch(text, kind, letters, loc);
    MatchIsLongest(text, loc.0, loc.1 - loc.0, kind, letters);
    MatchedAt(text, kind, letters, (loc.0, loc.0 + MatchLength(text, loc.0, kind, letters)));
  }

  lemma MatchedAt(text: string, kind: Kind, letters: set<char>, loc: (nat, nat))
    requires loc.0 < |text| && MatchLength(text, loc.0, kind, letters) > 0
    requires loc.1 == loc.0 + MatchLength(text, loc.0, kind, letters)
    ensures Matched(text, kind, letters, loc)
  {
    MatchIsPattern(text, loc.0, kind, letters);
  }

  lemma LengthIsLongest(text: string, kind: Kind, letters: set<char>, loc: (nat, nat))
    requires loc.0 < |text| && loc.1 == loc.0 + MatchLength(text, loc.0, kind, letters) > loc.0
    ensures Matched(text, kind, letters, loc) && Longest(text, kind, letters, loc)
  {
    MatchedAt(text, kind, letters, loc);
    forall e: nat | Matched(text, kind, letters, (loc.0, e)) ensures e <= loc.1 {
      MatchIsLongest(text, loc.0, e - loc.0, kind, letters);
    }
  }

  /** A match is as long as possible exactly when it has the length the scanner finds. */
  lemma LongestIff(text: string, kind: Kind, letters: set<char>, loc: (nat, nat))
    ensures Matched(text, kind, letters, loc) && Longest(text, kind, letters, loc) <==>
            loc.0 < |text| && loc.1 == loc.0 + MatchLength(text, loc.0, kind, letters) > loc.0
  {
    if Matched(text, kind, letters, loc) && Longest(text, kind, letters, loc) {
      LongestHasLength(text, kind, letters, loc);
    }
    if loc.0 < |text| && loc.1 == loc.0 + MatchLength(text, loc.0, kind, letters) > loc.0 {
      LengthIsLongest(text, kind, letters, loc);
    }
  }

  lemma StartsMatch(text: string, kind: Kind, letters: set<char>, m: (nat, nat))
    requires Matched(text, kind, letters, m)
    ensures m.0 < |text| && MatchLength(text, m.0, kind, letters) > 0
  {
    PatternNonEmpty(kind, text[m.0..m.1], letters);
    MatchIsLongest(text, m.0, m.1 - m.0, kind, letters);
  }

  /** What the scan finds, said with the scanner's lengths and said with the pattern alone. */
  lemma FoundIff(text: string, kind: Kind, letters: set<char>, locs: seq<(nat, nat)>)
    ensures Found(Lengths(text, kind, letters), locs, |text|) <==> LeftmostLongest(text, kind, letters, locs)
  {
    var lens := Lengths(text, kind, letters);
    forall loc: (nat, nat) | loc.0 < |text| ensures lens[loc.0] == MatchLength(text, loc.0, kind, letters) {
      LengthAt(text, kind, letters, loc.0);
    }
    forall i | 0 <= i < |locs|
      ensures Matched(text, kind, letters, locs[i]) && Longest(text, kind, letters, locs[i]) <==>
              locs[i].0 < |text| && lens[locs[i].0] > 0 && locs[i].1 == locs[i].0 + lens[locs[i].0]
    {
      LongestIff(text, kind, letters, locs[i]);
    }
    if Found(lens, locs, |text|) {
      forall m | Matched(text, kind, letters, m) ensures Inside(locs, m.0) {
        StartsMatch(text, kind, letters, m);
      }
    }
    if LeftmostLongest(text, kind, letters, locs) {
      forall p: nat | p < |text| && lens[p] > 0 ensures Inside(locs, p) {
        LengthAt(text, kind, letters, p);
        LongestIff(text, kind, letters, (p, p + lens[p]));
        assert Matched(text, kind, letters, (p, p + lens[p]));
      }
    }
  }

  method FindAll(text: string, kind: Kind, letters: set<char>) returns (locs: seq<(nat, nat)>)
    ensures LeftmostLongest(text, kind, letters, locs)
  {
    ghost var lens := Lengths(text, kind, letters);
    locs := [];
    FindNothing(lens);
    var i := 0;
    while i < |text|
      invariant i <= |text| && FoundBy(lens, locs, i)
      decreases |text| - i
    {
      var len := MatchAt(text, i, kind, letters, lens);
      locs, i := FindNext(lens, locs, i, len);
    }
    FoundIff(text, kind, letters, locs);
  }

  /** One visit of the scan. */
  method FindNext(ghost lens: seq<nat>, locs: seq<(nat, nat)>, i: nat, len: nat)
    returns (more: seq<(nat, nat)>, next: nat)
    requires i + len <= |lens| && i < |lens| && FoundBy(lens, locs, i) && len == lens[i]
    ensures i < next <= |lens| && FoundBy(lens, more, next)
  {
    if len > 0 {
      FindOneMore(lens, locs, i);
      more, next := locs + [(i, i + len)], i + len;
    } else {
      FindNoMore(lens, locs, i);
      more, next := locs, i + 1;
    }
  }

  /** The matches found by position `n`, all of them ending there or before. */
  ghost predicate FoundBy(lens: seq<nat>, locs: seq<(nat, nat)>, n: nat) {
    Found(lens, locs, n) && forall k | 0 <= k < |locs| :: locs[k].1 <= n
  }

  lemma FindNothing(lens: seq<nat>)
    ensures FoundBy(lens, [], 0)
  {
  }

  method MatchAt(text: string, i: nat, kind: Kind, letters: set<char>, ghost lens: seq<nat>) returns (len: nat)
    requires i < |text| && lens == Lengths(text, kind, letters)
    ensures i < |lens| && len == lens[i] && i + len <= |text|
  {
    LengthAt(text, kind, letters, i);
    len := MatchLength(text, i, kind, letters);
  }

  lemma FindNoMore(lens: seq<nat>, locs: seq<(nat, nat)>, i: nat)
    requires i < |lens| && FoundBy(lens, locs, i) && lens[i] == 0
    ensures FoundBy(lens, locs, i + 1)
  {
    forall p | 0 <= p < i + 1 && p < |lens| && lens[p] > 0 ensures Inside(locs, p) {
      assert p < i;
    }
  }

  lemma FindOneMore(lens: seq<nat>, locs: seq<(nat, nat)>, i: nat)
    requires i < |lens| && FoundBy(lens, locs, i) && lens[i] > 0
    ensures FoundBy(lens, locs + [(i, i + lens[i])], i + lens[i])
  {
    var more := locs + [(i, i + lens[i])];
    forall p: nat | p < i + lens[i] && p < |lens| && lens[p] > 0 ensures Inside(more, p) {
      if p < i {
        assert Inside(locs, p);
        var k :| 0 <= k < |locs| && locs[k].0 <= p < locs[k].1;
        assert more[k] == locs[k];
      } else {
        assert more[|locs|].0 <= p < more[|locs|].1;
      }
    }
  }

  lemma FoundMatches(text: string, kind: Kind, letters: set<char>, locs: seq<(nat, nat)>)
    requires LeftmostLongest(text, kind, letters, locs)
    ensures Matches(text, locs, kind)
  {
    forall i | 0 <= i < |locs| ensures locs[i].0 < locs[i].1 <= |text| && Leads(kind, text[locs[i].0]) {
      LongestIff(text, kind, letters, locs[i]);
      MatchLeads(text, locs[i].0, kind, letters);
    }
  }

  lemma MatchesApart(lens: seq<nat>, locs: seq<(nat, nat)>, m: (nat, nat), n: (nat, nat))
    requires Found(lens, locs, |lens|) && m in locs && n in locs
    ensures !(n.0 < m.0 < n.1)
  {
    var i :| 0 <= i < |locs| && locs[i] == m;
    var j :| 0 <= j < |locs| && locs[j] == n;
  }

  lemma {:induction false} SameMatch(lens: seq<nat>, a: seq<(nat, nat)>, b: seq<(nat, nat)>, m: (nat, nat))
    requires Found(lens, a, |lens|) && Found(lens, b, |lens|) && m in a
    ensures m in b
    decreases m.0
  {
    assert Inside(b, m.0);
    var i :| 0 <= i < |b| && b[i].0 <= m.0 < b[i].1;
    if b[i].0 < m.0 {
      SameMatch(lens, b, a, b[i]);
      MatchesApart(lens, a, m, b[i]);
    }
  }

  const BY_POSITION: ((nat, nat)) -> int := (m: (nat, nat)) => -(m.0 as int)

  lemma FoundDescending(lens: seq<nat>, locs: seq<(nat, nat)>)
    requires Found(lens, locs, |lens|)
    ensures StrictlyDescending(locs, BY_POSITION)
  {
    forall i, j | 0 <= i < j < |locs| ensures locs[i].0 < locs[j].0 {
      assert locs[i].1 <= locs[j].0;
    }
  }

  /** The matches are determined by where the pattern matches. */
  lemma FoundUnique(lens: seq<nat>, a: seq<(nat, nat)>, b: seq<(nat, nat)>)
    requires Found(lens, a, |lens|) && Found(lens, b, |lens|)
    ensures a == b
  {
    forall m ensures m in a <==> m in b {
      if m in a {
        SameMatch(lens, a, b, m);
      }
      if m in b {
        SameMatch(lens, b, a, m);
      }
    }
    FoundDescending(lens, a);
    FoundDescending(lens, b);
    SortedUnique(a, b, BY_POSITION);
  }

  lemma MatchesUnique(text: string, kind: Kind, letters: set<char>, a: seq<(nat, nat)>, b: seq<(nat, nat)>)
    requires LeftmostLongest(text, kind, letters, a) && LeftmostLongest(text, kind, letters, b)
    ensures a == b
  {
    FoundIff(text, kind, letters, a);
    FoundIff(text, kind, letters, b);
    FoundUnique(Lengths(text, kind, letters), a, b);
  }

  // --- candidates -------------------------------------------------------------------

  /** `t` is where a match ending at `e` ends without its trailing punctuation. */
  ghost predicate TrimmedTo(text: string, s: int, e: int, t: int) {
    && 0 <= s <= t <= e <= |text|
    && (t > s ==> text[t - 1] !in URL_TRAILING)
    && forall i | t <= i < e :: text[i] in URL_TRAILING
  }

  /** The span a match becomes: only links are trimmed. */
  ghost predicate SpanOf(text: string, loc: (nat, nat), kind: Kind, span: Span) {
    && span.kind == kind
    && span.start == loc.0 < span.end <= loc.1 <= |text|
    && (if kind.Url? then TrimmedTo(text, loc.0, loc.1, span.end) else span.end == loc.1)
  }

  method Trim(text: string, s: nat, e: nat) returns (t: nat)
    requires s < e <= |text|
    ensures TrimmedTo(text, s, e, t)
    ensures text[s] !in URL_TRAILING ==> t > s
  {
    t := e;
    while t > s && text[t - 1] in URL_TRAILING
      invariant s <= t <= e
      invariant forall i | t <= i < e :: text[i] in URL_TRAILING
    {
      t := t - 1;
    }
  }

  /** One kind's matches, appended to the spans found so far; none of them becomes empty. */
  method Add(text: string, found: seq<Span>, locs: seq<(nat, nat)>, kind: Kind) returns (spans: seq<Span>)
    requires Matches(text, locs, kind)
    ensures |spans| == |found| + |locs| && spans[..|found|] == found
    ensures forall i | 0 <= i < |locs| :: SpanOf(text, locs[i], kind, spans[|found| + i])
  {
    spans := found;
    for n := 0 to |locs|
      invariant |spans| == |found| + n && spans[..|found|] == found
      invariant forall i | 0 <= i < n :: SpanOf(text, locs[i], kind, spans[|found| + i])
    {
      var s, e := locs[n].0, locs[n].1;
      if kind.Url? {
        e := Trim(text, s, e);
      }
      if e > s {
        spans := spans + [Span(s, e, kind)];
      }
    }
  }

  /** The spans of all matches, links first, then mentions, then hashtags. */
  ghost predicate Candidates(text: string, urls: seq<(nat, nat)>, mentions: seq<(nat, nat)>, hashtags: seq<(nat, nat)>,
                             spans: seq<Span>) {
    && |spans| == |urls| + |mentions| + |hashtags|
    && (forall i | 0 <= i < |urls| :: SpanOf(text, urls[i], Url, spans[i]))
    && (forall i | 0 <= i < |mentions| :: SpanOf(text, mentions[i], Mention, spans[|urls| + i]))
    && (forall i | 0 <= i < |hashtags| :: SpanOf(text, hashtags[i], Hashtag, spans[|urls| + |mentions| + i]))
  }

  /** What selecting relies on: non-empty spans within the text, no two starting together. */
  ghost predicate Selectable(text: string, spans: seq<Span>) {
    && (forall i | 0 <= i < |spans| :: spans[i].start < spans[i].end <= |text|)
    && (forall i, j | 0 <= i < j < |spans| :: spans[i].start != spans[j].start)
  }

  /** Matches of one kind start apart because they do not overlap, of two kinds because they look different. */
  lemma StartsDiffer(text: string, urls: seq<(nat, nat)>, mentions: seq<(nat, nat)>, hashtags: seq<(nat, nat)>,
      spans: seq<Span>)
    requires Matches(text, urls, Url) && Matches(text, mentions, Mention) && Matches(text, hashtags, Hashtag)
    requires Candidates(text, urls, mentions, hashtags, spans)
    ensures Selectable(text, spans)
  {
    var u, m := |urls|, |mentions|;
    forall i | 0 <= i < |spans|
      ensures spans[i].start < spans[i].end <= |text| && Leads(spans[i].kind, text[spans[i].start])
      ensures spans[i].kind == if i < u then Url else if i < u + m then Mention else Hashtag
    {
      if u <= i < u + m {
        assert SpanOf(text, mentions[i - u], Mention, spans[u + (i - u)]);
      } else if u + m <= i {
        assert SpanOf(text, hashtags[i - u - m], Hashtag, spans[u + m + (i - u - m)]);
      }
    }
    forall i, j | 0 <= i < j < |spans| ensures spans[i].start != spans[j].start {
      if spans[i].kind == spans[j].kind {
        if j < u {
          assert urls[i].1 <= urls[j].0;
        } else if j < u + m {
          assert SpanOf(text, mentions[i - u], Mention, spans[u + (i - u)]);
          assert SpanOf(text, mentions[j - u], Mention, spans[u + (j - u)]);
          assert mentions[i - u].1 <= mentions[j - u].0;
        } else {
          assert SpanOf(text, hashtags[i - u - m], Hashtag, spans[u + m + (i - u - m)]);
          assert SpanOf(text, hashtags[j - u - m], Hashtag, spans[u + m + (j - u - m)]);
          assert hashtags[i - u - m].1 <= hashtags[j - u - m].0;
        }
      }
    }
  }

  // --- selection ------------------------------------------------------------------------

  /** `d` starts inside `c`. */
  predicate Covers(c: Span, d: Span) {
    c.start < d.start < c.end
  }

  ghost predicate InOrder(chosen: seq<Span>) {
    && (forall i | 0 <= i < |chosen| :: chosen[i].start < chosen[i].end)
    && (forall i, j | 0 <= i < j < |chosen| :: chosen[i].end <= chosen[j].start)
  }

  /**
   First match wins: the chosen spans are candidates, in order and disjoint, and a candidate is left
   out only when it starts inside a chosen one.
   */
  ghost predicate Selection(spans: seq<Span>, chosen: seq<Span>) {
    && InOrder(chosen)
    && (forall c | c in chosen :: c in spans)
    && (forall d | d in spans && d !in chosen :: exists c :: c in chosen && Covers(c, d))
  }

  lemma ChosenApart(chosen: seq<Span>, c: Span, d: Span)
    requires InOrder(chosen) && c in chosen && d in chosen
    ensures !Covers(c, d)
  {
    var i :| 0 <= i < |chosen| && chosen[i] == c;
    var j :| 0 <= j < |chosen| && chosen[j] == d;
  }

  lemma {:induction false} SameChoice(text: string, spans: seq<Span>, a: seq<Span>, b: seq<Span>, d: Span)
    requires Selectable(text, spans) && Selection(spans, a) && Selection(spans, b)
    requires d in a
    ensures d in b
    decreases d.start
  {
    if d !in b {
      var c :| c in b && Covers(c, d);
      SameChoice(text, spans, b, a, c);
      ChosenApart(a, c, d);
    }
  }

  const BY_START: Span -> int := (s: Span) => -(s.start as int)

  lemma InOrderStrictly(chosen: seq<Span>)
    requires InOrder(chosen)
    ensures StrictlyDescending(chosen, BY_START)
  {
    forall i, j | 0 <= i < j < |chosen| ensures chosen[i].start < chosen[j].start {
      assert chosen[i].end <= chosen[j].start;
    }
  }

  /** There is one selection, so the result does not depend on how the sort treats anything. */
  lemma SelectionUnique(text: string, spans: seq<Span>, a: seq<Span>, b: seq<Span>)
    requires Selectable(text, spans) && Selection(spans, a) && Selection(spans, b)
    ensures a == b
  {
    forall d ensures d in a <==> d in b {
      if d in a {
        SameChoice(text, spans, a, b, d);
      }
      if d in b {
        SameChoice(text, spans, b, a, d);
      }
    }
    InOrderStrictly(a);
    InOrderStrictly(b);
    SortedUnique(a, b, BY_START);
  }

  // --- UTF-16 -----------------------------------------------------------------------------

  /** One character in UTF-16 (section 2.1 of RFC 2781). */
  function Units(c: char): seq<int> {
    var u := c as int;
    if u < 0x10000 then [u] else [0xD800 + (u - 0x10000) / 0x400, 0xDC00 + (u - 0x10000) % 0x400]
  }

  function Utf16(text: string): seq<int> {
    if text == [] then [] else Utf16(text[..|text| - 1]) + Units(text[|text| - 1])
  }

  lemma {:induction false} Utf16Concat(a: string, b: string)
    ensures Utf16(a + b) == Utf16(a) + Utf16(b)
    decreases |b|
  {
    if b == [] {
      assert a + b == a;
    } else {
      Utf16Concat(a, b[..|b| - 1]);
      assert (a + b)[..|a + b| - 1] == a + b[..|b| - 1];
    }
  }

  /** Reading UTF-16 back; an unpaired surrogate reads as the replacement character. */
  function Decode(units: seq<int>): string {
    if units == [] then []
    else if |units| >= 2 && 0xD800 <= units[0] < 0xDC00 && 0xDC00 <= units[1] < 0xE000 then
      [(0x10000 + (units[0] - 0xD800) * 0x400 + (units[1] - 0xDC00)) as char] + Decode(units[2..])
    else if 0 <= units[0] < 0xD800 || 0xE000 <= units[0] < 0x10000 then [units[0] as char] + Decode(units[1..])
    else ['\U{FFFD}'] + Decode(units[1..])
  }

  lemma UnitsDecode(c: char, rest: seq<int>)
    ensures Decode(Units(c) + rest) == [c] + Decode(rest)
  {
    var units := Units(c);
    assert (units + rest)[|units|..] == rest;
    if c as int >= 0x10000 {
      var high, low := (c as int - 0x10000) / 0x400, (c as int - 0x10000) % 0x400;
      assert high * 0x400 + low == c as int - 0x10000;
      assert 0 <= high < 0x400 && 0 <= low < 0x400;
    }
  }

  lemma Utf16First(text: string)
    requires text != []
    ensures Utf16(text) == Units(text[0]) + Utf16(text[1..])
  {
    assert text == text[..1] + text[1..];
    Utf16Concat(text[..1], text[1..]);
    assert text[..1][..0] == [];
  }

  lemma {:induction false} DecodeUtf16(text: string)
    ensures Decode(Utf16(text)) == text
  {
    if text != [] {
      Utf16First(text);
      UnitsDecode(text[0], Utf16(text[1..]));
      DecodeUtf16(text[1..]);
    }
  }

  method Utf16Len(s: string) returns (n: int)
    ensures n == |Utf16(s)|
  {
    n := 0;
    for i := 0 to |s|
      invariant n == |Utf16(s[..i])|
    {
      assert s[..i + 1][..i] == s[..i];
      if s[i] as int > 0xFFFF {
        n := n + 2;
      } else {
        n := n + 1;
      }
    }
    assert s[..|s|] == s;
  }

  // --- the detector -------------------------------------------------------------------------

  /** The entity of a span, in UTF-16 positions. */
  function EntityOf(text: string, span: Span): Entity
    requires span.start <= span.end <= |text|
  {
    Entity(span.kind, |Utf16(text[..span.start])|, |Utf16(text[span.start..span.end])|)
  }

  ghost predicate Located(text: string, chosen: seq<Span>, out: seq<Entity>) {
    && |out| == |chosen|
    && forall i | 0 <= i < |out| :: chosen[i].start <= chosen[i].end <= |text| && out[i] == EntityOf(text, chosen[i])
  }

  /** The greedy loop over the sorted spans. */
  method Select(text: string, spans: seq<Span>) returns (out: seq<Entity>, ghost chosen: seq<Span>)
    requires Selectable(text, spans) && forall i, j | 0 <= i < j < |spans| :: spans[i].start < spans[j].start
    ensures Selection(spans, chosen) && Located(text, chosen, out)
  {
    out, chosen := [], [];
    var lastEnd := 0;
    for n := 0 to |spans|
      invariant Chosen(text, spans[..n], chosen, out, lastEnd)
    {
      assert spans[..n + 1] == spans[..n] + [spans[n]];
      out, lastEnd, chosen := SelectNext(text, spans[..n], spans[n], out, lastEnd, chosen);
    }
    assert spans[..|spans|] == spans;
  }

  /** What the loop has selected among the spans seen so far. */
  ghost predicate Chosen(text: string, seen: seq<Span>, chosen: seq<Span>, out: seq<Entity>, lastEnd: int) {
    && Selection(seen, chosen) && Located(text, chosen, out)
    && lastEnd == if chosen == [] then 0 else chosen[|chosen| - 1].end
  }

  /** One visit of the greedy loop. */
  method SelectNext(text: string, ghost seen: seq<Span>, sp: Span, out: seq<Entity>, lastEnd: int,
      ghost chosen: seq<Span>)
    returns (more: seq<Entity>, end: int, ghost nowChosen: seq<Span>)
    requires Chosen(text, seen, chosen, out, lastEnd) && sp.start < sp.end <= |text|
    requires forall c | c in seen :: c.start < sp.start
    ensures Chosen(text, seen + [sp], nowChosen, more, end)
  {
    if sp.start < lastEnd {
      SkipKeepsSelection(seen, chosen, sp);
      return out, lastEnd, chosen;
    }
    var offset := Utf16Len(text[..sp.start]);
    var length := Utf16Len(text[sp.start..sp.end]);
    AppendKeepsSelection(seen, chosen, sp);
    LocateOneMore(text, chosen, out, sp);
    return out + [Entity(sp.kind, offset, length)], sp.end, chosen + [sp];
  }

  /** A candidate that starts before the last chosen span ends is covered by it. */
  lemma SkipKeepsSelection(spans: seq<Span>, chosen: seq<Span>, sp: Span)
    requires Selection(spans, chosen) && chosen != [] && sp.start < chosen[|chosen| - 1].end
    requires forall c | c in spans :: c.start < sp.start
    ensures Selection(spans + [sp], chosen)
  {
    var last := chosen[|chosen| - 1];
    assert last in chosen && last in spans && Covers(last, sp);
  }

  lemma LocateOneMore(text: string, chosen: seq<Span>, out: seq<Entity>, sp: Span)
    requires Located(text, chosen, out) && sp.start <= sp.end <= |text|
    ensures Located(text, chosen + [sp], out + [EntityOf(text, sp)])
  {
  }

  lemma AppendKeepsSelection(spans: seq<Span>, chosen: seq<Span>, sp: Span)
    requires Selection(spans, chosen) && sp.start < sp.end
    requires chosen == [] || chosen[|chosen| - 1].end <= sp.start
    ensures Selection(spans + [sp], chosen + [sp])
  {
    var more := chosen + [sp];
    forall i, j | 0 <= i < j < |more| ensures more[i].end <= more[j].start {
      if j == |chosen| && i < j - 1 {
        assert chosen[i].end <= chosen[j - 1].start;
      }
    }
    forall d | d in spans + [sp] && d !in more ensures exists c :: c in more && Covers(c, d) {
      assert d in spans && d !in chosen;
      var c :| c in chosen && Covers(c, d);
      assert c in more;
    }
  }

  lemma SelectionOfSorted(spans: seq<Span>, sorted: seq<Span>, chosen: seq<Span>)
    requires multiset(sorted) == multiset(spans) && Selection(sorted, chosen)
    ensures Selection(spans, chosen)
  {
    assert forall x :: x in sorted <==> x in multiset(sorted);
    assert forall x :: x in spans <==> x in multiset(spans);
  }

  /** The matches of the three patterns in a text. */
  ghost predicate AllMatches(text: string, letters: set<char>, urls: seq<(nat, nat)>, mentions: seq<(nat, nat)>,
      hashtags: seq<(nat, nat)>) {
    && LeftmostLongest(text, Url, letters, urls)
    && LeftmostLongest(text, Mention, letters, mentions)
    && LeftmostLongest(text, Hashtag, letters, hashtags)
  }

  /** `spans` are the candidates of a text. */
  ghost predicate CandidatesOf(text: string, letters: set<char>, spans: seq<Span>) {
    exists urls, mentions, hashtags :: AllMatches(text, letters, urls, mentions, hashtags)
        && Candidates(text, urls, mentions, hashtags, spans)
  }

  /** `out` lists the entities of the one selection among the candidates of the text. */
  ghost predicate Detected(text: string, letters: set<char>, out: seq<Entity>) {
    exists spans, chosen :: CandidatesOf(text, letters, spans) && Selection(spans, chosen) && Located(text, chosen, out)
  }

  method MessageEntities(text: string, letters: set<char>) returns (out: seq<Entity>)
    ensures Detected(text, letters, out)
  {
    ghost var chosen;
    var spans := CollectSpans(text, letters);
    var sorted := SortDescending(spans, BY_START);
    SortedDistinct(spans, sorted, BY_START);
    SortedSelectable(text, spans, sorted);
    out, chosen := Select(text, sorted);
    SelectionOfSorted(spans, sorted, chosen);
  }

  method CollectSpans(text: string, letters: set<char>) returns (spans: seq<Span>)
    ensures CandidatesOf(text, letters, spans) && Selectable(text, spans)
  {
    var urls, links := AddKind(text, [], Url, letters);
    var mentions, named := AddKind(text, links, Mention, letters);
    var hashtags, all := AddKind(text, named, Hashtag, letters);
    spans := all;
    AddedSpans(text, urls, mentions, hashtags, links, named, spans);
    CandidatesWitness(text, letters, urls, mentions, hashtags, spans);
  }

  lemma CandidatesWitness(text: string, letters: set<char>, urls: seq<(nat, nat)>, mentions: seq<(nat, nat)>,
      hashtags: seq<(nat, nat)>,
                          spans: seq<Span>)
    requires LeftmostLongest(text, Url, letters, urls)
    requires LeftmostLongest(text, Mention, letters, mentions)
    requires LeftmostLongest(text, Hashtag, letters, hashtags)
    requires Candidates(text, urls, mentions, hashtags, spans)
    ensures CandidatesOf(text, letters, spans)
  {
    assert AllMatches(text, letters, urls, mentions, hashtags);
  }

  lemma AddedSpans(text: string, urls: seq<(nat, nat)>, mentions: seq<(nat, nat)>, hashtags: seq<(nat, nat)>,
                   links: seq<Span>, named: seq<Span>, spans: seq<Span>)
    requires Matches(text, urls, Url) && Matches(text, mentions, Mention) && Matches(text, hashtags, Hashtag)
    requires Added(text, [], urls, Url, links) && Added(text, links, mentions, Mention, named)
        && Added(text, named, hashtags, Hashtag, spans)
    ensures Candidates(text, urls, mentions, hashtags, spans) && Selectable(text, spans)
  {
    CandidatesAdded(text, urls, mentions, hashtags, links, named, spans);
    StartsDiffer(text, urls, mentions, hashtags, spans);
  }

  /** `spans` is `found` followed by the spans of the matches. */
  ghost predicate Added(text: string, found: seq<Span>, locs: seq<(nat, nat)>, kind: Kind, spans: seq<Span>) {
    && |spans| == |found| + |locs| && spans[..|found|] == found
    && forall i | 0 <= i < |locs| :: SpanOf(text, locs[i], kind, spans[|found| + i])
  }

  /** One pattern's matches, found and appended. */
  method AddKind(text: string, found: seq<Span>, kind: Kind, letters: set<char>)
      returns (ghost locs: seq<(nat, nat)>, spans: seq<Span>)
    ensures LeftmostLongest(text, kind, letters, locs) && Matches(text, locs, kind)
    ensures Added(text, found, locs, kind, spans)
  {
    var all := FindAll(text, kind, letters);
    FoundMatches(text, kind, letters, all);
    spans := Add(text, found, all, kind);
    locs := all;
  }

  lemma CandidatesAdded(text: string, urls: seq<(nat, nat)>, mentions: seq<(nat, nat)>, hashtags: seq<(nat, nat)>,
                        links: seq<Span>, named: seq<Span>, spans: seq<Span>)
    requires Added(text, [], urls, Url, links) && Added(text, links, mentions, Mention, named)
        && Added(text, named, hashtags, Hashtag, spans)
    ensures Candidates(text, urls, mentions, hashtags, spans)
  {
    var u, m := |urls|, |mentions|;
    forall i | 0 <= i < u ensures SpanOf(text, urls[i], Url, spans[i]) {
      assert spans[i] == named[i] == links[i];
    }
    forall i | 0 <= i < m ensures SpanOf(text, mentions[i], Mention, spans[u + i]) {
      assert spans[u + i] == named[u + i];
    }
  }

  lemma SortedSelectable(text: string, spans: seq<Span>, sorted: seq<Span>)
    requires Selectable(text, spans) && StrictlyDescending(sorted, BY_START) && forall x :: x in sorted <==> x in spans
    ensures Selectable(text, sorted) && forall i, j | 0 <= i < j < |sorted| :: sorted[i].start < sorted[j].start
  {
    assert forall i | 0 <= i < |sorted| :: sorted[i] in spans;
    assert forall i, j | 0 <= i < j < |sorted| :: BY_START(sorted[i]) > BY_START(sorted[j]);
  }

  lemma CandidatesDetermined(text: string, letters: set<char>, a: seq<Span>, b: seq<Span>)
    requires CandidatesOf(text, letters, a) && CandidatesOf(text, letters, b)
    ensures a == b && Selectable(text, a)
  {
    var u, m, h :| AllMatches(text, letters, u, m, h) && Candidates(text, u, m, h, a);
    var v, n, k :| AllMatches(text, letters, v, n, k) && Candidates(text, v, n, k, b);
    MatchesUnique(text, Url, letters, u, v);
    MatchesUnique(text, Mention, letters, m, n);
    MatchesUnique(text, Hashtag, letters, h, k);
    CandidatesUnique(text, u, m, h, a, b);
    AllMatch(text, letters, u, m, h);
    StartsDiffer(text, u, m, h, a);
  }

  lemma AllMatch(text: string, letters: set<char>, urls: seq<(nat, nat)>, mentions: seq<(nat, nat)>,
      hashtags: seq<(nat, nat)>)
    requires AllMatches(text, letters, urls, mentions, hashtags)
    ensures Matches(text, urls, Url) && Matches(text, mentions, Mention) && Matches(text, hashtags, Hashtag)
  {
    FoundMatches(text, Url, letters, urls);
    FoundMatches(text, Mention, letters, mentions);
    FoundMatches(text, Hashtag, letters, hashtags);
  }

  /** The text determines the result. */
  lemma DetectedUnique(text: string, letters: set<char>, a: seq<Entity>, b: seq<Entity>)
    requires Detected(text, letters, a) && Detected(text, letters, b)
    ensures a == b
  {
    var spansA, chosenA :| CandidatesOf(text, letters, spansA) && Selection(spansA, chosenA)
        && Located(text, chosenA, a);
    var spansB, chosenB :| CandidatesOf(text, letters, spansB) && Selection(spansB, chosenB)
        && Located(text, chosenB, b);
    CandidatesDetermined(text, letters, spansA, spansB);
    SelectionUnique(text, spansA, chosenA, chosenB);
  }

  lemma TrimmedOnce(text: string, s: int, e: int, t: int, u: int)
    requires TrimmedTo(text, s, e, t) && TrimmedTo(text, s, e, u)
    ensures t == u
  {
  }

  lemma SpanUnique(text: string, loc: (nat, nat), kind: Kind, a: Span, b: Span)
    requires SpanOf(text, loc, kind, a) && SpanOf(text, loc, kind, b)
    ensures a == b
  {
    if kind.Url? {
      TrimmedOnce(text, loc.0, loc.1, a.end, b.end);
    }
  }

  lemma CandidatesUnique(text: string, urls: seq<(nat, nat)>, mentions: seq<(nat, nat)>, hashtags: seq<(nat, nat)>,
                         a: seq<Span>, b: seq<Span>)
    requires Candidates(text, urls, mentions, hashtags, a) && Candidates(text, urls, mentions, hashtags, b)
    ensures a == b
  {
    var u, m := |urls|, |mentions|;
    forall i | 0 <= i < |a| ensures a[i] == b[i] {
      if i < u {
        SpanUnique(text, urls[i], Url, a[i], b[i]);
      } else if i < u + m {
        SpanUnique(text, mentions[i - u], Mention, a[u + (i - u)], b[u + (i - u)]);
      } else {
        SpanUnique(text, hashtags[i - u - m], Hashtag, a[u + m + (i - u - m)], b[u + m + (i - u - m)]);
      }
    }
  }

  // --- what the positions mean ------------------------------------------------------------

  /** The encoded text, cut at one character and at two. */
  lemma Utf16Split(text: string, e: nat)
    requires e <= |text|
    ensures Utf16(text) == Utf16(text[..e]) + Utf16(text[e..])
  {
    assert text == text[..e] + text[e..];
    Utf16Concat(text[..e], text[e..]);
  }

  lemma Utf16Prefix(text: string, s: nat, e: nat)
    requires s <= e <= |text|
    ensures Utf16(text[..e]) == Utf16(text[..s]) + Utf16(text[s..e])
  {
    assert text[..e][..s] == text[..s] && text[..e][s..] == text[s..e];
    Utf16Split(text[..e], s);
  }

  lemma Utf16Cut(text: string, s: nat, e: nat)
    requires s <= e <= |text|
    ensures Utf16(text) == Utf16(text[..s]) + Utf16(text[s..e]) + Utf16(text[e..])
  {
    Utf16Prefix(text, s, e);
    Utf16Split(text, e);
  }

  lemma CutMiddle(a: seq<int>, b: seq<int>, c: seq<int>)
    ensures (a + b + c)[|a|..|a| + |b|] == b
  {
  }

  /** Cutting the encoded text at an entity gives the encoding of its span, and decoding gives the span. */
  lemma EntitySlicesText(text: string, span: Span)
    requires span.start <= span.end <= |text|
    ensures var e := EntityOf(text, span);
            && 0 <= e.offset <= e.offset + e.length <= |Utf16(text)|
            && Utf16(text)[e.offset..e.offset + e.length] == Utf16(text[span.start..span.end])
            && Decode(Utf16(text)[e.offset..e.offset + e.length]) == text[span.start..span.end]
  {
    Utf16Cut(text, span.start, span.end);
    CutMiddle(Utf16(text[..span.start]), Utf16(text[span.start..span.end]), Utf16(text[span.end..]));
    DecodeUtf16(text[span.start..span.end]);
  }

  lemma {:induction false} Utf16Grows(text: string)
    ensures |text| <= |Utf16(text)|
  {
    if text != [] {
      Utf16Grows(text[..|text| - 1]);
    }
  }

  /** Entities are non-empty, in order and disjoint in UTF-16 positions, and lie within the text. */
  lemma EntitiesInOrder(text: string, chosen: seq<Span>, out: seq<Entity>)
    requires InOrder(chosen) && Located(text, chosen, out)
    ensures forall i | 0 <= i < |out| :: 0 <= out[i].offset < out[i].offset + out[i].length <= |Utf16(text)|
    ensures forall i, j | 0 <= i < j < |out| :: out[i].offset + out[i].length <= out[j].offset
  {
    forall i | 0 <= i < |out| ensures 0 <= out[i].offset < out[i].offset + out[i].length <= |Utf16(text)| {
      EntitySlicesText(text, chosen[i]);
      Utf16Grows(text[chosen[i].start..chosen[i].end]);
    }
    forall i, j | 0 <= i < j < |out| ensures out[i].offset + out[i].length <= out[j].offset {
      EntitiesApart(text, chosen[i], chosen[j]);
    }
  }

  lemma EntitiesApart(text: string, a: Span, b: Span)
    requires a.start <= a.end <= b.start <= b.end <= |text|
    ensures EntityOf(text, a).offset + EntityOf(text, a).length <= EntityOf(text, b).offset
  {
    Utf16Prefix(text, a.start, a.end);
    Utf16Prefix(text, a.end, b.start);
  }

  /** Cutting the encoded text at the entity and decoding gives text of its kind. */
  ghost predicate CutsOut(text: string, letters: set<char>, e: Entity) {
    && 0 <= e.offset < e.offset + e.length <= |Utf16(text)|
    && OfKind(e.kind, Decode(Utf16(text)[e.offset..e.offset + e.length]), letters)
  }

  /** A whole match of the pattern; of a link, a whole match without its trailing punctuation. */
  ghost predicate OfKind(kind: Kind, cut: string, letters: set<char>) {
    && cut != ""
    && if kind.Url? then exists m :: Pattern(Url, m, letters) && TrimmedTo(m, 0, |m|, |cut|) && cut == m[..|cut|]
       else Pattern(kind, cut, letters)
  }

  /**
   In UTF-16 terms: every reported entity cuts out a whole match of its pattern, a link without its
   trailing punctuation; entities are in order and disjoint.
   */
  lemma EntitiesAreCorrect(text: string, letters: set<char>, out: seq<Entity>)
    requires Detected(text, letters, out)
    ensures forall i | 0 <= i < |out| :: CutsOut(text, letters, out[i])
    ensures forall i, j | 0 <= i < j < |out| :: out[i].offset + out[i].length <= out[j].offset
  {
    var spans, chosen :| CandidatesOf(text, letters, spans) && Selection(spans, chosen) && Located(text, chosen, out);
    EntitiesInOrder(text, chosen, out);
    forall i | 0 <= i < |out| ensures CutsOut(text, letters, out[i]) {
      assert chosen[i] in chosen;
      EntityLooks(text, letters, spans, chosen[i]);
    }
  }

  /** Every candidate is reported, or starts inside one that is. */
  lemma FirstMatchWins(text: string, letters: set<char>, out: seq<Entity>, spans: seq<Span>, d: Span)
    requires Detected(text, letters, out) && CandidatesOf(text, letters, spans) && d in spans
    ensures Reported(text, d, out) || exists c :: c in spans && Reported(text, c, out) && Covers(c, d)
  {
    var all, chosen :| CandidatesOf(text, letters, all) && Selection(all, chosen) && Located(text, chosen, out);
    CandidatesDetermined(text, letters, all, spans);
    if d in chosen {
      ChosenReported(text, chosen, out, d);
    } else {
      var c :| c in chosen && Covers(c, d);
      ChosenReported(text, chosen, out, c);
    }
  }

  lemma EntityLooks(text: string, letters: set<char>, spans: seq<Span>, c: Span)
    requires CandidatesOf(text, letters, spans) && c in spans
    ensures c.start < c.end <= |text|
    ensures CutsOut(text, letters, EntityOf(text, c))
  {
    CandidateLooks(text, letters, spans, c);
    EntitySlicesText(text, c);
    Utf16Grows(text[c.start..c.end]);
  }

  ghost predicate Reported(text: string, span: Span, out: seq<Entity>) {
    span.start <= span.end <= |text| && EntityOf(text, span) in out
  }

  lemma ChosenReported(text: string, chosen: seq<Span>, out: seq<Entity>, c: Span)
    requires Located(text, chosen, out) && c in chosen
    ensures Reported(text, c, out)
  {
    var i :| 0 <= i < |chosen| && chosen[i] == c;
    assert out[i] in out;
  }

  lemma CandidateLooks(text: string, letters: set<char>, spans: seq<Span>, c: Span)
    requires CandidatesOf(text, letters, spans) && c in spans
    ensures c.start < c.end <= |text| && OfKind(c.kind, text[c.start..c.end], letters)
  {
    CandidatesAreWhole(text, letters, spans, c);
    var e: nat :| WholeTo(text, letters, c, e);
    CutOfMatch(text, (c.start, e), c);
    KindOfCut(c.kind, text[c.start..e], text[c.start..c.end], letters);
  }

  /** Trimming a match inside the text is trimming it on its own. */
  lemma TrimmedAlone(text: string, s: nat, e: nat, t: nat)
    requires TrimmedTo(text, s, e, t)
    ensures TrimmedTo(text[s..e], 0, e - s, t - s)
  {
    var m := text[s..e];
    assert forall i | 0 <= i < |m| :: m[i] == text[s + i];
  }

  /** What a candidate cuts out of its match. */
  lemma CutOfMatch(text: string, loc: (nat, nat), c: Span)
    requires SpanOf(text, loc, c.kind, c)
    ensures c.start < c.end <= |text| && loc.0 <= loc.1 <= |text|
    ensures var m, cut := text[loc.0..loc.1], text[c.start..c.end];
            cut <= m && cut != "" && if c.kind.Url? then TrimmedTo(m, 0, |m|, |cut|) else cut == m
  {
    if c.kind.Url? {
      TrimmedAlone(text, loc.0, loc.1, c.end);
    }
  }

  lemma KindOfCut(kind: Kind, m: string, cut: string, letters: set<char>)
    requires Pattern(kind, m, letters) && cut <= m && cut != ""
    requires if kind.Url? then TrimmedTo(m, 0, |m|, |cut|) else cut == m
    ensures OfKind(kind, cut, letters)
  {
    assert cut == m[..|cut|];
  }

  // --- nothing is missed, nothing is cut short --------------------------------------------

  /** The span of a match that is as long as possible, of a link without its trailing punctuation. */
  ghost predicate Whole(text: string, letters: set<char>, c: Span) {
    exists e: nat :: WholeTo(text, letters, c, e)
  }

  ghost predicate WholeTo(text: string, letters: set<char>, c: Span, e: nat) {
    && Matched(text, c.kind, letters, (c.start, e)) && Longest(text, c.kind, letters, (c.start, e))
    && SpanOf(text, (c.start, e), c.kind, c)
  }

  lemma WholeMatch(text: string, letters: set<char>, kind: Kind, locs: seq<(nat, nat)>, i: int, c: Span)
    requires LeftmostLongest(text, kind, letters, locs) && 0 <= i < |locs| && SpanOf(text, locs[i], kind, c)
    ensures Whole(text, letters, c)
  {
    assert locs[i] == (c.start, locs[i].1);
    assert WholeTo(text, letters, c, locs[i].1);
  }

  function OfOneKind(kind: Kind, urls: seq<(nat, nat)>, mentions: seq<(nat, nat)>,
                     hashtags: seq<(nat, nat)>): seq<(nat, nat)> {
    match kind
    case Url => urls
    case Mention => mentions
    case Hashtag => hashtags
  }

  /** A candidate and the match it was made of, either from the other. */
  lemma MatchOfCandidate(text: string, urls: seq<(nat, nat)>, mentions: seq<(nat, nat)>, hashtags: seq<(nat, nat)>,
                         spans: seq<Span>, i: int) returns (j: int)
    requires Candidates(text, urls, mentions, hashtags, spans) && 0 <= i < |spans|
    ensures var locs := OfOneKind(spans[i].kind, urls, mentions, hashtags);
            0 <= j < |locs| && SpanOf(text, locs[j], spans[i].kind, spans[i])
  {
    var u, m := |urls|, |mentions|;
    j := if i < u then i else if i < u + m then i - u else i - u - m;
    if u <= i < u + m {
      assert SpanOf(text, mentions[j], Mention, spans[u + j]);
    } else if u + m <= i {
      assert SpanOf(text, hashtags[j], Hashtag, spans[u + m + j]);
    }
  }

  lemma CandidateOfMatch(text: string, urls: seq<(nat, nat)>, mentions: seq<(nat, nat)>, hashtags: seq<(nat, nat)>,
                         spans: seq<Span>, kind: Kind, j: int) returns (c: Span)
    requires Candidates(text, urls, mentions, hashtags, spans)
    requires 0 <= j < |OfOneKind(kind, urls, mentions, hashtags)|
    ensures c in spans && SpanOf(text, OfOneKind(kind, urls, mentions, hashtags)[j], kind, c)
  {
    var u, m := |urls|, |mentions|;
    match kind
    case Url => c := spans[j];
    case Mention => c := spans[u + j];
    case Hashtag => c := spans[u + m + j];
  }

  lemma CandidatesAreWhole(text: string, letters: set<char>, spans: seq<Span>, c: Span)
    requires CandidatesOf(text, letters, spans) && c in spans
    ensures Whole(text, letters, c)
  {
    var urls, mentions, hashtags :|
      AllMatches(text, letters, urls, mentions, hashtags) && Candidates(text, urls, mentions, hashtags, spans);
    var i :| 0 <= i < |spans| && spans[i] == c;
    var j := MatchOfCandidate(text, urls, mentions, hashtags, spans, i);
    AllOfKind(text, letters, urls, mentions, hashtags, c.kind);
    WholeMatch(text, letters, c.kind, OfOneKind(c.kind, urls, mentions, hashtags), j, c);
  }

  lemma AllOfKind(text: string, letters: set<char>, urls: seq<(nat, nat)>, mentions: seq<(nat, nat)>,
                  hashtags: seq<(nat, nat)>, kind: Kind)
    requires AllMatches(text, letters, urls, mentions, hashtags)
    ensures LeftmostLongest(text, kind, letters, OfOneKind(kind, urls, mentions, hashtags))
  {
  }

  lemma MatchCovering(text: string, letters: set<char>, kind: Kind, locs: seq<(nat, nat)>, m: (nat, nat))
    returns (j: int)
    requires LeftmostLongest(text, kind, letters, locs) && Matched(text, kind, letters, m)
    ensures 0 <= j < |locs| && locs[j].0 <= m.0 < locs[j].1
  {
    assert Inside(locs, m.0);
    j :| 0 <= j < |locs| && locs[j].0 <= m.0 < locs[j].1;
  }

  /** Trimming never reaches a character a match could begin with. */
  lemma InsideTrimmed(text: string, kind: Kind, letters: set<char>, m: (nat, nat), loc: (nat, nat), c: Span)
    requires Matched(text, kind, letters, m) && loc.0 <= m.0 < loc.1 && SpanOf(text, loc, kind, c)
    ensures c.start <= m.0 < c.end
  {
    StartsMatch(text, kind, letters, m);
    MatchLeads(text, m.0, kind, letters);
    assert kind.Url? ==> text[m.0] !in URL_TRAILING;
  }

  /** Every match of a pattern begins inside a candidate of its kind. */
  lemma MatchesAreCandidates(text: string, letters: set<char>, spans: seq<Span>, kind: Kind, m: (nat, nat))
    returns (c: Span)
    requires CandidatesOf(text, letters, spans) && Matched(text, kind, letters, m)
    ensures c in spans && c.kind == kind && c.start <= m.0 < c.end
  {
    var urls, mentions, hashtags :|
      AllMatches(text, letters, urls, mentions, hashtags) && Candidates(text, urls, mentions, hashtags, spans);
    AllOfKind(text, letters, urls, mentions, hashtags, kind);
    var locs := OfOneKind(kind, urls, mentions, hashtags);
    var j := MatchCovering(text, letters, kind, locs, m);
    c := CandidateOfMatch(text, urls, mentions, hashtags, spans, kind, j);
    InsideTrimmed(text, kind, letters, m, locs[j], c);
  }

  /** The candidate is reported, or begins inside a reported one. */
  ghost predicate Accounted(text: string, out: seq<Entity>, c: Span) {
    Reported(text, c, out) || exists d :: Reported(text, d, out) && Covers(d, c)
  }

  /**
   Wherever a pattern matches, that place lies inside a match as long as possible that is reported, or
   that begins inside a reported entity.
   */
  lemma NothingIsMissed(text: string, letters: set<char>, out: seq<Entity>, kind: Kind, m: (nat, nat))
    requires Detected(text, letters, out) && Matched(text, kind, letters, m)
    ensures exists c: Span ::
              && c.kind == kind && c.start <= m.0 < c.end
              && Whole(text, letters, c) && Accounted(text, out, c)
  {
    var spans, chosen :| CandidatesOf(text, letters, spans) && Selection(spans, chosen) && Located(text, chosen, out);
    var c := MatchesAreCandidates(text, letters, spans, kind, m);
    CandidatesAreWhole(text, letters, spans, c);
    FirstMatchWins(text, letters, out, spans, c);
  }

  /** Every reported entity is a match as long as possible: a mention or hashtag is never cut short. */
  lemma EntitiesAreWhole(text: string, letters: set<char>, out: seq<Entity>, i: int)
    requires Detected(text, letters, out) && 0 <= i < |out|
    ensures exists c: Span :: c.start <= c.end <= |text| && out[i] == EntityOf(text, c) && Whole(text, letters, c)
  {
    var spans, chosen :| CandidatesOf(text, letters, spans) && Selection(spans, chosen) && Located(text, chosen, out);
    assert chosen[i] in chosen;
    CandidatesAreWhole(text, letters, spans, chosen[i]);
  }

  // --- links that no longer match -----------------------------------------------------------

  /** Beginnings of different kinds exclude each other, so a shorter text cannot begin differently. */
  lemma LinkPrefixKept(m: string, t: nat)
    requires t <= |m| && 0 < LinkPrefix(m[..t], 0)
    ensures LinkPrefix(m[..t], 0) == LinkPrefix(m, 0)
  {
    assert m[0..0 + |m|] == m;
    assert m[..t] == m[0..0 + t];
    if HasPrefix(m[..t], 0, "https://") {
      PrefixInside(m, 0, t, "https://");
    } else if HasPrefix(m[..t], 0, "http://") {
      PrefixInside(m, 0, t, "http://");
      PrefixesExclude(m);
    } else {
      PrefixInside(m, 0, t, "www.");
      PrefixesExclude(m);
    }
  }

  /** A trimmed link still matches the pattern exactly when a character behind its beginning is not trailing. */
  lemma TrimmedLinkMatchesIff(m: string, t: nat, letters: set<char>)
    requires Pattern(Url, m, letters) && TrimmedTo(m, 0, |m|, t)
    ensures Pattern(Url, m[..t], letters) <==> exists k :: LinkPrefix(m, 0) <= k < |m| && m[k] !in URL_TRAILING
  {
    LinkIff(m);
    LinkIff(m[..t]);
    if k :| LinkPrefix(m, 0) <= k < |m| && m[k] !in URL_TRAILING {
      assert k < t;
      assert m[..t] == m[0..0 + t];
      LinkPrefixInside(m, 0, t);
    }
    if Pattern(Url, m[..t], letters) {
      LinkPrefixKept(m, t);
      assert LinkPrefix(m, 0) <= t - 1 < |m| && m[t - 1] !in URL_TRAILING;
    }
  }

  /** "www..." is a link by the pattern and is reported as "www", which is none. */
  lemma TrimmedLinkCanStopMatching(letters: set<char>)
    ensures Pattern(Url, "www...", letters) && TrimmedTo("www...", 0, 6, 3) && "www..."[..3] == "www"
    ensures !Pattern(Url, "www", letters)
  {
    var m := "www...";
    assert m[0] == 'w' && m[1] == 'w' && m[2] == 'w' && m[3] == '.' && m[4] == '.' && m[5] == '.';
    assert "www."[0] == 'w' && "www."[1] == 'w' && "www."[2] == 'w' && "www."[3] == '.';
    assert HasPrefix(m, 0, "www.");
    LinkIff(m);
    assert '.' in URL_TRAILING by {
      assert URL_TRAILING[0] == '.';
    }
    assert 'w' !in URL_TRAILING;
    TrimmedLinkMatchesIff(m, 3, letters);
    assert m[..3] == "www";
  }
}
