/** The texts of the repository's own tests and prompts, run through the model. */
module Examples {
  import opened Entities
  import BotText
  import PhoneLogin

  // --- entities --------------------------------------------------------------------------

  lemma {:induction false} NarrowLength(s: string)
    requires forall i | 0 <= i < |s| :: s[i] as int < 0x10000
    ensures |Utf16(s)| == |s|
  {
    if s != "" {
      NarrowLength(s[..|s| - 1]);
    }
  }

  /** Without a character a match could begin with, there is none. */
  lemma NoneOfKind(text: string, kind: Kind, letters: set<char>)
    requires forall i | 0 <= i < |text| :: MatchLength(text, i, kind, letters) == 0
    ensures LeftmostLongest(text, kind, letters, [])
  {
    forall i | 0 <= i < |text| ensures Lengths(text, kind, letters)[i] == 0 {
      LengthAt(text, kind, letters, i);
    }
    FoundIff(text, kind, letters, []);
  }

  /** One place where the pattern matches, and no other outside that match. */
  lemma OneOfKind(text: string, kind: Kind, letters: set<char>, s: nat, e: nat)
    requires s < e <= |text| && MatchLength(text, s, kind, letters) == e - s
    requires forall i | 0 <= i < |text| && !(s <= i < e) :: MatchLength(text, i, kind, letters) == 0
    ensures LeftmostLongest(text, kind, letters, [(s, e)])
  {
    var locs := [(s, e)];
    var lens := Lengths(text, kind, letters);
    forall i | 0 <= i < |text| ensures lens[i] == MatchLength(text, i, kind, letters) {
      LengthAt(text, kind, letters, i);
    }
    forall p: nat | p < |text| && lens[p] > 0 ensures Inside(locs, p) {
      assert locs[0].0 <= p < locs[0].1;
    }
    FoundIff(text, kind, letters, locs);
  }

  /** A text whose only matches are one link, which ends in trailing punctuation from `t` on. */
  lemma LoneLink(text: string, letters: set<char>, s: nat, t: nat, e: nat, offset: int, length: int)
    requires s < t <= e <= |text| && TrimmedTo(text, s, e, t) && MatchLength(text, s, Url, letters) == e - s
    requires forall i | 0 <= i < |text| && !(s <= i < e) :: LinkPrefix(text, i) == 0
    requires forall i | 0 <= i < |text| :: text[i] != '@' && text[i] != '#'
    requires offset == |Utf16(text[..s])| && length == |Utf16(text[s..t])|
    ensures Detected(text, letters, [Entity(Url, offset, length)])
  {
    OneOfKind(text, Url, letters, s, e);
    NoneOfKind(text, Mention, letters);
    NoneOfKind(text, Hashtag, letters);
    var spans := [Span(s, t, Url)];
    assert SpanOf(text, (s, e), Url, spans[0]);
    assert Candidates(text, [(s, e)], [], [], spans);
    CandidatesWitness(text, letters, [(s, e)], [], [], spans);
    assert Selection(spans, spans) && Located(text, spans, [EntityOf(text, spans[0])]);
  }

  /** A link begins with one of four letters. */
  lemma LinkLeads(text: string, i: nat)
    requires i < |text| && LinkPrefix(text, i) > 0
    ensures text[i] == 'h' || text[i] == 'H' || text[i] == 'w' || text[i] == 'W'
  {
    if HasPrefix(text, i, "https://") {
      PrefixLeads(text, i, "https://", 'h');
    } else if HasPrefix(text, i, "http://") {
      PrefixLeads(text, i, "http://", 'h');
    } else {
      PrefixLeads(text, i, "www.", 'w');
    }
  }

  lemma NoLinkAt(text: string, i: nat)
    requires i < |text| && text[i] != 'h' && text[i] != 'H' && text[i] != 'w' && text[i] != 'W'
    ensures LinkPrefix(text, i) == 0
  {
    if LinkPrefix(text, i) > 0 {
      LinkLeads(text, i);
      assert false;
    }
  }

  /** A link of visible ASCII characters up to the end of the text. */
  lemma LinkToEnd(text: string, letters: set<char>, s: nat)
    requires s + 8 < |text| && HasPrefix(text, s, "https://")
    requires forall k | s <= k < |text| :: '!' <= text[k] <= '~'
    ensures MatchLength(text, s, Url, letters) == |text| - s
  {
    forall k | s + 8 <= k < |text| ensures NonSpace(text[k]) {
    }
    RunAtLeast(text, s + 8, NonSpace, |text| - s - 8);
  }

  const TRIMMED := "go to https://example.com)."

  lemma TrimmedFacts()
    ensures |TRIMMED| == 27 && TRIMMED[24] == 'm' && TRIMMED[25] == ')' && TRIMMED[26] == '.'
    ensures forall i | 0 <= i < 6 :: TRIMMED[i] != 'h' && TRIMMED[i] != 'H' && TRIMMED[i] != 'w' && TRIMMED[i] != 'W'
    ensures forall i | 0 <= i < 27 :: TRIMMED[i] != '@' && TRIMMED[i] != '#' && TRIMMED[i] as int < 0x10000
    ensures forall k | 6 <= k < 27 :: '!' <= TRIMMED[k] <= '~'
  {
  }

  lemma TrimmedHasLink()
    ensures HasPrefix(TRIMMED, 6, "https://")
  {
    assert "https://"[..8] == TRIMMED[6..14];
    assert forall k | 0 <= k < 8 :: TRIMMED[6 + k] == TRIMMED[6..14][k];
  }

  /** Trailing punctuation is trimmed. */
  lemma TrimmedLinkText(letters: set<char>)
    ensures Detected(TRIMMED, letters, [Entity(Url, 6, 19)])
  {
    TrimmedFacts();
    TrimmedHasLink();
    LinkToEnd(TRIMMED, letters, 6);
    forall i | 0 <= i < 6 ensures LinkPrefix(TRIMMED, i) == 0 {
      NoLinkAt(TRIMMED, i);
    }
    assert URL_TRAILING[0] == '.' && URL_TRAILING[6] == ')';
    NarrowLength(TRIMMED[..6]);
    NarrowLength(TRIMMED[6..25]);
    LoneLink(TRIMMED, letters, 6, 25, 27, 6, 19);
  }

  const WIDE := "\U{1F600} https://x.com"

  lemma WideFacts()
    ensures |WIDE| == 15 && WIDE[14] == 'm' && WIDE[0] == '\U{1F600}' && WIDE[1] == ' '
    ensures forall i | 0 <= i < 15 :: WIDE[i] != '@' && WIDE[i] != '#'
    ensures forall k | 2 <= k < 15 :: '!' <= WIDE[k] <= '~'
  {
  }

  lemma WideHasLink()
    ensures HasPrefix(WIDE, 2, "https://")
  {
    assert "https://"[..8] == WIDE[2..10];
    assert forall k | 0 <= k < 8 :: WIDE[2 + k] == WIDE[2..10][k];
  }

  lemma WideLengths()
    ensures |Utf16(WIDE[..2])| == 3 && |Utf16(WIDE[2..15])| == 13
  {
    WideFacts();
    assert WIDE[..2][..1] == WIDE[..1] && WIDE[..1][..0] == [];
    assert Utf16(WIDE[..1]) == Utf16([]) + Units(WIDE[0]);
    assert Utf16(WIDE[..2]) == Utf16(WIDE[..1]) + Units(WIDE[1]);
    NarrowLength(WIDE[2..15]);
  }

  lemma NotTrailing(text: string, s: nat)
    requires s < |text| && text[|text| - 1] == 'm'
    ensures TrimmedTo(text, s, |text|, |text|)
  {
  }

  lemma LinkAfterTwo(text: string, letters: set<char>)
    requires |text| == 15 && HasPrefix(text, 2, "https://") && text[14] == 'm'
    requires LinkPrefix(text, 0) == 0 && LinkPrefix(text, 1) == 0
    requires forall i | 0 <= i < 15 :: text[i] != '@' && text[i] != '#'
    requires forall k | 2 <= k < 15 :: '!' <= text[k] <= '~'
    requires |Utf16(text[..2])| == 3 && |Utf16(text[2..15])| == 13
    ensures Detected(text, letters, [Entity(Url, 3, 13)])
  {
    LinkToEnd(text, letters, 2);
    NotTrailing(text, 2);
    LoneLink(text, letters, 2, 15, 15, 3, 13);
  }

  /** The emoji counts as two. */
  lemma WideCharacterText(letters: set<char>)
    ensures Detected(WIDE, letters, [Entity(Url, 3, 13)])
  {
    WideFacts();
    WideHasLink();
    WideLengths();
    NoLinkAt(WIDE, 0);
    NoLinkAt(WIDE, 1);
    LinkAfterTwo(WIDE, letters);
  }

  const NAMED := "@ada uses #golang"

  lemma NamedFacts()
    ensures |NAMED| == 17 && NAMED[0] == '@' && NAMED[4] == ' ' && NAMED[10] == '#'
    ensures forall i | 0 <= i < 17 :: NAMED[i] != 'h' && NAMED[i] != 'H' && NAMED[i] != 'w' && NAMED[i] != 'W'
    ensures forall i | 0 < i < 17 :: NAMED[i] != '@'
    ensures forall i | 0 <= i < 17 && i != 10 :: NAMED[i] != '#'
    ensures forall i | 1 <= i < 4 :: 'a' <= NAMED[i] <= 'z'
    ensures forall i | 11 <= i < 17 :: 'a' <= NAMED[i] <= 'z'
    ensures forall i | 0 <= i < 17 :: NAMED[i] as int < 0x10000
  {
  }

  lemma NamedMatches(letters: set<char>)
    requires forall c | 'a' <= c <= 'z' :: c in letters
    ensures LeftmostLongest(NAMED, Url, letters, [])
    ensures LeftmostLongest(NAMED, Mention, letters, [(0, 4)])
    ensures LeftmostLongest(NAMED, Hashtag, letters, [(10, 17)])
  {
    NamedFacts();
    forall i | 0 <= i < 17 ensures MatchLength(NAMED, i, Url, letters) == 0 {
      NoLinkAt(NAMED, i);
    }
    NoneOfKind(NAMED, Url, letters);
    RunAtLeast(NAMED, 1, WordChar, 3);
    OneOfKind(NAMED, Mention, letters, 0, 4);
    RunAtLeast(NAMED, 11, c => TagChar(letters, c), 6);
    OneOfKind(NAMED, Hashtag, letters, 10, 17);
  }

  lemma NamedLengths()
    ensures |Utf16(NAMED[..0])| == 0 && |Utf16(NAMED[0..4])| == 4
    ensures |Utf16(NAMED[..10])| == 10 && |Utf16(NAMED[10..17])| == 7
  {
    NamedFacts();
    NarrowLength(NAMED[..0]);
    NarrowLength(NAMED[0..4]);
    NarrowLength(NAMED[..10]);
    NarrowLength(NAMED[10..17]);
  }

  lemma MentionThenHashtag(text: string, letters: set<char>)
    requires |text| == 17
    requires LeftmostLongest(text, Url, letters, []) && LeftmostLongest(text, Mention, letters, [(0, 4)])
    requires LeftmostLongest(text, Hashtag, letters, [(10, 17)])
    requires |Utf16(text[..0])| == 0 && |Utf16(text[0..4])| == 4
    requires |Utf16(text[..10])| == 10 && |Utf16(text[10..17])| == 7
    ensures Detected(text, letters, [Entity(Mention, 0, 4), Entity(Hashtag, 10, 7)])
  {
    var spans := [Span(0, 4, Mention), Span(10, 17, Hashtag)];
    assert Candidates(text, [], [(0, 4)], [(10, 17)], spans);
    CandidatesWitness(text, letters, [], [(0, 4)], [(10, 17)], spans);
    assert Selection(spans, spans);
    assert Located(text, spans, [Entity(Mention, 0, 4), Entity(Hashtag, 10, 7)]);
  }

  /** A mention and a hashtag. */
  lemma MentionAndHashtagText(letters: set<char>)
    requires forall c | 'a' <= c <= 'z' :: c in letters
    ensures Detected(NAMED, letters, [Entity(Mention, 0, 4), Entity(Hashtag, 10, 7)])
  {
    NamedMatches(letters);
    NamedLengths();
    assert |NAMED| == 17;
    MentionThenHashtag(NAMED, letters);
  }

  /** The characters at the edges of the classes the patterns use. */
  lemma CharacterClasses()
    ensures forall c | c in "AZaz09_" :: WordChar(c)
    ensures forall c | c in "@[`{/:- .#" :: !WordChar(c)
    ensures forall c | c in ".,!?;:)]}'\"\U{00BB}\U{2026}" :: c in URL_TRAILING
    ensures forall c | c in "([{</-_a0" :: c !in URL_TRAILING
    ensures forall c | c in "\t\n\r \U{000C}" :: !NonSpace(c)
    ensures NonSpace('\U{00A0}') && NonSpace('\U{000B}') && NonSpace('.')
    ensures Folds('S', 's') && Folds('\U{017F}', 's') && Folds('W', 'w') && !Folds('x', 'w')
  {
    assert URL_TRAILING == ".,!?;:)]}'\"\U{00BB}\U{2026}";
  }

  // --- the BotFather's texts ---------------------------------------------------------------

  /** The usernames the prompt suggests are accepted; one without the ending or with a dash is not. */
  lemma SuggestedUsernames()
    ensures BotText.AcceptableUsername("TetrisBot") && BotText.AcceptableUsername("tetris_bot")
    ensures !BotText.AcceptableUsername("tetris") && !BotText.AcceptableUsername("a-tetris-bot")
    ensures !BotText.AcceptableUsername("abot") && !BotText.AcceptableUsername("1tetris_bot")
  {
    var u := "a-tetris-bot";
    assert !BotText.IsUsernameChar(u[1]);
  }

  lemma CommandForm(a: string, word: string, rest: string)
    requires BotText.CommandParts(a, word, rest, "/newbot")
    ensures BotText.IsCommandText(a + word + rest, "/newbot")
  {
  }

  lemma PlainForm()
    ensures BotText.IsCommandName("/newbot") && BotText.Spells("/newbot", "/newbot")
    ensures BotText.IsCommandText("/newbot@BotFather", "/newbot")
  {
    CommandForm("", "/newbot", "@BotFather");
    assert "/newbot@BotFather" == "" + "/newbot" + "@BotFather";
  }

  lemma MixedForm()
    ensures BotText.IsCommandText("\t /NewBot please\n", "/newbot")
  {
    assert BotText.Spells("/NewBot", "/newbot");
    CommandForm("\t ", "/NewBot", " please\n");
    assert "\t /NewBot please\n" == "\t " + "/NewBot" + " please\n";
  }

  /** Ways of writing one command. */
  lemma CommandForms()
    ensures BotText.IsCommandText("/newbot@BotFather", "/newbot")
    ensures BotText.IsCommandText("\t /NewBot please\n", "/newbot")
  {
    PlainForm();
    MixedForm();
  }

  // --- login codes ----------------------------------------------------------------------------

  /** The number of the comment, and an ordinary one. */
  lemma CodesOfNumbers()
    ensures PhoneLogin.IsCodeOf("9996621234", "22222") && PhoneLogin.IsCodeOf("15551234567", "12345")
  {
    assert "9996621234" == "99966" + ['2'] + "1234";
    assert PhoneLogin.AllDigits("1234");
    assert PhoneLogin.IsCodeOf("9996621234", ['2', '2', '2', '2', '2']);
    assert ['2', '2', '2', '2', '2'] == "22222";
    assert |"15551234567"| == 11;
  }
}
