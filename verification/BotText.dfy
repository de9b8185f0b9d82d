/** Texts of the BotFather conversation: commands, names, usernames and tokens. */
module BotText {
  import opened Prelude

  // --- white space ---------------------------------------------------------------------

  /** The white space of Unicode, as strings.TrimSpace and strings.Fields treat it. */
  predicate IsSpace(c: char) {
    var u := c as int;
    || 9 <= u <= 13 || u == 0x20 || u == 0x85 || u == 0xA0 || u == 0x1680 || 0x2000 <= u <= 0x200A
    || u == 0x2028 || u == 0x2029 || u == 0x202F || u == 0x205F || u == 0x3000
  }

  function TrimLeft(s: string): string {
    if s != "" && IsSpace(s[0]) then TrimLeft(s[1..]) else s
  }

  function TrimRight(s: string): string {
    if s != "" && IsSpace(s[|s| - 1]) then TrimRight(s[..|s| - 1]) else s
  }

  function TrimSpace(s: string): string {
    TrimRight(TrimLeft(s))
  }

  /** The part of `s` before the first character satisfying `p`. */
  function Before(s: string, p: char -> bool): (b: string)
    ensures b <= s && forall i | 0 <= i < |b| :: !p(b[i])
    ensures |b| < |s| ==> p(s[|b|])
  {
    if s == "" || p(s[0]) then "" else [s[0]] + Before(s[1..], p)
  }

  predicate AllSpace(s: string) {
    forall i | 0 <= i < |s| :: IsSpace(s[i])
  }

  /** No white space at either end. */
  predicate Trimmed(s: string) {
    s != "" ==> !IsSpace(s[0]) && !IsSpace(s[|s| - 1])
  }

  lemma {:induction false} TrimLeftSpace(a: string, s: string)
    requires AllSpace(a)
    ensures TrimLeft(a + s) == TrimLeft(s)
  {
    if a == "" {
      assert a + s == s;
    } else {
      TrimLeftSpace(a[1..], s);
      assert (a + s)[1..] == a[1..] + s;
    }
  }

  lemma {:induction false} TrimRightSpace(s: string, b: string)
    requires AllSpace(b)
    ensures TrimRight(s + b) == TrimRight(s)
  {
    if b == "" {
      assert s + b == s;
    } else {
      TrimRightSpace(s, b[..|b| - 1]);
      assert (s + b)[..|s + b| - 1] == s + b[..|b| - 1];
    }
  }

  /** White space around a trimmed text is all that is removed. */
  lemma TrimSpaceIs(a: string, t: string, b: string)
    requires AllSpace(a) && Trimmed(t) && AllSpace(b)
    ensures TrimSpace(a + t + b) == t
  {
    assert a + t + b == a + (t + b);
    TrimLeftSpace(a, t + b);
    if t == "" {
      assert t + b == b && b + "" == b;
      TrimLeftSpace(b, "");
    } else {
      TrimRightSpace(t, b);
    }
  }

  // --- commands ------------------------------------------------------------------------

  predicate IsUpper(c: char) {
    'A' <= c <= 'Z'
  }

  /** Lower case; `lower` decides outside ASCII. */
  function Lower(lower: char -> char, c: char): char {
    if IsUpper(c) then (c as int + 32) as char
    else if c as int < 0x80 then c
    else lower(c)
  }

  function LowerAll(lower: char -> char, s: string): string {
    seq(|s|, i requires 0 <= i < |s| => Lower(lower, s[i]))
  }

  predicate IsAtSign(c: char) {
    c == '@'
  }

  /** The lower-cased head of a command, without arguments and without "@botname"; None for other texts. */
  function BotCommand(lower: char -> char, text: string): Option<string> {
    if text == "" || text[0] != '/' then None
    else
      var head := Before(text, IsSpace);
      Some(LowerAll(lower, Before(head, IsAtSign)))
  }

  /** The part before the first such character is determined by where that character stands. */
  lemma BeforeIs(s: string, p: char -> bool, n: nat)
    requires n <= |s| && (forall i | 0 <= i < n :: !p(s[i])) && (n < |s| ==> p(s[n]))
    ensures Before(s, p) == s[..n]
  {
    var b := Before(s, p);
    assert forall i | 0 <= i < |b| :: b[i] == s[i];
  }

  lemma BeforeConcat(a: string, b: string, p: char -> bool)
    requires forall i | 0 <= i < |a| :: !p(a[i])
    ensures Before(a + b, p) == a + Before(b, p)
  {
    var r := Before(b, p);
    var n := |a| + |r|;
    forall i | 0 <= i < n ensures !p((a + b)[i]) {
      assert (a + b)[i] == if i < |a| then a[i] else r[i - |a|];
    }
    BeforeIs(a + b, p, n);
  }

  /** A slash and lower-case letters. */
  predicate IsCommandName(cmd: string) {
    |cmd| >= 2 && cmd[0] == '/' && forall i | 1 <= i < |cmd| :: 'a' <= cmd[i] <= 'z'
  }

  /** The word is the command, each letter in either case. */
  predicate Spells(word: string, cmd: string) {
    |word| == |cmd| && forall i | 0 <= i < |cmd| ::
      word[i] == cmd[i] || ('a' <= cmd[i] <= 'z' && word[i] as int == cmd[i] as int - 32)
  }

  /** A command, after white space, alone or followed by "@" and a name or by white space and arguments. */
  ghost predicate IsCommandText(text: string, cmd: string) {
    exists a, word, rest :: text == a + word + rest && CommandParts(a, word, rest, cmd)
  }

  ghost predicate CommandParts(a: string, word: string, rest: string, cmd: string) {
    && AllSpace(a) && IsCommandName(cmd) && Spells(word, cmd)
    && (rest != "" ==> rest[0] == '@' || IsSpace(rest[0]))
  }

  lemma {:induction false} TrimRightKeeps(word: string, rest: string) returns (n: nat)
    requires word != "" && !IsSpace(word[|word| - 1])
    ensures n <= |rest| && TrimRight(word + rest) == word + rest[..n]
  {
    if rest == "" {
      n := 0;
      assert word + rest == word;
    } else if IsSpace(rest[|rest| - 1]) {
      n := TrimRightKeeps(word, rest[..|rest| - 1]);
      assert (word + rest)[..|word + rest| - 1] == word + rest[..|rest| - 1];
      assert rest[..|rest| - 1][..n] == rest[..n];
    } else {
      n := |rest|;
      assert rest[..n] == rest;
    }
  }

  /** However a command is written, its head is the command. */
  lemma CommandRead(lower: char -> char, text: string, cmd: string)
    requires IsCommandText(text, cmd)
    ensures BotCommand(lower, TrimSpace(text)) == Some(cmd)
  {
    var a, word, rest :| text == a + word + rest && CommandParts(a, word, rest, cmd);
    assert a + word + rest == a + (word + rest);
    TrimLeftSpace(a, word + rest);
    var n := TrimRightKeeps(word, rest);
    HeadRead(lower, word, rest[..n], cmd);
  }

  lemma SpelledLower(lower: char -> char, word: string, cmd: string)
    requires IsCommandName(cmd) && Spells(word, cmd)
    ensures LowerAll(lower, word) == cmd
  {
    forall i | 0 <= i < |cmd| ensures Lower(lower, word[i]) == cmd[i] {
      assert 'a' <= cmd[i] <= 'z' || cmd[i] == '/';
    }
  }

  lemma HeadRead(lower: char -> char, word: string, rest: string, cmd: string)
    requires CommandParts("", word, rest, cmd)
    ensures BotCommand(lower, word + rest) == Some(cmd)
  {
    BeforeConcat(word, rest, IsSpace);
    BeforeConcat(word, Before(rest, IsSpace), IsAtSign);
    assert Before(Before(rest, IsSpace), IsAtSign) == "";
    SpelledLower(lower, word, cmd);
    assert word[0] == '/' && word + "" == word;
  }

  /** A text that is no command: `t` with white space around it. */
  ghost predicate IsAnswerText(text: string, t: string) {
    Trimmed(t) && (t != "" ==> t[0] != '/') && exists a, b :: AllSpace(a) && AllSpace(b) && text == a + t + b
  }

  lemma AnswerRead(lower: char -> char, text: string, t: string)
    requires IsAnswerText(text, t)
    ensures TrimSpace(text) == t && BotCommand(lower, t) == None
  {
    var a, b :| AllSpace(a) && AllSpace(b) && text == a + t + b;
    TrimSpaceIs(a, t, b);
  }

  /** A text that gives the username `w`, with or without "@" before it. */
  ghost predicate GivesUsername(text: string, w: string) {
    IsAnswerText(text, "@" + w) || (IsAnswerText(text, w) && (w != "" ==> w[0] != '@'))
  }

  lemma UsernameRead(lower: char -> char, text: string, w: string)
    requires GivesUsername(text, w)
    ensures BotCommand(lower, TrimSpace(text)) == None && TrimAt(TrimSpace(text)) == w
  {
    if IsAnswerText(text, "@" + w) {
      AnswerRead(lower, text, "@" + w);
      assert ("@" + w)[1..] == w;
    } else {
      AnswerRead(lower, text, w);
    }
  }

  // --- names -----------------------------------------------------------------------------

  /** Bytes of a character in UTF-8. */
  function Utf8Width(c: char): int {
    var u := c as int;
    if u < 0x80 then 1 else if u < 0x800 then 2 else if u < 0x10000 then 3 else 4
  }

  function Utf8Length(s: string): int {
    if s == "" then 0 else Utf8Length(s[..|s| - 1]) + Utf8Width(s[|s| - 1])
  }

  /** A character in UTF-8 (section 3 of RFC 3629). */
  function Utf8(c: char): seq<int> {
    var u := c as int;
    if u < 0x80 then [u]
    else if u < 0x800 then [0xC0 + u / 0x40, 0x80 + u % 0x40]
    else if u < 0x10000 then [0xE0 + u / 0x1000, 0x80 + u / 0x40 % 0x40, 0x80 + u % 0x40]
    else [0xF0 + u / 0x40000, 0x80 + u / 0x1000 % 0x40, 0x80 + u / 0x40 % 0x40, 0x80 + u % 0x40]
  }

  /** The character a lead byte and its trailing bytes stand for. */
  function FromUtf8(bytes: seq<int>): int {
    if |bytes| == 1 && bytes[0] < 0x80 then bytes[0]
    else if |bytes| == 2 && 0xC0 <= bytes[0] < 0xE0 then (bytes[0] - 0xC0) * 0x40 + (bytes[1] - 0x80)
    else if |bytes| == 3 && 0xE0 <= bytes[0] < 0xF0 then
      (bytes[0] - 0xE0) * 0x1000 + (bytes[1] - 0x80) * 0x40 + (bytes[2] - 0x80)
    else if |bytes| == 4 && 0xF0 <= bytes[0] < 0xF8 then
      (bytes[0] - 0xF0) * 0x40000 + (bytes[1] - 0x80) * 0x1000 + (bytes[2] - 0x80) * 0x40 + (bytes[3] - 0x80)
    else -1
  }

  /** The width of a character is the length of its encoding, which can be read back. */
  lemma Utf8Read(c: char)
    ensures |Utf8(c)| == Utf8Width(c) && FromUtf8(Utf8(c)) == c as int
  {
    var u := c as int;
    SixBits(u);
    SixBits(u / 0x40);
    SixBits(u / 0x1000);
    assert u / 0x40 / 0x40 == u / 0x1000 && u / 0x1000 / 0x40 == u / 0x40000;
  }

  lemma SixBits(n: int)
    requires n >= 0
    ensures n == n / 0x40 * 0x40 + n % 0x40 && 0 <= n % 0x40 < 0x40
  {
  }

  function Utf8All(s: string): seq<int> {
    if s == "" then [] else Utf8All(s[..|s| - 1]) + Utf8(s[|s| - 1])
  }

  lemma {:induction false} Utf8LengthIs(s: string)
    ensures Utf8Length(s) == |Utf8All(s)|
  {
    if s != "" {
      Utf8LengthIs(s[..|s| - 1]);
      Utf8Read(s[|s| - 1]);
    }
  }

  predicate ValidBotName(name: string) {
    name != "" && Utf8Length(name) <= 64 && name[0] != '/'
  }

  predicate IsAsciiLetter(c: char) {
    'a' <= c <= 'z' || 'A' <= c <= 'Z'
  }

  predicate IsUsernameChar(c: char) {
    IsAsciiLetter(c) || '0' <= c <= '9' || c == '_'
  }

  /** 5 to 32 letters, digits and underscores, beginning with a letter and ending in "bot" in any case. */
  predicate AcceptableUsername(u: string) {
    && 5 <= |u| <= 32
    && IsAsciiLetter(u[0])
    && (forall i | 0 <= i < |u| :: IsUsernameChar(u[i]))
    && (u[|u| - 3] == 'b' || u[|u| - 3] == 'B')
    && (u[|u| - 2] == 'o' || u[|u| - 2] == 'O')
    && (u[|u| - 1] == 't' || u[|u| - 1] == 'T')
  }

  lemma {:induction false} Utf8AtLeast(s: string)
    ensures Utf8Length(s) >= |s|
    ensures (forall i | 0 <= i < |s| :: s[i] as int < 0x80) ==> Utf8Length(s) == |s|
  {
    if s != "" {
      Utf8AtLeast(s[..|s| - 1]);
    }
  }

  /** The checks in the code's order, lengths in bytes; characters outside ASCII end in a refusal. */
  method ValidBotUsername(lower: char -> char, u: string) returns (ok: bool)
    ensures ok == AcceptableUsername(u)
  {
    Utf8AtLeast(u);
    assert AcceptableUsername(u) ==> Utf8Length(u) == |u|;
    if Utf8Length(u) < 5 || Utf8Length(u) > 32 {
      return false;
    }
    if !IsAsciiLetter(u[0]) {
      return false;
    }
    for i := 0 to |u|
      invariant forall k | 0 <= k < i :: IsUsernameChar(u[k])
    {
      if !IsUsernameChar(u[i]) {
        return false;
      }
    }
    var l := LowerAll(lower, u);
    assert Utf8Length(u) == |u|;
    ok := l[|l| - 3..] == "bot";
    SuffixBot(lower, u);
  }

  lemma SuffixBot(lower: char -> char, u: string)
    requires |u| >= 5 && forall i | 0 <= i < |u| :: IsUsernameChar(u[i])
    ensures LowerAll(lower, u)[|u| - 3..] == "bot" <==>
            && (u[|u| - 3] == 'b' || u[|u| - 3] == 'B')
            && (u[|u| - 2] == 'o' || u[|u| - 2] == 'O')
            && (u[|u| - 1] == 't' || u[|u| - 1] == 'T')
  {
    var l := LowerAll(lower, u);
    var n := |u|;
    assert l[n - 3..] == [l[n - 3], l[n - 2], l[n - 1]];
    assert "bot" == ['b', 'o', 't'];
    LowerIs(lower, u[n - 3], 'b');
    LowerIs(lower, u[n - 2], 'o');
    LowerIs(lower, u[n - 1], 't');
  }

  lemma LowerIs(lower: char -> char, c: char, letter: char)
    requires IsUsernameChar(c) && 'a' <= letter <= 'z'
    ensures Lower(lower, c) == letter <==> c == letter || c == (letter as int - 32) as char
  {
  }

  function TrimAt(s: string): string {
    if s != "" && s[0] == '@' then s[1..] else s
  }

  /** Equality under case folding, character by character. */
  predicate EqualFold(fold: char -> char, a: string, b: string) {
    |a| == |b| && forall i | 0 <= i < |a| :: fold(a[i]) == fold(b[i])
  }

  // --- tokens --------------------------------------------------------------------------------

  function Digit(d: int): char
    requires 0 <= d < 10
  {
    ('0' as int + d) as char
  }

  /** Decimal notation of a user id. */
  function Decimal(n: nat): (s: string)
    ensures s != "" && forall i | 0 <= i < |s| :: '0' <= s[i] <= '9'
  {
    if n < 10 then [Digit(n)] else Decimal(n / 10) + [Digit(n % 10)]
  }

  function Parse(s: string): int {
    if s == "" then 0 else 10 * Parse(s[..|s| - 1]) + (s[|s| - 1] as int - '0' as int)
  }

  lemma {:induction false} ParseDecimal(n: nat)
    ensures Parse(Decimal(n)) == n
  {
    if n < 10 {
      assert Decimal(n)[..0] == "";
    } else {
      ParseDecimal(n / 10);
      var s := Decimal(n);
      assert s[..|s| - 1] == Decimal(n / 10);
    }
  }

  function TokenOf(id: nat, secret: string): string {
    Decimal(id) + ":" + secret
  }

  /** The bot id a token names: what stands before its first colon. */
  function BotIdOf(token: string): int {
    Parse(Before(token, c => c == ':'))
  }

  lemma {:induction false} BeforeStops(a: string, p: char -> bool, c: char, b: string)
    requires p(c) && forall i | 0 <= i < |a| :: !p(a[i])
    ensures Before(a + [c] + b, p) == a
  {
    if a == "" {
      assert ("" + [c] + b)[0] == c;
    } else {
      BeforeStops(a[1..], p, c, b);
      assert (a + [c] + b)[1..] == a[1..] + [c] + b;
      assert a == [a[0]] + a[1..];
    }
  }

  /** A token parses back to the id it was made for, and its secret stands behind the first colon. */
  lemma TokenNamesItsBot(id: nat, secret: string)
    ensures BotIdOf(TokenOf(id, secret)) == id
    ensures var d := Before(TokenOf(id, secret), c => c == ':');
            TokenOf(id, secret) == d + ":" + secret && forall i | 0 <= i < |d| :: '0' <= d[i] <= '9'
  {
    var p := c => c == ':';
    assert TokenOf(id, secret) == Decimal(id) + [':'] + secret;
    BeforeStops(Decimal(id), p, ':', secret);
    ParseDecimal(id);
  }
}
