/** Logging in by phone: numbers reduced to digits, codes issued and checked, accounts created once. */
module PhoneLogin {
  import opened Prelude
  import Messaging
  import Sessions

  // --- numbers and codes ------------------------------------------------------------------

  predicate IsDigit(c: char) {
    '0' <= c <= '9'
  }

  predicate AllDigits(s: string) {
    forall i | 0 <= i < |s| :: IsDigit(s[i])
  }

  /** The digits of a string, in order. */
  function Digits(s: string): (d: string)
    ensures AllDigits(d) && |d| <= |s|
  {
    if s == "" then ""
    else
      var init := Digits(s[..|s| - 1]);
      if IsDigit(s[|s| - 1]) then init + [s[|s| - 1]] else init
  }

  method NormalizePhone(phone: string) returns (d: string)
    ensures d == Digits(phone)
  {
    d := "";
    for i := 0 to |phone|
      invariant d == Digits(phone[..i])
    {
      assert phone[..i + 1][..i] == phone[..i];
      if IsDigit(phone[i]) {
        d := d + [phone[i]];
      }
    }
    assert phone[..|phone|] == phone;
  }

  /** A number already in canonical form stays as it is. */
  lemma {:induction false} DigitsOfDigits(s: string)
    requires AllDigits(s)
    ensures Digits(s) == s
  {
    if s != "" {
      DigitsOfDigits(s[..|s| - 1]);
      assert IsDigit(s[|s| - 1]);
    }
  }

  /** Formatting between the digits does not matter: inserting a non-digit changes nothing. */
  lemma {:induction false} FormattingIgnored(a: string, c: char, b: string)
    requires !IsDigit(c)
    ensures Digits(a + [c] + b) == Digits(a + b)
    decreases |b|
  {
    if b == "" {
      assert (a + [c] + b)[..|a|] == a && a + b == a;
    } else {
      FormattingIgnored(a, c, b[..|b| - 1]);
      assert (a + [c] + b)[..|a + b|] == a + [c] + b[..|b| - 1];
      assert (a + b)[..|a + b| - 1] == a + b[..|b| - 1];
    }
  }

  const DEV_PHONE_CODE := "12345"
  const CODE_TTL := 600

  /** A test account number 99966XYYYY, with an optional leading plus. */
  predicate IsTestPhone(p: string) {
    var d := if p != "" && p[0] == '+' then p[1..] else p;
    |d| == 10 && AllDigits(d) && d[..5] == "99966" && d[5] != '0'
  }

  /** The datacenter digit five times for a test account, the fixed code otherwise. */
  function PhoneCode(p: string): (code: string)
    ensures |code| == 5 && AllDigits(code)
  {
    if IsTestPhone(p) then
      var x := if p[0] == '+' then p[6] else p[5];
      [x, x, x, x, x]
    else DEV_PHONE_CODE
  }

  /** The code of a test account 99966XYYYY is its datacenter digit X five times; every other number has 12345. */
  lemma TestAccountCode(x: char, y: string)
    requires '1' <= x <= '9' && |y| == 4 && AllDigits(y)
    ensures PhoneCode("99966" + [x] + y) == [x, x, x, x, x]
    ensures PhoneCode("+" + ("99966" + [x] + y)) == [x, x, x, x, x]
  {
    var d := "99966" + [x] + y;
    assert ("+" + d)[1..] == d;
    assert d[..5] == "99966" && d[5] == x && d[0] == '9';
    assert forall i | 0 <= i < 5 :: d[i] == "99966"[i];
    assert forall i | 6 <= i < 10 :: d[i] == y[i - 6];
    assert AllDigits(d);
  }

  lemma OtherNumbersCode(d: string)
    requires AllDigits(d) && forall x, y | '1' <= x <= '9' && |y| == 4 && AllDigits(y) :: d != "99966" + [x] + y
    ensures PhoneCode(d) == "12345"
  {
    assert d != "" ==> IsDigit(d[0]);
    assert |d| == 10 && d[..5] == "99966" ==> d == "99966" + [d[5]] + d[6..] && IsDigit(d[5]);
  }

  /** The storage key of an issued code. */
  function CodeKey(phone: string, codeHash: string): string {
    phone + ['\0'] + codeHash
  }

  lemma CodeKeyInjective(p: string, g: string, q: string, h: string)
    requires AllDigits(p) && AllDigits(q) && CodeKey(p, g) == CodeKey(q, h)
    ensures p == q && g == h
  {
    var k := CodeKey(p, g);
    assert k[|p|] == '\0' && k[|q|] == '\0';
    assert forall i | 0 <= i < |p| :: k[i] == p[i] && IsDigit(k[i]);
    assert forall i | 0 <= i < |q| :: k[i] == q[i] && IsDigit(k[i]);
    assert |p| == |q|;
    assert k[..|p|] == p && k[..|q|] == q;
    assert k[|p| + 1..] == g && k[|q| + 1..] == h;
  }

  // --- the tables over time -----------------------------------------------------------------

  datatype Code = Code(code: string, expiresAt: int)

  /** `phones` gives the number of every account, empty for bots. */
  datatype State = State(now: int, userSeq: int, phones: map<int, string>, codes: map<string, Code>)

  datatype Op =
    | SendCode(phone: string, codeHash: string)
    | SignUp(phone: string, codeHash: string)
    | AddBot
    | Tick(elapsed: nat)

  datatype Check = CodeOk | CodeExpired | CodeInvalid

  function CheckCode(s: State, phone: string, codeHash: string, code: string): Check {
    var k := CodeKey(phone, codeHash);
    if k !in s.codes || s.codes[k].expiresAt <= s.now then CodeExpired
    else if code != s.codes[k].code then CodeInvalid
    else CodeOk
  }

  ghost predicate Taken(s: State, phone: string) {
    exists u :: u in s.phones && s.phones[u] == phone
  }

  /** Signing up succeeds with an accepted code and a number nobody has. */
  ghost predicate Admits(s: State, phone: string, codeHash: string) {
    CheckCode(s, Digits(phone), codeHash, PhoneCode(Digits(phone))).CodeOk? && !Taken(s, Digits(phone))
  }

  function NewAccount(s: State, phone: string): State {
    s.(userSeq := s.userSeq + 1, phones := s.phones[s.userSeq + 1 := phone])
  }

  function Issue(s: State, phone: string, codeHash: string): State {
    s.(codes := s.codes[CodeKey(phone, codeHash) := Code(PhoneCode(phone), s.now + CODE_TTL)])
  }

  /** User ids do not reach the built-in account's. */
  predicate Enabled(s: State, op: Op) {
    op.SignUp? || op.AddBot? ==> s.userSeq + 1 != Messaging.BOT_FATHER_ID
  }

  ghost function Step(s: State, op: Op): State {
    match op
    case SendCode(phone, codeHash) => Issue(s, Digits(phone), codeHash)
    case SignUp(phone, codeHash) => if Admits(s, phone, codeHash) then NewAccount(s, Digits(phone)) else s
    case AddBot => NewAccount(s, "")
    case Tick(elapsed) => s.(now := s.now + elapsed)
  }

  const START := State(0, 0, map[Messaging.BOT_FATHER_ID := ""], map[])

  ghost function Run(ops: seq<Op>): State {
    if ops == [] then START else Step(Run(ops[..|ops| - 1]), ops[|ops| - 1])
  }

  ghost predicate Legal(ops: seq<Op>) {
    forall n | 0 <= n < |ops| :: Enabled(Run(ops[..n]), ops[n])
  }

  lemma LegalPrefix(ops: seq<Op>, n: nat)
    requires Legal(ops) && n <= |ops|
    ensures Legal(ops[..n])
  {
    assert forall m | 0 <= m < n :: ops[..n][..m] == ops[..m];
  }

  // --- accounts -------------------------------------------------------------------------------

  /** A number identifies at most one account. */
  ghost predicate PhonesOk(s: State) {
    && s.userSeq >= 0
    && (forall u :: u in s.phones <==> 1 <= u <= s.userSeq || u == Messaging.BOT_FATHER_ID)
    && s.phones[Messaging.BOT_FATHER_ID] == ""
    && (forall u | u in s.phones :: AllDigits(s.phones[u]))
    && (forall u, v | u in s.phones && v in s.phones && u != v && s.phones[u] != "" :: s.phones[u] != s.phones[v])
  }

  lemma StepPhones(s: State, op: Op)
    requires PhonesOk(s) && Enabled(s, op)
    ensures PhonesOk(Step(s, op))
    ensures forall u | u in s.phones :: u in Step(s, op).phones && Step(s, op).phones[u] == s.phones[u]
  {
  }

  lemma {:induction false} RunPhones(ops: seq<Op>)
    requires Legal(ops)
    ensures PhonesOk(Run(ops))
  {
    if ops != [] {
      var n := |ops| - 1;
      LegalPrefix(ops, n);
      RunPhones(ops[..n]);
      StepPhones(Run(ops[..n]), ops[n]);
    }
  }

  /** The run up to its last operation, which it enables. */
  lemma LegalInit(ops: seq<Op>)
    requires Legal(ops) && ops != []
    ensures Legal(ops[..|ops| - 1]) && Enabled(Run(ops[..|ops| - 1]), ops[|ops| - 1])
  {
    LegalPrefix(ops, |ops| - 1);
  }

  /** Whoever has a number in `s` has it in `t`. */
  ghost predicate NumbersKept(s: State, t: State) {
    forall u | u in s.phones :: u in t.phones && t.phones[u] == s.phones[u]
  }

  lemma KeptTwice(s: State, t: State, v: State)
    requires NumbersKept(s, t) && NumbersKept(t, v)
    ensures NumbersKept(s, v)
  {
  }

  lemma LastKeeps(ops: seq<Op>, op: Op)
    requires Legal(ops) && Enabled(Run(ops), op)
    ensures NumbersKept(Run(ops), Step(Run(ops), op))
  {
    RunPhones(ops);
    StepPhones(Run(ops), op);
  }

  lemma {:induction false} PhonesStay(ops: seq<Op>, n: nat)
    requires Legal(ops) && n <= |ops|
    ensures NumbersKept(Run(ops[..n]), Run(ops))
  {
    if n < |ops| {
      var init := ops[..|ops| - 1];
      LegalInit(ops);
      PhonesStay(init, n);
      LastKeeps(init, ops[|ops| - 1]);
      assert init[..n] == ops[..n];
      KeptTwice(Run(ops[..n]), Run(init), Run(ops));
    } else {
      assert ops[..n] == ops;
    }
  }

  predicate HasPhone(s: State, u: int, phone: string) {
    u in s.phones && s.phones[u] == phone
  }

  lemma OnlyOne(s: State, u: int, v: int, phone: string)
    requires PhonesOk(s) && HasPhone(s, u, phone) && phone != ""
    ensures HasPhone(s, v, phone) <==> v == u
  {
  }

  lemma Admission(s: State, op: Op)
    requires PhonesOk(s) && op.SignUp? && Admits(s, op.phone, op.codeHash)
    ensures Digits(op.phone) != "" && HasPhone(Step(s, op), s.userSeq + 1, Digits(op.phone))
  {
    assert Messaging.BOT_FATHER_ID in s.phones;
  }

  /** Step `n` of the run admits a new account. */
  ghost predicate SignsUp(ops: seq<Op>, n: int) {
    0 <= n < |ops| && ops[n].SignUp? && Admits(Run(ops[..n]), ops[n].phone, ops[n].codeHash)
  }

  lemma SignedUp(ops: seq<Op>, n: nat)
    requires Legal(ops) && SignsUp(ops, n)
    ensures Digits(ops[n].phone) != ""
    ensures HasPhone(Run(ops[..n + 1]), Run(ops[..n]).userSeq + 1, Digits(ops[n].phone))
  {
    LegalPrefix(ops, n);
    RunPhones(ops[..n]);
    Admission(Run(ops[..n]), ops[n]);
    assert ops[..n + 1][..n] == ops[..n];
  }

  /**
   Whoever signs up in step `n` of a run is the one account any later sign-in with the same digits
   finds, however the number is written; nobody signs up without digits.
   */
  lemma SignUpIdentifiesForever(ops: seq<Op>, n: nat, v: int)
    requires Legal(ops) && SignsUp(ops, n)
    ensures Digits(ops[n].phone) != ""
    ensures HasPhone(Run(ops), v, Digits(ops[n].phone)) <==> v == Run(ops[..n]).userSeq + 1
  {
    SignedUp(ops, n);
    PhonesStay(ops, n + 1);
    RunPhones(ops);
    OnlyOne(Run(ops), Run(ops[..n]).userSeq + 1, v, Digits(ops[n].phone));
  }

  /** The account was made by a sign-up of the run with these digits. */
  ghost predicate MadeBySignUp(ops: seq<Op>, u: int, d: string) {
    exists n :: SignsUp(ops, n) && Digits(ops[n].phone) == d && u == Run(ops[..n]).userSeq + 1
  }

  lemma MadeEarlier(ops: seq<Op>, u: int, d: string)
    requires ops != [] && MadeBySignUp(ops[..|ops| - 1], u, d)
    ensures MadeBySignUp(ops, u, d)
  {
    var init := ops[..|ops| - 1];
    var n :| SignsUp(init, n) && Digits(init[n].phone) == d && u == Run(init[..n]).userSeq + 1;
    assert init[..n] == ops[..n];
    assert SignsUp(ops, n);
  }

  /** What a step changes about who has a number. */
  lemma StepNumbers(s: State, op: Op, u: int, d: string)
    requires d != "" && HasPhone(Step(s, op), u, d) && !HasPhone(s, u, d)
    ensures op.SignUp? && Admits(s, op.phone, op.codeHash) && Digits(op.phone) == d && u == s.userSeq + 1
  {
  }

  lemma {:induction false} NumberFromSignUp(ops: seq<Op>, u: int, d: string)
    requires HasPhone(Run(ops), u, d) && d != ""
    ensures MadeBySignUp(ops, u, d)
  {
    if ops != [] {
      var n := |ops| - 1;
      if HasPhone(Run(ops[..n]), u, d) {
        NumberFromSignUp(ops[..n], u, d);
        MadeEarlier(ops, u, d);
      } else {
        StepNumbers(Run(ops[..n]), ops[n], u, d);
        assert SignsUp(ops, n);
      }
    }
  }

  /**
   Over every run, an account that a sign-in with a number finds was made by a sign-up with the same
   digits exactly when the number has digits: without any, it is the built-in account or a bot.
   */
  lemma FoundAccountSignedUpIff(ops: seq<Op>, phone: string, u: int)
    requires Legal(ops) && HasPhone(Run(ops), u, Digits(phone))
    ensures MadeBySignUp(ops, u, Digits(phone)) <==> Digits(phone) != ""
  {
    if Digits(phone) != "" {
      NumberFromSignUp(ops, u, Digits(phone));
    }
    if MadeBySignUp(ops, u, Digits(phone)) {
      var n :| SignsUp(ops, n) && Digits(ops[n].phone) == Digits(phone) && u == Run(ops[..n]).userSeq + 1;
      SignedUp(ops, n);
    }
  }

  /** A number without digits: its code is issued and accepted, and the account found never signed up. */
  lemma NumberWithoutDigits(codeHash: string)
    ensures var ops := [SendCode("+-", codeHash)];
            && Legal(ops)
            && CheckCode(Run(ops), Digits("+-"), codeHash, DEV_PHONE_CODE) == CodeOk
            && (forall u :: HasPhone(Run(ops), u, Digits("+-")) <==> u == Messaging.BOT_FATHER_ID)
            && !MadeBySignUp(ops, Messaging.BOT_FATHER_ID, Digits("+-"))
  {
    var ops := [SendCode("+-", codeHash)];
    assert ops[..0] == [] && Run(ops[..0]) == START;
    assert "+-"[..1] == "+" && "+"[..0] == "" && Digits("+") == "" && Digits("+-") == "";
    assert Run(ops) == Issue(START, "", codeHash);
    FoundAccountSignedUpIff(ops, "+-", Messaging.BOT_FATHER_ID);
  }

  // --- codes --------------------------------------------------------------------------------------

  predicate Issues(op: Op, phone: string, codeHash: string) {
    op.SendCode? && Digits(op.phone) == phone && op.codeHash == codeHash
  }

  /** When the run last issued a code for this number under this hash. */
  ghost function IssuedAt(ops: seq<Op>, phone: string, codeHash: string): Option<int> {
    if ops == [] then None
    else if Issues(ops[|ops| - 1], phone, codeHash) then Some(Run(ops[..|ops| - 1]).now)
    else IssuedAt(ops[..|ops| - 1], phone, codeHash)
  }

  /** The stored codes are the last ones issued. */
  lemma {:induction false} StoredIsIssued(ops: seq<Op>, phone: string, codeHash: string)
    requires AllDigits(phone)
    ensures var k, issued := CodeKey(phone, codeHash), IssuedAt(ops, phone, codeHash);
            && (k in Run(ops).codes <==> issued.Some?)
            && (issued.Some? ==> Run(ops).codes[k] == Code(PhoneCode(phone), issued.value + CODE_TTL))
  {
    if ops != [] {
      var op := ops[|ops| - 1];
      StoredIsIssued(ops[..|ops| - 1], phone, codeHash);
      if op.SendCode? && CodeKey(Digits(op.phone), op.codeHash) == CodeKey(phone, codeHash) {
        CodeKeyInjective(Digits(op.phone), op.codeHash, phone, codeHash);
      }
    }
  }

  /** The number was last given a code under this hash less than ten minutes ago. */
  ghost predicate Recent(ops: seq<Op>, phone: string, codeHash: string) {
    var issued := IssuedAt(ops, Digits(phone), codeHash);
    issued.Some? && Run(ops).now < issued.value + 600
  }

  /** The codes of the numbers, test accounts first. */
  ghost predicate IsCodeOf(d: string, code: string) {
    || (exists x, y :: '1' <= x <= '9' && |y| == 4 && AllDigits(y) && d == "99966" + [x] + y && code == [x, x, x, x, x])
    || ((forall x, y | '1' <= x <= '9' && |y| == 4 && AllDigits(y) :: d != "99966" + [x] + y) && code == "12345")
  }

  lemma CodeOfNumber(d: string, code: string)
    requires AllDigits(d)
    ensures IsCodeOf(d, code) <==> code == PhoneCode(d)
  {
    if x, y :| '1' <= x <= '9' && |y| == 4 && AllDigits(y) && d == "99966" + [x] + y {
      TestAccountCode(x, y);
      forall z, v | '1' <= z <= '9' && |v| == 4 && d == "99966" + [z] + v ensures z == x {
        assert d[5] == z && d[5] == x;
      }
    } else {
      OtherNumbersCode(d);
    }
  }

  /**
   Over every run: a code entered for any spelling of a number is accepted exactly when it is the
   number's code and the hash was issued for that number less than ten minutes ago; it counts as
   expired exactly when there is no such issue.
   */
  lemma AcceptedIffIssuedRecently(ops: seq<Op>, phone: string, codeHash: string, code: string)
    ensures var check := CheckCode(Run(ops), Digits(phone), codeHash, code);
            && (check == CodeOk <==> Recent(ops, phone, codeHash) && IsCodeOf(Digits(phone), code))
            && (check == CodeExpired <==> !Recent(ops, phone, codeHash))
  {
    StoredIsIssued(ops, Digits(phone), codeHash);
    CodeOfNumber(Digits(phone), code);
  }

  /** The run goes on without another code for the number under the hash. */
  ghost predicate NotReissued(more: seq<Op>, phone: string, codeHash: string) {
    forall n | 0 <= n < |more| :: !Issues(more[n], Digits(phone), codeHash)
  }

  lemma {:induction false} IssueStands(ops: seq<Op>, more: seq<Op>, phone: string, codeHash: string)
    requires NotReissued(more, phone, codeHash)
    ensures IssuedAt(ops + more, Digits(phone), codeHash) == IssuedAt(ops, Digits(phone), codeHash)
    decreases |more|
  {
    if more == [] {
      assert ops + more == ops;
    } else {
      IssueStands(ops, more[..|more| - 1], phone, codeHash);
      assert (ops + more)[..|ops + more| - 1] == ops + more[..|more| - 1];
    }
  }

  /**
   From one request to the other: after a code was sent to a number in one spelling, and whatever else
   happened since, a sign-in with another spelling is accepted exactly with the number's code and
   within ten minutes.
   */
  lemma SentCodeSignsIn(ops: seq<Op>, sent: string, more: seq<Op>, entered: string, codeHash: string, code: string)
    requires Digits(sent) == Digits(entered) && NotReissued(more, entered, codeHash)
    ensures CheckCode(Run(ops + [SendCode(sent, codeHash)] + more), Digits(entered), codeHash, code) == CodeOk <==>
            && Run(ops + [SendCode(sent, codeHash)] + more).now < Run(ops).now + 600
            && IsCodeOf(Digits(entered), code)
  {
    var first := ops + [SendCode(sent, codeHash)];
    assert first[..|first| - 1] == ops;
    IssueStands(first, more, entered, codeHash);
    AcceptedIffIssuedRecently(first + more, entered, codeHash, code);
  }

  lemma TakenIff(s: State, d: string)
    ensures Taken(s, d) <==> exists u :: HasPhone(s, u, d)
  {
    if Taken(s, d) {
      var u :| u in s.phones && s.phones[u] == d;
      assert HasPhone(s, u, d);
    }
  }

  /** A new account is made exactly by a sign-up with a recent hash and a number nobody has. */
  lemma SignsUpIff(ops: seq<Op>, n: nat)
    requires n < |ops| && ops[n].SignUp?
    ensures SignsUp(ops, n) <==>
            && Recent(ops[..n], ops[n].phone, ops[n].codeHash)
            && forall u :: !HasPhone(Run(ops[..n]), u, Digits(ops[n].phone))
  {
    var d := Digits(ops[n].phone);
    CodeOfNumber(d, PhoneCode(d));
    AcceptedIffIssuedRecently(ops[..n], ops[n].phone, ops[n].codeHash, PhoneCode(d));
    TakenIff(Run(ops[..n]), d);
  }

  // --- the handlers -------------------------------------------------------------------------------

  datatype SignInReply = SignedIn(user: int) | SignUpRequired | Refused(reason: Check)

  datatype SignUpReply = SignedUp(user: int) | PhoneOccupied | NotAccepted(reason: Check)

  class Auth {
    const keys: Sessions.KeyTables
    var userSeq: int
    var phones: map<int, string>
    var codes: map<string, Code>

    ghost function At(now: int): State
      reads this
    {
      State(now, userSeq, phones, codes)
    }

    ghost predicate Valid()
      reads this
    {
      PhonesOk(At(0))
    }

    constructor ()
      ensures Valid() && At(0) == START && fresh(keys)
    {
      keys := new Sessions.KeyTables();
      userSeq, phones, codes := 0, map[Messaging.BOT_FATHER_ID := ""], map[];
    }

    method SendCode(phone: string, codeHash: string, now: int)
      modifies this`codes
      ensures At(now) == Step(old(At(now)), Op.SendCode(phone, codeHash))
    {
      var d := NormalizePhone(phone);
      codes := codes[CodeKey(d, codeHash) := Code(PhoneCode(d), now + CODE_TTL)];
    }

    method Check(phone: string, codeHash: string, code: string, now: int) returns (r: Check)
      ensures r == CheckCode(At(now), phone, codeHash, code)
    {
      var k := CodeKey(phone, codeHash);
      if k !in codes || codes[k].expiresAt <= now {
        return CodeExpired;
      }
      if code != codes[k].code {
        return CodeInvalid;
      }
      return CodeOk;
    }

    /** Any account with the number, searched in any order. */
    method UserByPhone(phone: string) returns (found: Option<int>)
      ensures found.Some? ==> found.value in phones && phones[found.value] == phone
      ensures found.None? <==> !Taken(At(0), phone)
    {
      var rest := phones.Keys;
      while rest != {}
        invariant rest <= phones.Keys
        invariant forall u | u in phones && u !in rest :: phones[u] != phone
      {
        var u := Next(rest);
        rest := rest - {u};
        if phones[u] == phone {
          return Some(u);
        }
      }
      return None;
    }

    /** With an accepted code, the requesting key is logged in to the number's account, if there is one. */
    method SignIn(key: int, phone: string, codeHash: string, code: string, now: int) returns (reply: SignInReply)
      requires Valid()
      modifies keys
      ensures var check := CheckCode(At(now), Digits(phone), codeHash, code);
              && (reply.Refused? <==> !check.CodeOk?) && (reply.Refused? ==> reply.reason == check)
              && (reply.SignUpRequired? <==> check.CodeOk? && !Taken(At(now), Digits(phone)))
      ensures reply.SignedIn? ==> reply.user in phones && phones[reply.user] == Digits(phone)
      ensures keys.At(now) == if reply.SignedIn? then Sessions.Step(old(keys.At(now)), Sessions.LogIn(key, reply.user))
                              else old(keys.At(now))
    {
      var d := NormalizePhone(phone);
      var check := Check(d, codeHash, code, now);
      if check != CodeOk {
        return Refused(check);
      }
      var u := UserByPhone(d);
      if u.None? {
        return SignUpRequired;
      }
      keys.BindCaller(key, u.value, now);
      return SignedIn(u.value);
    }

    /** With an accepted code and a free number, a fresh account is created and logged in. */
    method SignUp(key: int, phone: string, codeHash: string, now: int) returns (reply: SignUpReply)
      requires Valid() && Enabled(At(now), Op.SignUp(phone, codeHash))
      modifies this`userSeq, this`phones, keys
      ensures Valid() && At(now) == Step(old(At(now)), Op.SignUp(phone, codeHash))
      ensures reply.SignedUp? <==> Admits(old(At(now)), phone, codeHash)
      ensures reply.SignedUp? ==> reply.user == userSeq && reply.user !in old(phones)
      ensures reply.PhoneOccupied? ==> Taken(old(At(now)), Digits(phone))
      ensures keys.At(now) == if reply.SignedUp? then Sessions.Step(old(keys.At(now)), Sessions.LogIn(key, reply.user))
                              else old(keys.At(now))
    {
      var d := NormalizePhone(phone);
      var check := Check(d, codeHash, PhoneCode(d), now);
      if check != CodeOk {
        return NotAccepted(check);
      }
      var u := UserByPhone(d);
      if u.Some? {
        assert Taken(At(now), d);
        return PhoneOccupied;
      }
      ghost var before := At(now);
      userSeq := userSeq + 1;
      phones := phones[userSeq := d];
      StepPhones(At(0).(userSeq := before.userSeq, phones := before.phones), AddBot);
      keys.BindCaller(key, userSeq, now);
      return SignedUp(userSeq);
    }
  }

  /** The two requests of a login: the code is sent to one spelling of a number and entered with another. */
  method LogInByPhone(auth: Auth, sent: string, entered: string, codeHash: string, code: string, key: int,
                      now: int, later: int) returns (reply: SignInReply)
    requires auth.Valid() && Digits(sent) == Digits(entered)
    modifies auth, auth.keys
    ensures reply.Refused? <==> !(later < now + 600 && IsCodeOf(Digits(entered), code))
    ensures reply.Refused? ==> reply.reason == if later < now + 600 then CodeInvalid else CodeExpired
    ensures reply.SignedIn? ==> reply.user in auth.phones && auth.phones[reply.user] == Digits(entered)
    ensures reply.SignUpRequired? ==> forall u | u in auth.phones :: auth.phones[u] != Digits(entered)
  {
    CodeOfNumber(Digits(entered), code);
    auth.SendCode(sent, codeHash, now);
    reply := auth.SignIn(key, entered, codeHash, code, later);
  }
}
