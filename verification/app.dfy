/**
 * The audit run on every edit of the password field: five criteria, the
 * score counting them, the fingerprint, and the page state they are written to.
 */
module App {
  import opened Types
  import opened Fingerprint

  /** A one-class regular expression: a range such as `[A-Z]` or a list such as `[@#$%&!]`. */
  datatype CharClass = Range(lo: char, hi: char) | AnyOf(members: string)

  predicate InClass(cls: CharClass, c: char)
  {
    match cls
    case Range(lo, hi) => lo <= c <= hi
    case AnyOf(members) => c in members
  }

  const UpperClass: CharClass := Range('A', 'Z')
  const LowerClass: CharClass := Range('a', 'z')
  const DigitClass: CharClass := Range('0', '9')
  const SpecialClass: CharClass := AnyOf("@#$%&!")

  /** The only symbols that count as special characters. */
  predicate IsSpecialSymbol(c: char)
  {
    c == '@' || c == '#' || c == '$' || c == '%' || c == '&' || c == '!'
  }

  /** RegExp test with a one-class pattern: scans the text for a matching character. */
  function Test(cls: CharClass, s: string): (found: bool)
    ensures found ==> |s| > 0
    ensures |s| == 1 ==> (found <==> InClass(cls, s[0]))
  {
    if s == [] then false else InClass(cls, s[0]) || Test(cls, s[1..])
  }

  /** The scan finds a match exactly when some character of the text is in the class. */
  lemma {:induction false} TestMeaning(cls: CharClass, s: string)
    ensures Test(cls, s) <==> exists i :: 0 <= i < |s| && InClass(cls, s[i])
  {
    if s != [] {
      TestMeaning(cls, s[1..]);
      if Test(cls, s[1..]) {
        var i :| 0 <= i < |s[1..]| && InClass(cls, s[1..][i]);
        assert s[i + 1] == s[1..][i];
      }
      if exists i :: 0 <= i < |s| && InClass(cls, s[i]) {
        var i :| 0 <= i < |s| && InClass(cls, s[i]);
        if i > 0 {
          assert s[1..][i - 1] == s[i];
        }
      }
    }
  }

  /** A text in which no character is in the class has no match. */
  lemma NoMatch(cls: CharClass, s: string)
    requires forall c | c in s :: !InClass(cls, c)
    ensures !Test(cls, s)
  {
    TestMeaning(cls, s);
  }

  /** A text with a character of the class at some position has a match. */
  lemma MatchAt(cls: CharClass, s: string, i: nat)
    requires i < |s| && InClass(cls, s[i])
    ensures Test(cls, s)
  {
    TestMeaning(cls, s);
  }

  /** A match in a concatenation is a match in one of its parts. */
  lemma {:induction false} TestAppend(cls: CharClass, a: string, b: string)
    ensures Test(cls, a + b) == (Test(cls, a) || Test(cls, b))
  {
    if a == [] {
      assert a + b == b;
    } else {
      assert (a + b)[0] == a[0] && (a + b)[1..] == a[1..] + b;
      TestAppend(cls, a[1..], b);
    }
  }

  /** A match in five concatenated parts is a match in one of them. */
  lemma TestFive(cls: CharClass, a: string, b: string, c: string, d: string, e: string)
    ensures Test(cls, a + b + c + d + e)
         == (Test(cls, a) || Test(cls, b) || Test(cls, c) || Test(cls, d) || Test(cls, e))
  {
    TestAppend(cls, a, b);
    TestAppend(cls, a + b, c);
    TestAppend(cls, a + b + c, d);
    TestAppend(cls, a + b + c + d, e);
  }

  /**
   * The criteria object built for a password, one regular-expression test
   * per class: the length rule, and one character of the class somewhere in
   * the password; for the special rule, only the six listed symbols count.
   */
  function EvaluateCriteria(password: string): (c: PasswordCriteria)
    ensures c.minLength <==> |password| >= 8
    ensures c.hasUpper <==> exists i :: 0 <= i < |password| && 'A' <= password[i] <= 'Z'
    ensures c.hasLower <==> exists i :: 0 <= i < |password| && 'a' <= password[i] <= 'z'
    ensures c.hasNumber <==> exists i :: 0 <= i < |password| && '0' <= password[i] <= '9'
    ensures c.hasSpecial <==> exists i :: 0 <= i < |password| && IsSpecialSymbol(password[i])
  {
    TestMeaning(UpperClass, password);
    TestMeaning(LowerClass, password);
    TestMeaning(DigitClass, password);
    TestMeaning(SpecialClass, password);
    PasswordCriteria(
      minLength := |password| >= 8,
      hasUpper := Test(UpperClass, password),
      hasLower := Test(LowerClass, password),
      hasNumber := Test(DigitClass, password),
      hasSpecial := Test(SpecialClass, password))
  }

  /** One character when `present`, nothing otherwise. */
  function Part(present: bool, c: char): (s: string)
    ensures |s| == if present then 1 else 0
  {
    if present then [c] else []
  }

  /** An optional single character matches exactly when it is there and in the class. */
  lemma TestPart(cls: CharClass, present: bool, c: char)
    ensures Test(cls, Part(present, c)) == (present && InClass(cls, c))
  {
    if present {
      assert [c][1..] == [];
    }
  }

  /** Spaces match none of the four classes. */
  lemma {:induction false} TestSpaces(cls: CharClass, n: nat)
    requires cls in {UpperClass, LowerClass, DigitClass, SpecialClass}
    ensures !Test(cls, seq(n, _ => ' '))
  {
    if n > 0 {
      assert seq(n, _ => ' ')[1..] == seq(n - 1, _ => ' ');
      TestSpaces(cls, n - 1);
    }
  }

  /** The criteria of a password follow from its four class tests and its length. */
  lemma CriteriaFromTests(p: string, c: PasswordCriteria)
    requires c.minLength == (|p| >= 8)
    requires c.hasUpper == Test(UpperClass, p) && c.hasLower == Test(LowerClass, p)
    requires c.hasNumber == Test(DigitClass, p) && c.hasSpecial == Test(SpecialClass, p)
    ensures EvaluateCriteria(p) == c
    ensures ScoreOf(p) == CountTrue(Flags(c))
  {
  }

  /**
   * The five criteria are independent: every combination of outcomes is
   * produced by some password. The witness puts one character of each
   * wanted class, then eight spaces when the length rule is wanted.
   */
  function Realize(target: PasswordCriteria): (password: string)
    ensures EvaluateCriteria(password) == target
  {
    var t := target;
    var p := Witness(t);
    assert |p| >= 8 <==> t.minLength;
    WitnessMatches(UpperClass, t.hasUpper, t.hasLower, t.hasNumber, t.hasSpecial, WitnessPad(t));
    WitnessMatches(LowerClass, t.hasUpper, t.hasLower, t.hasNumber, t.hasSpecial, WitnessPad(t));
    WitnessMatches(DigitClass, t.hasUpper, t.hasLower, t.hasNumber, t.hasSpecial, WitnessPad(t));
    WitnessMatches(SpecialClass, t.hasUpper, t.hasLower, t.hasNumber, t.hasSpecial, WitnessPad(t));
    CriteriaFromTests(p, t);
    p
  }

  function WitnessPad(t: PasswordCriteria): nat
  {
    if t.minLength then 8 else 0
  }

  function Witness(t: PasswordCriteria): string
  {
    Part(t.hasUpper, 'A') + Part(t.hasLower, 'a') + Part(t.hasNumber, '0')
      + Part(t.hasSpecial, '!') + seq(WitnessPad(t), _ => ' ')
  }

  /** A class matches the witness exactly when one of the characters placed in it does. */
  lemma WitnessMatches(cls: CharClass, u: bool, l: bool, d: bool, x: bool, n: nat)
    requires cls in {UpperClass, LowerClass, DigitClass, SpecialClass}
    ensures Test(cls, Part(u, 'A') + Part(l, 'a') + Part(d, '0') + Part(x, '!') + seq(n, _ => ' '))
         == ((u && InClass(cls, 'A')) || (l && InClass(cls, 'a'))
          || (d && InClass(cls, '0')) || (x && InClass(cls, '!')))
  {
    TestPart(cls, u, 'A');
    TestPart(cls, l, 'a');
    TestPart(cls, d, '0');
    TestPart(cls, x, '!');
    TestSpaces(cls, n);
    TestFive(cls, Part(u, 'A'), Part(l, 'a'), Part(d, '0'), Part(x, '!'), seq(n, _ => ' '));
  }

  /** The score counter: zero, then one increment per criterion met. */
  method ComputeScore(criteria: PasswordCriteria) returns (score: int)
    ensures score == CountTrue(Flags(criteria))
    ensures 0 <= score <= 5
  {
    score := 0;
    if criteria.minLength { score := score + 1; }
    if criteria.hasUpper { score := score + 1; }
    if criteria.hasLower { score := score + 1; }
    if criteria.hasNumber { score := score + 1; }
    if criteria.hasSpecial { score := score + 1; }
    CountFlags(criteria);
  }

  /** The score of a password: the number of its criteria that hold. */
  function ScoreOf(password: string): (n: nat)
    ensures n <= 5
  {
    CountTrue(Flags(EvaluateCriteria(password)))
  }

  /**
   * A password scores 0 exactly when it is shorter than 8 characters and
   * has no letter, digit or listed symbol; in particular the empty password.
   */
  lemma ScoreZeroIff(password: string)
    ensures ScoreOf(password) == 0 <==>
              |password| < 8 && forall i :: 0 <= i < |password| ==>
                !('A' <= password[i] <= 'Z') && !('a' <= password[i] <= 'z') &&
                !('0' <= password[i] <= '9') && !IsSpecialSymbol(password[i])
    ensures ScoreOf("") == 0
  {
    CountFlags(EvaluateCriteria(password));
  }

  /** Every score from 0 to 5 is reached by some password. */
  lemma EveryScoreReachable(n: nat)
    requires n <= 5
    ensures ScoreOf(Realize(FromFlags(seq(5, i => i < n)))) == n
  {
    var fs := seq(5, i => i < n);
    var p := Realize(FromFlags(fs));
    assert Flags(EvaluateCriteria(p)) == fs;
    assert CountTrue(fs[4..]) == (if n > 4 then 1 else 0);
    assert CountTrue(fs[3..]) == (if n > 3 then 1 else 0) + CountTrue(fs[4..]);
    assert CountTrue(fs[2..]) == (if n > 2 then 1 else 0) + CountTrue(fs[3..]);
    assert CountTrue(fs[1..]) == (if n > 1 then 1 else 0) + CountTrue(fs[2..]);
  }

  /**
   * The page state agrees with its own password: the criteria, the score
   * and the fingerprint are all those of `value`.
   */
  ghost predicate Consistent(s: PasswordState, sha256: string -> Digest32)
  {
    && s.criteria == EvaluateCriteria(s.value)
    && s.score == CountTrue(Flags(s.criteria))
    && s.hash == CalculateHash(s.value, sha256)
  }

  /** The state shown before anything is typed. */
  const InitialState: PasswordState :=
    PasswordState("", 0, PasswordCriteria(false, false, false, false, false), "")

  /**
   * The initial state is exactly what auditing the empty password yields,
   * whatever the digest: any consistent state for "" is the initial state.
   */
  lemma InitialStateIsEmptyAudit(s: PasswordState, sha256: string -> Digest32)
    requires s.value == "" && Consistent(s, sha256)
    ensures s == InitialState
    ensures Consistent(InitialState, sha256)
  {
  }

  /** A consistent state's score lies in the documented range 0..5. */
  lemma ConsistentScoreInRange(s: PasswordState, sha256: string -> Digest32)
    requires Consistent(s, sha256)
    ensures ScoreInRange(s)
    ensures s.score == ScoreOf(s.value)
  {
  }

  /**
   * The component holding the page state. `sha256` stands for the browser's
   * UTF-8 encoding followed by its SHA-256 digest.
   */
  class App {
    const sha256: string -> Digest32
    var passwordState: PasswordState

    ghost predicate Valid()
      reads this
    {
      Consistent(passwordState, sha256)
    }

    constructor (sha256: string -> Digest32)
      ensures this.sha256 == sha256
      ensures passwordState == InitialState
      ensures Valid()
    {
      this.sha256 := sha256;
      passwordState := InitialState;
    }

    /**
     * evaluatePassword: computes the criteria, the score and the
     * fingerprint of one password and writes all four fields at once. The
     * new state depends on the argument only, not on the previous state.
     */
    method EvaluatePassword(password: string)
      modifies this
      ensures passwordState.value == password
      ensures passwordState.criteria == EvaluateCriteria(password)
      ensures passwordState.score == ScoreOf(password)
      ensures passwordState.hash == CalculateHash(password, sha256)
      ensures Valid()
    {
      var criteria := EvaluateCriteria(password);
      var score := ComputeScore(criteria);
      var hash := CalculateHash(password, sha256);
      passwordState := PasswordState(password, score, criteria, hash);
    }

    /**
     * handlePasswordChange: every edit re-runs the evaluation. The model
     * completes it before returning; the code does not await it.
     */
    method HandlePasswordChange(newPassword: string)
      modifies this
      ensures passwordState.value == newPassword
      ensures Valid()
    {
      EvaluatePassword(newPassword);
    }
  }
}
