/**
 * Properties that connect the audit with the strength panel, and the
 * worked examples of the password policy.
 */
module AuditProperties {
  import opened Types
  import opened Fingerprint
  import opened App
  import opened PasswordStrength

  /** The top label is shown exactly when every criterion holds. */
  lemma ExcellentIffAllCriteria(password: string)
    ensures var c := EvaluateCriteria(password);
            (GetStrengthLabel(ScoreOf(password)) == Excellent
             <==> c.minLength && c.hasUpper && c.hasLower && c.hasNumber && c.hasSpecial)
  {
    var c := EvaluateCriteria(password);
    CountFlags(c);
  }

  /** The empty password meets nothing, scores 0 and is labelled Weak. */
  lemma EmptyPasswordAudit(sha256: string -> Digest32)
    ensures EvaluateCriteria("") == PasswordCriteria(false, false, false, false, false)
    ensures ScoreOf("") == 0 && GetStrengthLabel(ScoreOf("")) == Weak
    ensures CalculateHash("", sha256) == ""
  {
  }

  /** "Abcdef1!" meets all five criteria. */
  lemma ExampleAllCriteria(p: string)
    requires p == "Abcdef1!"
    ensures EvaluateCriteria(p) == PasswordCriteria(true, true, true, true, true)
    ensures ScoreOf(p) == 5 && GetStrengthLabel(ScoreOf(p)) == Excellent
  {
    var c := PasswordCriteria(true, true, true, true, true);
    MatchAt(UpperClass, p, 0);
    MatchAt(LowerClass, p, 1);
    MatchAt(DigitClass, p, 6);
    MatchAt(SpecialClass, p, 7);
    CriteriaFromTests(p, c);
    CountFlags(c);
  }

  /** "abc" is too short and only has lower-case letters. */
  lemma ExampleShortLower(p: string)
    requires p == "abc"
    ensures EvaluateCriteria(p) == PasswordCriteria(false, false, true, false, false)
    ensures ScoreOf(p) == 1 && GetStrengthLabel(ScoreOf(p)) == Weak
  {
    var c := PasswordCriteria(false, false, true, false, false);
    NoMatch(UpperClass, p);
    MatchAt(LowerClass, p, 0);
    NoMatch(DigitClass, p);
    NoMatch(SpecialClass, p);
    CriteriaFromTests(p, c);
    CountFlags(c);
  }

  /** "ABCDEFGH" meets the length and upper-case rules only. */
  lemma ExampleUpperOnly(p: string)
    requires p == "ABCDEFGH"
    ensures EvaluateCriteria(p) == PasswordCriteria(true, true, false, false, false)
    ensures ScoreOf(p) == 2 && GetStrengthLabel(ScoreOf(p)) == Fair
  {
    var c := PasswordCriteria(true, true, false, false, false);
    MatchAt(UpperClass, p, 0);
    NoMatch(LowerClass, p);
    NoMatch(DigitClass, p);
    NoMatch(SpecialClass, p);
    CriteriaFromTests(p, c);
    CountFlags(c);
  }

  /**
   * The text used when password generation fails meets every criterion,
   * through its final '!' (the hyphens are not special symbols).
   */
  lemma FallbackPasswordScoresFive(p: string)
    requires p == "Error-Generating-Password-123!"
    ensures ScoreOf(p) == 5 && GetStrengthLabel(ScoreOf(p)) == Excellent
  {
    var c := PasswordCriteria(true, true, true, true, true);
    MatchAt(UpperClass, p, 0);
    MatchAt(LowerClass, p, 1);
    MatchAt(DigitClass, p, 26);
    MatchAt(SpecialClass, p, 29);
    CriteriaFromTests(p, c);
    CountFlags(c);
  }

  /** Worked byte renderings: zero padding and lower-case digits. */
  lemma ExampleBytes()
    ensures ByteToHex(0) == "00" && ByteToHex(10) == "0a" && ByteToHex(171) == "ab" && ByteToHex(255) == "ff"
  {
  }
}
