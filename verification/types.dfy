/**
 * The records and the enumeration shared by the password audit: the five
 * criteria, the audit state shown to the user, and the ordered strength scale.
 */
module Types {

  /** The five rule outcomes computed for one password; each is a field of its own. */
  datatype PasswordCriteria = PasswordCriteria(
    minLength: bool,
    hasUpper: bool,
    hasLower: bool,
    hasNumber: bool,
    hasSpecial: bool)

  /** The criteria in declaration order. */
  function Flags(c: PasswordCriteria): (fs: seq<bool>)
    ensures |fs| == 5
  {
    [c.minLength, c.hasUpper, c.hasLower, c.hasNumber, c.hasSpecial]
  }

  /** Builds the criteria record from five flags given in declaration order. */
  function FromFlags(fs: seq<bool>): (c: PasswordCriteria)
    requires |fs| == 5
    ensures Flags(c) == fs
  {
    PasswordCriteria(fs[0], fs[1], fs[2], fs[3], fs[4])
  }

  /** The record is exactly its five flags: nothing else is stored in it. */
  lemma FlagsRoundTrip(c: PasswordCriteria)
    ensures FromFlags(Flags(c)) == c
  {
  }

  /** How many of the flags are true. */
  function CountTrue(fs: seq<bool>): (n: nat)
    ensures n <= |fs|
    ensures n == 0 <==> forall i :: 0 <= i < |fs| ==> !fs[i]
  {
    if fs == [] then 0 else (if fs[0] then 1 else 0) + CountTrue(fs[1..])
  }

  /** The count of the five flags, one term per field. */
  lemma CountFlags(c: PasswordCriteria)
    ensures CountTrue(Flags(c))
         == (if c.minLength then 1 else 0) + (if c.hasUpper then 1 else 0) + (if c.hasLower then 1 else 0)
          + (if c.hasNumber then 1 else 0) + (if c.hasSpecial then 1 else 0)
  {
    var s4 := [c.hasSpecial];
    var s3 := [c.hasNumber] + s4;
    var s2 := [c.hasLower] + s3;
    var s1 := [c.hasUpper] + s2;
    assert s4[1..] == [] && s3[1..] == s4 && s2[1..] == s3 && s1[1..] == s2;
    assert Flags(c) == [c.minLength] + s1;
    assert Flags(c)[1..] == s1;
    assert CountTrue(s4) == (if c.hasSpecial then 1 else 0);
    assert CountTrue(s3) == (if c.hasNumber then 1 else 0) + CountTrue(s4);
    assert CountTrue(s2) == (if c.hasLower then 1 else 0) + CountTrue(s3);
    assert CountTrue(s1) == (if c.hasUpper then 1 else 0) + CountTrue(s2);
  }

  /** The count of true flags is the multiplicity of `true`, whatever the order. */
  lemma {:induction false} CountTrueIsMultiplicity(fs: seq<bool>)
    ensures CountTrue(fs) == multiset(fs)[true]
  {
    if fs != [] {
      CountTrueIsMultiplicity(fs[1..]);
      assert fs == [fs[0]] + fs[1..];
      assert multiset(fs) == multiset{fs[0]} + multiset(fs[1..]);
    }
  }

  /** Counting the same flags in another order gives the same number. */
  lemma CountTrueOrderIrrelevant(a: seq<bool>, b: seq<bool>)
    requires multiset(a) == multiset(b)
    ensures CountTrue(a) == CountTrue(b)
  {
    CountTrueIsMultiplicity(a);
    CountTrueIsMultiplicity(b);
  }

  /**
   * What the page shows for the current password: the text itself, the number
   * of criteria met (documented to lie in 0..5), the criteria and the hex
   * fingerprint.
   */
  datatype PasswordState = PasswordState(
    value: string,
    score: int,
    criteria: PasswordCriteria,
    hash: string)

  /** The documented range of the score field. */
  predicate ScoreInRange(s: PasswordState)
  {
    0 <= s.score <= 5
  }

  /** The five strength labels, weakest first. */
  datatype StrengthLevel = Weak | Fair | Good | Strong | Excellent

  /** Position of a label on the scale, 0 for Weak up to 4 for Excellent. */
  function Rank(l: StrengthLevel): (r: nat)
    ensures r < 5
  {
    match l
    case Weak => 0
    case Fair => 1
    case Good => 2
    case Strong => 3
    case Excellent => 4
  }

  /** The five labels have five distinct ranks: the scale is a strict order. */
  lemma RankInjective(a: StrengthLevel, b: StrengthLevel)
    requires Rank(a) == Rank(b)
    ensures a == b
  {
  }
}
