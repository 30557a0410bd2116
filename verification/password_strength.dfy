/**
 * The strength panel: the label, bar colour, text colour and bar width
 * chosen from the score, and the five-row criteria checklist.
 */
module PasswordStrength {
  import opened Types

  /** getStrengthLabel: the label for a score. */
  function GetStrengthLabel(score: int): (l: StrengthLevel)
    ensures Rank(l) == if score <= 1 then 0 else if score >= 5 then 4 else score - 1
  {
    if score <= 1 then Weak
    else if score == 2 then Fair
    else if score == 3 then Good
    else if score == 4 then Strong
    else Excellent
  }

  /** A higher score never gets a weaker label. */
  lemma LabelMonotone(a: int, b: int)
    requires a <= b
    ensures Rank(GetStrengthLabel(a)) <= Rank(GetStrengthLabel(b))
  {
  }

  /** On the scores 0..5, the final fall-through is taken at 5 and nowhere else. */
  lemma ExcellentOnlyAtFive(score: int)
    requires 0 <= score <= 5
    ensures GetStrengthLabel(score) == Excellent <==> score == 5
  {
  }

  /** Every label is reached by some score in 0..5: the lowest score carrying it. */
  function LowestScoreFor(l: StrengthLevel): (score: int)
    ensures 0 <= score <= 5
    ensures GetStrengthLabel(score) == l
    ensures forall s :: 0 <= s < score ==> GetStrengthLabel(s) != l
  {
    if l == Weak then 0 else Rank(l) + 1
  }

  /** The bar colour of each label. */
  function ColorOfLevel(l: StrengthLevel): string
  {
    match l
    case Weak => "bg-red-500"
    case Fair => "bg-orange-500"
    case Good => "bg-yellow-500"
    case Strong => "bg-lime-500"
    case Excellent => "bg-green-500 shadow-[0_0_10px_rgba(34,197,94,0.5)]"
  }

  /** getStrengthColor: the bar colour class for a score. */
  function GetStrengthColor(score: int): (cls: string)
    ensures cls == ColorOfLevel(GetStrengthLabel(score))
  {
    if score <= 1 then "bg-red-500"
    else if score == 2 then "bg-orange-500"
    else if score == 3 then "bg-yellow-500"
    else if score == 4 then "bg-lime-500"
    else "bg-green-500 shadow-[0_0_10px_rgba(34,197,94,0.5)]"
  }

  /** No two labels share a bar colour. */
  lemma ColorOfLevelInjective(a: StrengthLevel, b: StrengthLevel)
    requires ColorOfLevel(a) == ColorOfLevel(b)
    ensures a == b
  {
  }

  /** The bar colour changes exactly where the label changes. */
  lemma ColorChangesWithLabel(a: int, b: int)
    ensures GetStrengthColor(a) == GetStrengthColor(b) <==> GetStrengthLabel(a) == GetStrengthLabel(b)
  {
    if GetStrengthColor(a) == GetStrengthColor(b) {
      ColorOfLevelInjective(GetStrengthLabel(a), GetStrengthLabel(b));
    }
  }

  /** The colour of the label text: green from 4 up, yellow from 2 up, red below. */
  function TextColor(score: int): (cls: string)
    ensures cls == match GetStrengthLabel(score)
                   case Strong | Excellent => "text-green-400"
                   case Fair | Good => "text-yellow-400"
                   case Weak => "text-red-400"
  {
    if score >= 4 then "text-green-400" else if score >= 2 then "text-yellow-400" else "text-red-400"
  }

  /** The width of the strength bar, as a percentage: the score out of 5. */
  function BarWidth(score: int): (w: real)
    ensures w == 20.0 * score as real
  {
    (score as real / 5.0) * 100.0
  }

  /** On the scores 0..5 the bar stays within 0..100 percent and grows with the score. */
  lemma BarWidthBounded(a: int, b: int)
    requires 0 <= a <= b <= 5
    ensures 0.0 <= BarWidth(a) <= BarWidth(b) <= 100.0
    ensures BarWidth(a) == BarWidth(b) <==> a == b
  {
  }

  /** One row of the checklist: its caption and whether it is met. */
  datatype CriterionRow = CriterionRow(caption: string, met: bool)

  /** The captions of the checklist, in display order. */
  const CriterionLabels: seq<string> := [
    "At least 8 characters",
    "Uppercase letter (A-Z)",
    "Lowercase letter (a-z)",
    "Number (0-9)",
    "Special character (@#$%&!)"
  ]

  /** criteriaList: one row per criterion, in declaration order. */
  function CriteriaList(criteria: PasswordCriteria): (rows: seq<CriterionRow>)
    ensures |rows| == 5
    ensures forall i :: 0 <= i < 5 ==> rows[i].caption == CriterionLabels[i]
    ensures forall i :: 0 <= i < 5 ==> rows[i].met == Flags(criteria)[i]
  {
    [
      CriterionRow("At least 8 characters", criteria.minLength),
      CriterionRow("Uppercase letter (A-Z)", criteria.hasUpper),
      CriterionRow("Lowercase letter (a-z)", criteria.hasLower),
      CriterionRow("Number (0-9)", criteria.hasNumber),
      CriterionRow("Special character (@#$%&!)", criteria.hasSpecial)
    ]
  }

  /** How many rows of a checklist show a tick. */
  function MetCount(rows: seq<CriterionRow>): (n: nat)
    ensures n <= |rows|
  {
    if rows == [] then 0 else (if rows[0].met then 1 else 0) + MetCount(rows[1..])
  }

  /** Ticks are counted like the flags they show. */
  lemma {:induction false} MetCountIsCount(rows: seq<CriterionRow>, fs: seq<bool>)
    requires |rows| == |fs|
    requires forall i :: 0 <= i < |rows| ==> rows[i].met == fs[i]
    ensures MetCount(rows) == CountTrue(fs)
  {
    if rows != [] {
      MetCountIsCount(rows[1..], fs[1..]);
    }
  }

  /** The number of ticked rows is the score. */
  lemma TicksEqualScore(criteria: PasswordCriteria)
    ensures MetCount(CriteriaList(criteria)) == CountTrue(Flags(criteria))
  {
    MetCountIsCount(CriteriaList(criteria), Flags(criteria));
  }
}
