# Password audit — a verified model

This project models the rule-based password audit of a small web page. Every
time the password field changes, the page does three things. It evaluates five
independent criteria: at least 8 characters, an upper-case letter, a
lower-case letter, a digit, and one of the symbols `@ # $ % & !`. It counts
the criteria met into a score from 0 to 5. It renders a SHA-256 fingerprint of
the password as lower-case hex. A strength panel then maps the score to a
label (Weak, Fair, Good, Strong, Excellent), a bar colour, a text colour and a
bar width, and lists the five criteria as a checklist.

Modules: one per source file, except that App.tsx is split in two
(`Fingerprint` for `calculateHash`, lines 22-28, and `App` for the rest),
plus one for cross-cutting properties:

- `Types` (`types.dfy`): the `PasswordCriteria` and `PasswordState` records and
  the `StrengthLevel` scale, with counting over the five flags.
- `Fingerprint` (`fingerprint.dfy`): the hex rendering of the digest and the
  empty-password shortcut. It also has a decoder that proves the rendering
  loses nothing.
- `App` (`app.dfy`): the regular-expression tests, the criteria, the
  imperative score counter, and the `App` class whose `passwordState` field is
  overwritten by `EvaluatePassword`.
- `PasswordStrength` (`password_strength.dfy`): the label, colour and width
  tables and the checklist.
- `AuditProperties` (`audit_properties.dfy`): properties that join the audit
  and the panel, and worked examples.

The digest (UTF-8 encoding followed by SHA-256) is foreign code. It enters the
model as a parameter `sha256: string -> Digest32`, a total function whose
results are always exactly 32 bytes.

Facts about the code that shape the model:

- Nothing orders or discards late digest results; the last write wins.
  `evaluatePassword` awaits the digest, then writes value, score, criteria and
  hash together. The model runs each evaluation to completion and claims
  nothing about out-of-order completion. It proves only that each write is internally consistent: all
  four fields come from the same password.

## Model

| member | source | states |
|---|---|---|
| `Types.Flags` | types.ts:1-7 | the criteria record has exactly five flags, in declaration order |
| `Types.FromFlags` | types.ts:1-7 | any five flags build a record whose flags are exactly those |
| `Types.FlagsRoundTrip` | types.ts:1-7 | a record is determined by its five flags: nothing else is stored |
| `Types.CountTrue` | App.tsx:42-47 | the count of true flags is at most their number, and 0 exactly when none is true |
| `Types.CountFlags` | App.tsx:42-47 | the count over the criteria is the sum of one 0-or-1 term per field |
| `Types.CountTrueIsMultiplicity` | App.tsx:42-47 | the count equals the multiplicity of `true`, so it does not depend on order |
| `Types.CountTrueOrderIrrelevant` | App.tsx:42-47 | the five increments can be done in any order with the same result |
| `Types.Rank` | types.ts:21-27 | every strength level has a position 0..4 on the scale |
| `Types.RankInjective` | types.ts:21-27 | the five levels have five distinct ranks 0..4, so the scale Weak < Fair < Good < Strong < Excellent is a strict order |
| `Fingerprint.HexDigit` | App.tsx:28 | each value below 16 becomes one lower-case hex digit, a decimal digit exactly for values below 10 |
| `Fingerprint.HexValue` | App.tsx:28 | a character has a hex value exactly when it is a lower-case hex digit, and that digit is written back for it |
| `Fingerprint.HexValueOfDigit` | App.tsx:28 | reading back a written digit gives its value |
| `Fingerprint.ToRadix16` | App.tsx:28 | `toString(16)` gives one lower-case digit below 16 and, for the other byte values, the high and low nibble digits, with no leading zero |
| `Fingerprint.PadStart` | App.tsx:28 | `padStart` keeps the text as a suffix and fills in front with the filler up to the requested width, never shortening |
| `Fingerprint.ByteToHex` | App.tsx:28 | each byte becomes exactly two digits, high nibble first, zero-padded |
| `Fingerprint.EncodeHex` | App.tsx:27-28 | the joined rendering has two characters per byte |
| `Fingerprint.EncodeHexAt` | App.tsx:27-28 | byte k is written at positions 2k and 2k+1, in input order |
| `Fingerprint.EncodeHexIsLowerHex` | App.tsx:28 | the rendering uses lower-case hex digits only |
| `Fingerprint.DecodeEncode` | App.tsx:27-28 | decoding pairs of digits recovers the digest bytes |
| `Fingerprint.DecodePair` | App.tsx:28 | one byte's two digits in front of a decodable rest decode to that byte in front |
| `Fingerprint.EncodeHexInjective` | App.tsx:27-28 | distinct byte sequences never share a rendering |
| `Fingerprint.CalculateHash` | App.tsx:22-28 | the empty password gives `''` whatever the digest; any other gives 64 hex digits that decode to its digest |
| `Fingerprint.FingerprintMatchesDigest` | App.tsx:26-28 | two non-empty passwords share a fingerprint exactly when their digests agree |
| `App.Test` | App.tsx:35-38 | a one-class regular-expression test never matches the empty text, and on one character matches exactly when it is in the class |
| `App.TestMeaning` | App.tsx:35-38 | a one-class regular-expression test succeeds exactly when some character is in the class |
| `App.TestAppend` | App.tsx:35-38 | a test on a concatenation succeeds exactly when it succeeds on one part |
| `App.EvaluateCriteria` | App.tsx:33-39 | minLength iff length ≥ 8; hasUpper/hasLower/hasNumber iff some character in A–Z/a–z/0–9; hasSpecial iff some character is one of `@ # $ % & !`, and no other symbol counts |
| `App.CriteriaFromTests` | App.tsx:33-47 | the criteria and score follow from the length and the four class tests |
| `App.Realize` | App.tsx:33-39 | the criteria are independent: every combination of the five outcomes is produced by some password |
| `App.ComputeScore` | App.tsx:42-47 | the counter ends at the number of true criteria, within 0..5 |
| `App.ScoreOf` | App.tsx:42-47 | a password's score is at most 5 |
| `App.ScoreZeroIff` | App.tsx:34-47 | the score is 0 exactly when the password is shorter than 8 and has no letter, digit or listed symbol; the empty password scores 0 |
| `App.EveryScoreReachable` | App.tsx:42-47 | every score 0..5 is reached by some password |
| `App.InitialStateIsEmptyAudit` | App.tsx:8-19 | the initial state is consistent for every digest, and is the only consistent state for the empty password |
| `App.ConsistentScoreInRange` | types.ts:9-14 | the score of a consistent state lies in the documented 0..5 and is its password's score |
| `App.App.constructor` | App.tsx:8-19 | the page starts in `InitialState`: empty value, score 0, all criteria false and hash `''`, which is `Consistent` |
| `App.App.EvaluatePassword` | App.tsx:31-58 | the state written at lines 52-57 is `Consistent`: value, criteria, score and hash all come from the same password, whatever the previous state |
| `App.App.HandlePasswordChange` | App.tsx:60-62 | every edit runs the evaluation, and every write leaves a `Consistent` state; in this sequential model the evaluation finishes before the handler returns, so the state holds the new password |
| `PasswordStrength.GetStrengthLabel` | components/PasswordStrength.tsx:29-35 | the label's rank is 0 up to score 1, score − 1 from 2 to 4, and 4 from 5 up |
| `PasswordStrength.LabelMonotone` | components/PasswordStrength.tsx:29-35 | a higher score never gets a weaker label |
| `PasswordStrength.ExcellentOnlyAtFive` | components/PasswordStrength.tsx:34 | over 0..5 the Excellent fall-through is reached at 5 and nowhere else |
| `PasswordStrength.LowestScoreFor` | components/PasswordStrength.tsx:29-35 | the table is onto: every label has a lowest score in 0..5 carrying it |
| `PasswordStrength.GetStrengthColor` | components/PasswordStrength.tsx:21-27 | the bar colour is a function of the label alone |
| `PasswordStrength.ColorOfLevelInjective` | components/PasswordStrength.tsx:21-27 | no two labels share a bar colour |
| `PasswordStrength.ColorChangesWithLabel` | components/PasswordStrength.tsx:21-35 | bar colours agree exactly when labels agree: both tables change at the same scores |
| `PasswordStrength.TextColor` | components/PasswordStrength.tsx:93-94 | Strong and Excellent are green, Fair and Good yellow, Weak red |
| `PasswordStrength.BarWidth` | components/PasswordStrength.tsx:102 | the width is 20 percent per score point |
| `PasswordStrength.BarWidthBounded` | components/PasswordStrength.tsx:102 | over 0..5 the width lies in 0..100 and strictly grows with the score |
| `PasswordStrength.CriteriaList` | components/PasswordStrength.tsx:37-43 | five rows in the order minLength, hasUpper, hasLower, hasNumber, hasSpecial, each ticked exactly when its criterion holds |
| `PasswordStrength.MetCount` | components/PasswordStrength.tsx:37-43 | a checklist has no more ticks than rows |
| `PasswordStrength.MetCountIsCount` | components/PasswordStrength.tsx:37-43 | ticks are counted like the flags they show |
| `PasswordStrength.TicksEqualScore` | components/PasswordStrength.tsx:37-43 | the number of ticked rows equals the score |
| `AuditProperties.ExcellentIffAllCriteria` | components/PasswordStrength.tsx:34 | Excellent is shown exactly when all five criteria hold |
| `AuditProperties.EmptyPasswordAudit` | App.tsx:23 | the empty password meets nothing, scores 0, is Weak and has fingerprint `''` |
| `AuditProperties.ExampleAllCriteria` | App.tsx:33-47 | `"Abcdef1!"` meets all five criteria, scores 5, is Excellent |
| `AuditProperties.ExampleShortLower` | App.tsx:33-47 | `"abc"` meets only hasLower, scores 1, is Weak |
| `AuditProperties.ExampleUpperOnly` | App.tsx:33-47 | `"ABCDEFGH"` meets minLength and hasUpper only, scores 2, is Fair |
| `AuditProperties.FallbackPasswordScoresFive` | services/geminiService.ts:22 | the generation fallback text scores 5 and is Excellent |
| `AuditProperties.ExampleBytes` | App.tsx:28 | bytes 0, 10, 171 and 255 render as `00`, `0a`, `ab`, `ff` |

## Left out

- SHA-256 and UTF-8 encoding (`crypto.subtle.digest`, `TextEncoder`): foreign code, taken as a parameter that returns 32 bytes.
- The async/await overlap of `evaluatePassword` calls: concurrency. The code has no ordering discipline, so none is claimed. A slower evaluation for an older password may finish last and overwrite a newer one; the model does not represent interleavings.
- Digest failure: the code does not catch it, so the model's digest is total.
- App.App.HandlePasswordChange: the model finishes the evaluation before the handler returns, which the code does not (it starts `evaluatePassword` without awaiting it); in the code the state still holds the previous password when the handler returns, and an older evaluation may write last. Only `Valid()` holds under every interleaving.
- App.Test: its own contract states only the empty and one-character cases; the full statement, a match exactly when some character is in the class, is `App.TestMeaning`.
- Length: JavaScript `length` counts UTF-16 code units; the model counts `char`s of a `seq<char>`.
- PasswordStrength.BarWidth: computed over exact reals; IEEE rounding of `(score / 5) * 100` is not modelled.
- PasswordStrength.GetStrengthLabel: the score is taken as an integer; non-integer JavaScript numbers are not modelled.
- The password generator and advice service (`services/geminiService.ts`): a network client with opaque output. Only its fallback text is used, as a test vector.
- The hash display, advice panel, JSX rendering, show/hide toggle, `isGenerating` flag and `handleGenerate`: presentation and UI state with no audit logic.
