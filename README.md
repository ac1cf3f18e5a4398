# Identity-number, date-format and form validators in Dafny

This project models the utility functions of a small TypeScript helper library and
proves what they do:

- **Resident identity number validation** (`src/identityCard.ts`). `checkIdCard` cleans
  its input: it removes every space, then trims JavaScript white space from both ends.
  It then applies a length gate (15 or 18 characters), a region lookup in a constant
  table of 35 codes, a birth-date check built on the JavaScript `Date` round trip, and,
  for 18 characters, the check character of GB 11643-1999, which is ISO 7064 MOD 11-2.
  `getArea`, `getSex` and `getBirthday` read fields out of a code.
- **Date formatting** (`src/dateTime.ts`). `padStart` is a prepend loop. `formatDate`
  builds `year<sep>MM<sep>DD`, followed by ` hh:mm:ss` unless the time is midnight.
  The separator is `.`, `-` or `/` and defaults to `.`.
- **Form validation** (`src/form.ts`). `validateEmail` and `validatePhoneNumber` each
  test one anchored regular expression.

Layout:
- `wrappers.dfy` holds `Option`.
- `js_text.dfy` (module `JsText`) covers the JavaScript text behaviour the utilities
  rely on:
  - the `\s` white-space class, `replace(/ /g, '')`, the trim regex and `substring`;
  - `parseInt` without a radix;
  - `Number` of one character and `toString` of an integer.
- `js_date.dfy` (module `JsDate`) states when `new Date(y, m - 1, d)` reads back as
  `y`, `m - 1`, `d`.
- `iso7064.dfy` is the ISO 7064 MOD 11-2 reference that the check character is proved
  against.
- `identity_card.dfy` and `identity_card_examples.dfy` hold the validator and worked
  examples.
- `date_time.dfy` and `form.dfy` hold the other two files.

Where the library mutates state, the model is imperative:
- `Check18Code` builds an array, may overwrite entry 17 in place and sums in a `for`
  loop.
- `CheckBirth` keeps a `result` flag.
- `CheckIdCard` and `GetBirthday` reassign their string.
- `PadStart` prepends in a `while` loop.

Each of these methods is proved equal to a specification function. The properties
below are proved about those functions.

What the code does, which its comments and the obvious reading do not suggest:
- **A trailing `X` never passes.** `check18Code` maps every character through `Number`
  before it looks for `x`. `Number('X')` is `NaN`, and `String(NaN)` is `"NaN"`, so the
  substitution of 10 for `X` never happens (`NumberStringNeverX`,
  `TrailingXRejected`). An example is the code whose ISO 7064 check character is `X`
  (`SampleXCodeRejected`).
- **A 15-character code passes only with a negative year field.** The `Date`
  constructor turns the years 0..99 into 1900..1999 (section 21.4.2.1 of ECMA-262).
  So a genuine two-digit year never reads back, and every 15-character code with
  digits in its year field is rejected. The one way through is a year field of `-1`
  to `-9`: `parseInt` reads it as a negative year, which the constructor keeps. The
  model follows the code. `LegacyCodeNeedsNegativeYear` states the restriction, and
  `SampleLegacyCodeAccepted` proves that `110105-50101001` is accepted.
- The region table has 35 keys: 11–15, 21–23, 31–37, 41–46, 50–54, 61–65, 71, 81, 82
  and 91.

## Model

| member | source | states |
|---|---|---|
| JsText.RemoveSpaces | src/identityCard.ts:74 | `replace(/ /g, '')`: the result has no U+0020; every other character keeps its count; a string without spaces is unchanged |
| JsText.RemoveSpacesConcat | src/identityCard.ts:74 | removing spaces distributes over concatenation, so the remaining characters keep their order |
| JsText.TrimStart | src/identityCard.ts:133 | `^\s*`: the result is a suffix, everything cut off is white space, and it does not start with white space |
| JsText.TrimEnd | src/identityCard.ts:133 | `\s*$`: the result is a prefix, everything cut off is white space, and it does not end with white space |
| JsText.Trim | src/identityCard.ts:132-134 | `trim`: the result is a slice of the input with only white space before and after it, and it neither starts nor ends with white space |
| JsText.TrimIdempotent | src/identityCard.ts:132-134 | trimming twice is trimming once |
| IdentityCard.Clean | src/identityCard.ts:74 | the cleaned text has no U+0020 and neither starts nor ends with white space |
| IdentityCard.CleanIdempotent | src/identityCard.ts:74 | removing spaces and trimming, done twice, is done once |
| IdentityCard.CleanOfPlain | src/identityCard.ts:74 | a string without white space is left unchanged by cleaning |
| IdentityCard.ValidityOfCleanText | src/identityCard.ts:72-89 | `checkIdCard(s) == checkIdCard(clean(s))` |
| IdentityCard.CheckIdCard | src/identityCard.ts:72-89 | the method's result is `IsValidIdCard` (length gate, region, birth date, then the check character for 18 characters only); a true result implies a cleaned length of 15 or 18 |
| IdentityCard.DigitCodeCharacterization | src/identityCard.ts:72-89 | an 18-digit code passes iff its first two digits are a region key, its year is at least 100, its date exists in the Gregorian calendar, and its digits pass ISO 7064 MOD 11-2 |
| IdentityCard.TrailingXRejected | src/identityCard.ts:180-189 | a cleaned 18-character code ending in `X` or `x` is rejected |
| IdentityCard.LegacyCodeNeedsNegativeYear | src/identityCard.ts:151-159 | an accepted 15-character code has `-` at offset 6 and a digit 1..9 at offset 7, so no code with a two-digit year passes |
| IdentityCard.AreaTableKeys | src/identityCard.ts:26-64 | the region table's keys are exactly the 35 codes listed by range |
| IdentityCard.GetArea | src/identityCard.ts:95-97 | `getArea` finds a name iff `parseInt` of the first two characters is a table key, and the name found is the table's entry for that key |
| IdentityCard.CheckArea | src/identityCard.ts:140-142 | `checkArea` can pass only when one of the first two characters is a digit |
| IdentityCard.CheckAreaIffGetArea | src/identityCard.ts:140-142 | `checkArea` succeeds exactly when `getArea` finds a name |
| IdentityCard.AreaOfDigits | src/identityCard.ts:140-142 | with two leading digits, `checkArea` holds iff their two-digit value is one of the 35 codes |
| IdentityCard.CheckBirth | src/identityCard.ts:149-172 | the method's `result` flag is `BirthDateValid`; true implies length 15 or 18 |
| IdentityCard.BirthDateOfDigits | src/identityCard.ts:160-167 | for 18 characters with digits at 6..13, the birth date passes iff the year is at least 100 and year, month and day form a Gregorian calendar date |
| IdentityCard.LegacyBirthNeedsNegativeYear | src/identityCard.ts:151-159 | a 15-character birth date passes only with `-` and a digit 1..9 at offsets 6 and 7 |
| JsDate.ConstructorYear | src/identityCard.ts:155 | the `Date` constructor keeps a year exactly when it is outside 0..99 |
| JsDate.DaysInMonth | src/identityCard.ts:157 | a month has 28 to 31 days, and 29 exactly for February of a leap year |
| JsDate.RoundTripMeaning | src/identityCard.ts:155-157 | the parsed fields read back from `new Date` iff the year is outside 0..99 and the fields form a Gregorian calendar date |
| IdentityCard.Check18Code | src/identityCard.ts:179-190 | the method (array of `Number` values, the dead `x` substitution, weighted-sum loop, table lookup) returns `ChecksumValid`: eighteen digit values that pass ISO 7064 MOD 11-2 |
| IdentityCard.CheckValuesAgreeWithIso | src/identityCard.ts:185-189 | with eighteen digit values, the last equals `valideCodeArr[(Σ wi[i]·d_i) mod 11]` iff the digits pass ISO 7064 MOD 11-2 |
| IdentityCard.TableSumCongruent | src/identityCard.ts:185-187 | the weighted sum of the first n digits is congruent mod 11 to 2^(18-n) times their ISO 7064 power sum |
| IdentityCard.WeightsArePowersOfTwo | src/identityCard.ts:22 | `wi[i] == 2^(17-i) mod 11` for every i |
| IdentityCard.WeightDoubles | src/identityCard.ts:22 | each weight is twice the next one, mod 11 |
| IdentityCard.CheckValuesFormula | src/identityCard.ts:24 | `valideCodeArr[r] == (12 - r) mod 11` for every remainder r |
| IdentityCard.RemainderOne | src/identityCard.ts:188-189 | a remainder r and a digit c sum to 1 mod 11 iff c is `valideCodeArr[r]` |
| IdentityCard.ChecksumOfDigits | src/identityCard.ts:179-190 | for 18 digits, the check passes iff the digits pass ISO 7064 MOD 11-2 |
| IdentityCard.AtMostOneCheckDigit | src/identityCard.ts:185-189 | for a given 17-digit body at most one final digit is accepted |
| IdentityCard.CheckValueTenAcceptsNothing | src/identityCard.ts:182-189 | when the standard's check value of a 17-digit body is 10 (`X`), no final character is accepted |
| JsText.NumberStringNeverX | src/identityCard.ts:182 | `String(Number(c))` is never `"x"` or `"X"`, so line 183 is unreachable |
| JsText.NumberOfChar | src/identityCard.ts:180 | `Number` of one character is a number iff the character is a digit or white space; a digit gives its value, white space gives 0 |
| Iso7064.CheckValue | src/identityCard.ts:188-189 | the ISO 7064 MOD 11-2 check value of a body is in 0..10, completes it to a valid string, and is the only value that does |
| Iso7064.PowerSumAppend | src/identityCard.ts:185-187 | appending a digit doubles the power sum and adds the digit |
| JsText.ParseInt | src/identityCard.ts:152-163 | `parseInt` yields a number only when the text contains a digit |
| JsText.ParseIntOfDigits | src/identityCard.ts:152-154 | `parseInt` of a non-empty digit string is its decimal value |
| JsText.ParseIntOfNegativeDigit | src/identityCard.ts:152 | `parseInt("-d")` is minus the digit d |
| JsText.NegativeFromTwoChars | src/identityCard.ts:152 | two characters parse to a negative number only as `-` followed by a digit 1..9 |
| JsText.TwoCharsAtMost99 | src/identityCard.ts:152 | two characters never parse to more than 99 |
| IdentityCard.GetSex | src/identityCard.ts:103-109 | `getSex` is 1 or 2 |
| IdentityCard.SexOfLegacyCode | src/identityCard.ts:104-105 | for 15 characters the sex is the parity of the digit at offset 14: even gives 2, odd gives 1 |
| IdentityCard.SexOfCode | src/identityCard.ts:106-107 | for 18 characters with digits at 14..16 the sex is the parity of the digit at offset 16 |
| IdentityCard.ThreeDigitParity | src/identityCard.ts:107 | a three-digit number has the parity of its last digit |
| IdentityCard.SexOfShortCode | src/identityCard.ts:107 | a code too short to reach offset 14 yields `NaN` there and gives 1 |
| IdentityCard.BirthdayOf | src/identityCard.ts:115-129 | 18 characters give `s[6..10]-s[10..12]-s[12..14]`; 15 give the century `"20"` or `"19"`, then `yy-mm-dd`; any other length gives `""` |
| IdentityCard.GetBirthday | src/identityCard.ts:115-129 | the method's reassigned string is `BirthdayOf` |
| IdentityCard.BirthdayOfValidCode | src/identityCard.ts:126 | for a digit code that passed the birth-date check, the fields of `getBirthday` read back as a calendar date with a year of at least 100 |
| IdentityCardExamples.SampleCodeAccepted | src/identityCard.ts:72-89 | `checkIdCard("110105199003070017")` is true |
| IdentityCardExamples.SampleXCodeRejected | src/identityCard.ts:179-190 | the standard's check character of `11010519900307005` is `X`, yet `checkIdCard("11010519900307005X")` is false |
| IdentityCardExamples.SampleLegacyCodeAccepted | src/identityCard.ts:151-159 | `checkIdCard("110105-50101001")` is true: the year field `-5` is kept by `Date` |
| IdentityCardExamples.LeapDayAccepted | src/identityCard.ts:160-167 | the birth date 2024-02-29 passes |
| IdentityCardExamples.NonLeapDayRejected | src/identityCard.ts:160-167 | the birth date 2023-02-29 fails |
| IdentityCardExamples.ThirteenthMonthRejected | src/identityCard.ts:160-167 | the birth date 1990-13-01 fails |
| DateTime.Char | src/dateTime.ts:8-12 | each separator is one character that is not a digit, a space or `:`; it is `.` exactly for `Dot` |
| DateTime.DefaultIsDot | src/dateTime.ts:22 | `formatDate` without a separator uses `.`, which follows the year |
| DateTime.PadCount | src/dateTime.ts:14-16 | the number of loop passes is the least k for which `|value| + k·|padChar|` reaches the target |
| DateTime.PadStart | src/dateTime.ts:13-18 | the loop's result is `Padded`: `padChar` repeated that many times, followed by `value` |
| DateTime.PaddedUnchanged | src/dateTime.ts:13-18 | `value` is returned unchanged when its length is at least the target |
| DateTime.PaddedLength | src/dateTime.ts:13-18 | the result reaches the target length, ends with `value`, and one `padChar` fewer would not reach it |
| DateTime.PaddedOneChar | src/dateTime.ts:13-18 | with a one-character `padChar` the result is exactly the target length (or `value`'s), ends with `value`, and every prepended character is `padChar` |
| DateTime.Pad2IsPadStart | src/dateTime.ts:41-42 | the two-character padding used for the fields is `padStart(n.toString(), 2)` |
| DateTime.Pad2Digits | src/dateTime.ts:41-42 | a field in 0..99 is padded to two digits that read back as the field |
| DateTime.TimeShownIffNotMidnight | src/dateTime.ts:50-57 | the output contains a space iff the time is not 00:00:00; at midnight it is exactly the date part |
| DateTime.DatePartReadsBack | src/dateTime.ts:40-48 | for a four-digit year the date part is 10 characters: year, separator, month + 1 and day, each reading back as its field |
| DateTime.TimePartReadsBack | src/dateTime.ts:52 | the time part is `hh:mm:ss`, each pair reading back as its field |
| DateTime.FormatDate | src/dateTime.ts:20-58 | the date part is a prefix of the output, and the output is longer than it exactly when the time is not midnight |
| DateTime.FormatDateReadsBack | src/dateTime.ts:20-58 | for a four-digit year and valid fields, the output is 10 characters at midnight and 19 otherwise, and every field reads back from its fixed position |
| DateTime.YearUnpadded | src/dateTime.ts:40-48 | the output starts with the year's text, unpadded, followed by the separator |
| Form.ValidatePhoneNumber | src/form.ts:18-21 | an accepted number has 11 characters and no white space |
| Form.PhoneTestIsPattern | src/form.ts:19 | the direct test (length 11, `1`, then `3`..`9`, then nine digits) accepts exactly what `^1[3-9]\d{9}$` matches |
| Form.PhoneAnchored | src/form.ts:19 | inserting any character, white space included, anywhere into a valid number makes it invalid |
| Form.PhonesChecked | src/form.ts:19 | `13800138000` is accepted; `12800138000` and ` 13800138000` are rejected |
| Form.IndexOf | src/form.ts:8 | the first index of a character, or none iff it does not occur |
| Form.ValidateEmail | src/form.ts:7-10 | an accepted address has no white space and exactly one `@` |
| Form.EmailTestIsPattern | src/form.ts:8 | the direct test accepts exactly the strings `^[^\s@]+@[^\s@]+\.[^\s@]+$` matches |
| Form.EmailPatternAtIsDirect | src/form.ts:8 | a match of the pattern at an `@` and a later `.` passes the direct test |
| Form.EmailAccepted | src/form.ts:8 | `a@b.c` is accepted |
| Form.EmailWithSubdomainAccepted | src/form.ts:8 | `a@b.c.d` is accepted |
| Form.EmailsRejected | src/form.ts:8 | `a@.c`, `a@b.`, `a@bc` and `@b.c` are rejected |

## Left out

- JavaScript `Date` objects, the local time zone and DST. The round trip in
  `checkBrith` is a predicate: the constructor's 0..99 → 1900+y year rule plus Gregorian
  calendar validity. Normalisation of out-of-range fields is not modelled; such fields
  simply do not read back.
- `formatDate`'s conversion of string, number or `Date` input, its fallback to epoch 0
  for an invalid date, and its `console.log`. `FormatDate` takes the integer fields
  `getFullYear` … `getSeconds` would return.
- The regular-expression engine. Each pattern (`/ /g`, the trim pattern and the two
  form patterns) is written as an explicit predicate. `\s` is the fixed JavaScript
  white-space set.
- Characters outside the Basic Multilingual Plane. A `char` here is a Unicode scalar
  value, so such a character counts once, where JavaScript counts two UTF-16 code units:
  the length gate (src/identityCard.ts:75), the slice offsets and `split('')`
  (src/identityCard.ts:180) would see it differently. Lone surrogates cannot be represented.
- `parseInt` is exact for the inputs the utilities give it (at most four characters).
  Precision loss on long numerals and the radix argument are not modelled.
- The region names are opaque constants: only the key set is proved about. The
  commented-out status messages are not modelled.
- DateTime.PadStart: requires a non-empty `padChar` when the value is shorter than the target.
  With an empty `padChar` the source loops forever.
- DateTime.FormatDateReadsBack: is stated for four-digit years only. Other years change
  the field positions, and `YearUnpadded` covers the year for any value.
- Worked examples of `getArea`'s region names and of `getSex` on concrete codes are not
  included. The general lemmas above cover them.
