/**
 * Validation of Chinese resident identity numbers, as the utility does it: cleaning,
 * a length gate (15 or 18 characters), a region lookup, a birth-date check and, for 18
 * characters, the GB 11643-1999 check character (ISO 7064 MOD 11-2); plus the region,
 * sex and birthday extractors.
 */
module IdentityCard {
  import opened Wrappers
  import opened JsText
  import JsDate
  import Iso7064

  // ---------------------------------------------------------------------------
  // Constant tables
  // ---------------------------------------------------------------------------

  /** `wi`: the weight of each position, leftmost first. The eighteenth entry is never read. */
  const Weights: seq<int> := [7, 9, 10, 5, 8, 4, 2, 1, 6, 3, 7, 9, 10, 5, 8, 4, 2, 1]

  /** `valideCodeArr`: the expected check value for each remainder of the weighted sum;
      10 stands for `X`. */
  const CheckValues: seq<int> := [1, 0, 10, 9, 8, 7, 6, 5, 4, 3, 2]

  /** `areaMap`: region codes and their names. */
  const AreaMap: map<int, string> := map[
    11 := "北京", 12 := "天津", 13 := "河北", 14 := "山西", 15 := "内蒙古",
    21 := "辽宁", 22 := "吉林", 23 := "黑龙江",
    31 := "上海", 32 := "江苏", 33 := "浙江", 34 := "安徽", 35 := "福建", 36 := "江西", 37 := "山东",
    41 := "河南", 42 := "湖北", 43 := "湖南", 44 := "广东", 45 := "广西", 46 := "海南",
    50 := "重庆", 51 := "四川", 52 := "贵州", 53 := "云南", 54 := "西藏",
    61 := "陕西", 62 := "甘肃", 63 := "青海", 64 := "宁夏", 65 := "新疆",
    71 := "台湾", 81 := "香港", 82 := "澳门", 91 := "国外"]

  /** The region codes, listed by range. */
  const AreaCodes: set<int> :=
    set k | 11 <= k <= 91 && (11 <= k <= 15 || 21 <= k <= 23 || 31 <= k <= 37 || 41 <= k <= 46
            || 50 <= k <= 54 || 61 <= k <= 65 || k == 71 || k == 81 || k == 82 || k == 91)

  /** The table has exactly the 35 codes listed by range. */
  lemma AreaTableKeys()
    ensures AreaMap.Keys == AreaCodes
  {
  }

  /** Each weight is a power of two reduced modulo 11: `Weights[i] == 2^(17-i) mod 11`. */
  lemma {:induction false} WeightsArePowersOfTwo(i: nat)
    requires i < 18
    ensures Weights[i] == Iso7064.Pow2(17 - i) % 11
    decreases 17 - i
  {
    if i < 17 {
      WeightsArePowersOfTwo(i + 1);
      WeightDoubles(i);
      DoubleMod(Iso7064.Pow2(16 - i));
    }
  }

  /** Moving one position to the left doubles the weight, modulo 11. */
  lemma WeightDoubles(i: nat)
    requires i < 17
    ensures Weights[i] == (2 * Weights[i + 1]) % 11
  {
  }

  lemma DoubleMod(x: int)
    ensures (2 * x) % 11 == (2 * (x % 11)) % 11
  {
    assert 2 * x == 11 * (2 * (x / 11)) + 2 * (x % 11);
  }

  /** The check value for remainder `r` is `(12 - r) mod 11`. */
  lemma CheckValuesFormula(r: nat)
    requires r < 11
    ensures CheckValues[r] == (12 - r) % 11
  {
  }

  // ---------------------------------------------------------------------------
  // Cleaning (checkIdCard, trim)
  // ---------------------------------------------------------------------------

  /** `trim(idCard.replace(/ /g, ''))`: every space removed, then white space of any
      other kind trimmed from both ends. */
  function Clean(s: string): (r: string)
    ensures ' ' !in r
    ensures r == [] || (!IsWhiteSpace(r[0]) && !IsWhiteSpace(r[|r| - 1]))
  {
    var t := RemoveSpaces(s);
    SliceKeepsNoSpace(t, Trim(t));
    Trim(t)
  }

  /** Cleaning a cleaned string changes nothing. */
  lemma CleanIdempotent(s: string)
    ensures Clean(Clean(s)) == Clean(s)
  {
    var t := Clean(s);
    assert forall i :: 0 <= i < |t| ==> t[i] != ' ';
    assert RemoveSpaces(t) == t;
    TrimIdempotent(RemoveSpaces(s));
  }

  /** A string without white space (a string of digits, say) is already clean. */
  lemma CleanOfPlain(s: string)
    requires NoWhiteSpace(s)
    ensures Clean(s) == s
  {
    assert RemoveSpaces(s) == s;
    if s != [] {
      assert TrimStart(s) == s;
      assert TrimEnd(s) == s;
    }
  }

  // ---------------------------------------------------------------------------
  // Region (getArea, checkArea)
  // ---------------------------------------------------------------------------

  /** `areaMap[parseInt(idCard.slice(0, 2))]`: the region name, or nothing when the
      first two characters do not parse to a code of the table. */
  function GetArea(card: string): (r: Option<string>)
    ensures r.Some? <==> ParseInt(Substring(card, 0, 2)).Some? && ParseInt(Substring(card, 0, 2)).value in AreaCodes
    ensures r.Some? ==> var k := ParseInt(Substring(card, 0, 2)).value; k in AreaMap && r.value == AreaMap[k]
    ensures r.Some? ==> r.value in AreaMap.Values
  {
    var key := ParseInt(Substring(card, 0, 2));
    if key.Some? then AreaKey(key.value); (if key.value in AreaMap then Some(AreaMap[key.value]) else None)
    else None
  }

  /** One key looked up: it is in the table iff it is one of the 35 codes, and then its
      entry is one of the table's names. */
  lemma AreaKey(k: int)
    ensures k in AreaMap <==> k in AreaCodes
    ensures k in AreaMap ==> AreaMap[k] in AreaMap.Values
  {
    AreaTableKeys();
  }

  /** `areaMap[parseInt(idCard.slice(0, 2))] != null`. */
  predicate CheckArea(card: string)
    ensures CheckArea(card) ==> exists k :: 0 <= k < |card| && k < 2 && IsDigit(card[k])
  {
    var head := Substring(card, 0, 2);
    assert forall k :: 0 <= k < |head| ==> head[k] == card[k];
    match ParseInt(Substring(card, 0, 2))
    case Some(k) => k in AreaMap
    case None => false
  }

  /** The region check succeeds exactly when a region name is found. */
  lemma CheckAreaIffGetArea(card: string)
    ensures CheckArea(card) <==> GetArea(card).Some?
  {
  }

  /** When the first two characters are digits, the region check is membership of
      their two-digit number in the table. */
  lemma AreaOfDigits(card: string)
    requires |card| >= 2 && IsDigit(card[0]) && IsDigit(card[1])
    ensures CheckArea(card) <==> 10 * DigitValue(card[0]) + DigitValue(card[1]) in AreaCodes
  {
    AreaTableKeys();
    var head := card[..2];
    assert Substring(card, 0, 2) == head && head[0] == card[0] && head[1] == card[1];
    TwoDigitValue(head);
    ParseIntOfDigits(head);
  }

  lemma TwoDigitValue(s: string)
    requires |s| == 2 && AllDigits(s)
    ensures DecimalValue(s) == 10 * DigitValue(s[0]) + DigitValue(s[1])
  {
    assert s == [s[0]] + [s[1]];
    assert [s[0]] == [] + [s[0]];
    DecimalValueAppend([], s[0]);
    DecimalValueAppend([s[0]], s[1]);
  }

  // ---------------------------------------------------------------------------
  // Birth date (checkBrith)
  // ---------------------------------------------------------------------------

  /** The parsed year, month and day fields: offsets 6, 8 and 10 (two characters each)
      for 15 characters, 6 (four characters), 10 and 12 for 18. */
  function BirthFields(card: string): (Option<int>, Option<int>, Option<int>)
    requires |card| == 15 || |card| == 18
  {
    if |card| == 15 then (ParseInt(card[6..8]), ParseInt(card[8..10]), ParseInt(card[10..12]))
    else (ParseInt(card[6..10]), ParseInt(card[10..12]), ParseInt(card[12..14]))
  }

  /** The birth-date check succeeds: the length is 15 or 18 and the Date built from the
      parsed fields reads back as those fields. */
  predicate BirthDateValid(card: string) {
    && (|card| == 15 || |card| == 18)
    && var (year, month, day) := BirthFields(card);
       JsDate.RoundTrips(year, month, day)
  }

  /** `checkBrith`, with its `result` flag. */
  method CheckBirth(card: string) returns (result: bool)
    ensures result == BirthDateValid(card)
    ensures result ==> |card| == 15 || |card| == 18
  {
    result := true;
    if |card| == 15 {
      var year := ParseInt(card[6..8]);
      var month := ParseInt(card[8..10]);
      var day := ParseInt(card[10..12]);
      if !JsDate.RoundTrips(year, month, day) {
        result := false;
      }
    } else if |card| == 18 {
      var year := ParseInt(card[6..10]);
      var month := ParseInt(card[10..12]);
      var day := ParseInt(card[12..14]);
      if !JsDate.RoundTrips(year, month, day) {
        result := false;
      }
    } else {
      result := false;
    }
  }

  /** A 15-character birth date passes only with a negative year, written as a minus
      sign and a digit 1..9: every two-digit year is turned into 19yy by the Date
      constructor and no longer matches. */
  lemma LegacyBirthNeedsNegativeYear(card: string)
    requires |card| == 15 && BirthDateValid(card)
    ensures card[6] == '-' && '1' <= card[7] <= '9'
  {
    var year := ParseInt(card[6..8]);
    TwoCharsAtMost99(card[6..8]);
    NegativeFromTwoChars(card[6..8]);
  }

  /** An 18-character code whose date characters are digits passes the birth-date check
      exactly when the year is at least 100 and the date exists in the Gregorian calendar. */
  lemma BirthDateOfDigits(card: string)
    requires |card| == 18 && forall i :: 6 <= i < 14 ==> IsDigit(card[i])
    ensures BirthDateValid(card) <==>
      && DecimalValue(card[6..10]) >= 100
      && JsDate.IsCalendarDate(DecimalValue(card[6..10]), DecimalValue(card[10..12]), DecimalValue(card[12..14]))
  {
    var y, m, d := card[6..10], card[10..12], card[12..14];
    assert AllDigits(y) && AllDigits(m) && AllDigits(d);
    ParseIntOfDigits(y);
    ParseIntOfDigits(m);
    ParseIntOfDigits(d);
    assert BirthFields(card) == (Some(DecimalValue(y) as int), Some(DecimalValue(m) as int), Some(DecimalValue(d) as int));
    JsDate.RoundTripMeaning(DecimalValue(y), DecimalValue(m), DecimalValue(d));
  }

  // ---------------------------------------------------------------------------
  // Check character (check18Code)
  // ---------------------------------------------------------------------------

  /** `idCardStr.split('').map(Number)`: the number of every character. */
  function Values(s: string): (vals: seq<Option<int>>)
    ensures |vals| == |s|
    ensures forall i :: 0 <= i < |s| ==> vals[i] == NumberOfChar(s[i])
  {
    seq(|s|, i requires 0 <= i < |s| => NumberOfChar(s[i]))
  }

  /** The first `n` values are numbers (digits 0..9). */
  predicate Numeric(vals: seq<Option<int>>, n: nat) {
    n <= |vals| && forall k :: 0 <= k < n ==> vals[k].Some? && 0 <= vals[k].value <= 9
  }

  /** The first `n` values, known to be numbers. */
  function Known(vals: seq<Option<int>>, n: nat): (a: seq<int>)
    requires Numeric(vals, n)
    ensures |a| == n && forall k :: 0 <= k < n ==> a[k] == vals[k].value
  {
    seq(n, k requires 0 <= k < n => vals[k].value)
  }

  /** The weighted sum of the first `n` values, `Weights[k]` for position `k`. */
  function TableSum(vals: seq<Option<int>>, n: nat): int
    requires n <= 18 && Numeric(vals, n)
  {
    if n == 0 then 0 else TableSum(vals, n - 1) + Weights[n - 1] * vals[n - 1].value
  }

  /** The check character is right: the eighteen characters are numbers whose values
      pass ISO 7064 MOD 11-2. */
  predicate ChecksumValid(card: string) {
    Numeric(Values(card), 18) && Iso7064.IsValid(Known(Values(card), 18))
  }

  /** `a` and `b` leave the same remainder on division by 11. */
  predicate Congruent(a: int, b: int) {
    (a - b) % 11 == 0
  }

  lemma CongruentAdd(a: int, b: int, c: int, d: int)
    requires Congruent(a, b) && Congruent(c, d)
    ensures Congruent(a + c, b + d)
  {
    assert a - b == 11 * ((a - b) / 11);
    assert c - d == 11 * ((c - d) / 11);
    assert (a + c) - (b + d) == 11 * ((a - b) / 11 + (c - d) / 11);
  }

  lemma CongruentScale(a: int, b: int, v: int)
    requires Congruent(a, b)
    ensures Congruent(a * v, b * v)
  {
    var q := (a - b) / 11;
    assert a - b == 11 * q;
    assert a * v - b * v == (a - b) * v;
    assert (a - b) * v == 11 * (q * v);
  }

  lemma CongruentRemainder(a: int, b: int)
    requires Congruent(a, b)
    ensures a % 11 == b % 11
  {
    var q := (a - b) / 11;
    assert a == b + 11 * q;
    assert b == 11 * (b / 11) + b % 11;
    assert a == 11 * (q + b / 11) + b % 11;
  }

  lemma WeightCongruent(i: nat)
    requires i < 18
    ensures Congruent(Iso7064.Pow2(17 - i), Weights[i])
  {
    WeightsArePowersOfTwo(i);
    var p := Iso7064.Pow2(17 - i);
    assert p == 11 * (p / 11) + p % 11;
  }

  /** The table sum and the ISO 7064 power sum of the same prefix agree modulo 11,
      once the power sum is brought to the weights' scale. */
  lemma {:induction false} TableSumCongruent(vals: seq<Option<int>>, n: nat)
    requires n <= 17 && Numeric(vals, n)
    ensures Congruent(Iso7064.Pow2(18 - n) * Iso7064.PowerSum(Known(vals, n)), TableSum(vals, n))
  {
    if n > 0 {
      var m := n - 1;
      TableSumCongruent(vals, m);
      var p := Iso7064.Pow2(17 - m);
      var ps := Iso7064.PowerSum(Known(vals, m));
      var v := vals[m].value;
      var sum := TableSum(vals, m);
      assert Known(vals, n) == Known(vals, m) + [v];
      Iso7064.PowerSumAppend(Known(vals, m), v);
      assert Iso7064.PowerSum(Known(vals, n)) == 2 * ps + v;
      assert Iso7064.Pow2(18 - m) == 2 * p;
      assert Iso7064.Pow2(18 - n) == p;
      assert TableSum(vals, n) == sum + Weights[m] * v;
      WeightCongruent(m);
      StepCongruent(Iso7064.Pow2(18 - m), p, ps, v, sum, Weights[m]);
      assert Iso7064.Pow2(18 - n) * Iso7064.PowerSum(Known(vals, n)) == p * (2 * ps + v);
    } else {
      assert Known(vals, 0) == [];
    }
  }

  /** One step of the induction: doubling the power sum and adding a digit `v` on one
      side, adding `w * v` on the other, with `w` congruent to the digit's power. */
  lemma StepCongruent(pp: int, p: int, ps: int, v: int, sum: int, w: int)
    requires pp == 2 * p && Congruent(pp * ps, sum) && Congruent(p, w)
    ensures Congruent(p * (2 * ps + v), sum + w * v)
  {
    CongruentScale(p, w, v);
    CongruentAdd(pp * ps, sum, p * v, w * v);
    Distribute(p, ps, v);
  }

  lemma Distribute(p: int, x: int, v: int)
    ensures p * (2 * x + v) == (2 * p) * x + p * v
  {
  }

  /** Looking the remainder up in `CheckValues` is the ISO 7064 MOD 11-2 test. */
  lemma CheckValuesAgreeWithIso(vals: seq<Option<int>>)
    requires Numeric(vals, 18)
    ensures vals[17].value == CheckValues[TableSum(vals, 17) % 11] <==> Iso7064.IsValid(Known(vals, 18))
  {
    var body := Known(vals, 17);
    var c := vals[17].value;
    assert Known(vals, 18) == body + [c];
    Iso7064.PowerSumAppend(body, c);
    TableSumCongruent(vals, 17);
    CheckValueOfCongruent(2 * Iso7064.PowerSum(body), TableSum(vals, 17), c);
  }

  /** A check value completes a sum exactly as it completes any sum congruent to it. */
  lemma CheckValueOfCongruent(a: int, t: int, c: int)
    requires Congruent(a, t) && 0 <= c <= 9
    ensures (a + c) % 11 == 1 <==> c == CheckValues[t % 11]
  {
    CongruentAdd(a, t, c, c);
    CongruentRemainder(a + c, t + c);
    var r := t % 11;
    assert t - r == 11 * (t / 11);
    CongruentRemainder(t + c, r + c);
    RemainderOne(r, c);
  }

  /** With the remainder `r` of the body's weighted sum, the check value `c` completes a
      valid code exactly when it is the table's entry for `r`. */
  lemma RemainderOne(r: int, c: int)
    requires 0 <= r <= 10 && 0 <= c <= 9
    ensures (r + c) % 11 == 1 <==> c == CheckValues[r]
  {
    CheckValuesFormula(r);
    Iso7064.RemainderOneStep(r, c);
  }

  /** `check18Code`. The characters become numbers, a lower-case `x` test that no number
      can pass guards the in-place write of 10 at index 17, and the weighted sum is
      accumulated with `NaN` (an undefined or non-numeric element) spreading through it. */
  method Check18Code(card: string) returns (ok: bool)
    ensures ok == ChecksumValid(card)
  {
    var numbers := new Option<int>[|card|](i requires 0 <= i < |card| => NumberOfChar(card[i]));
    ghost var converted := numbers[..];
    assert converted == Values(card);
    if 17 < numbers.Length {
      ghost var before := numbers[17];
      var text := NumberString(numbers[17]);
      if text == "x" || text == "X" {
        numbers[17] := Some(10);
      }
      NumberStringNeverX(before);
    }
    assert numbers[..] == converted;
    var sum: Option<int> := Some(0);
    for i := 0 to 17
      invariant numbers[..] == converted
      invariant Numeric(converted, i) ==> sum == Some(TableSum(converted, i))
      invariant !Numeric(converted, i) ==> sum == None
    {
      var term := if i < numbers.Length then numbers[i] else None;
      NumericStep(converted, i);
      sum := if sum.Some? && term.Some? then Some(sum.value + Weights[i] * term.value) else None;
    }
    var position := if sum.Some? then Some(sum.value % 11) else None;
    var expected := if position.Some? then Some(CheckValues[position.value]) else None;
    var last := if 17 < numbers.Length then numbers[17] else None;
    ok := last.Some? && expected.Some? && last.value == expected.value;
    NumericStep(converted, 17);
    if Numeric(converted, 18) {
      CheckValuesAgreeWithIso(converted);
    }
  }

  lemma NumericStep(vals: seq<Option<int>>, i: nat)
    ensures Numeric(vals, i + 1) <==> Numeric(vals, i) && i < |vals| && vals[i].Some? && 0 <= vals[i].value <= 9
  {
  }

  /** The digit values of a string of digits. */
  function DigitValues(s: string): (a: seq<int>)
    requires AllDigits(s)
    ensures |a| == |s| && forall i :: 0 <= i < |s| ==> a[i] == DigitValue(s[i])
  {
    seq(|s|, i requires 0 <= i < |s| => DigitValue(s[i]))
  }

  /** For an 18-digit code the checksum test is ISO 7064 MOD 11-2 on its digits. */
  lemma ChecksumOfDigits(card: string)
    requires |card| == 18 && AllDigits(card)
    ensures ChecksumValid(card) <==> Iso7064.IsValid(DigitValues(card))
  {
    assert Numeric(Values(card), 18);
    assert Known(Values(card), 18) == DigitValues(card);
  }

  /** A body of 17 digits admits at most one check digit. */
  lemma AtMostOneCheckDigit(body: string, c: char, d: char)
    requires |body| == 17 && AllDigits(body) && IsDigit(c) && IsDigit(d)
    requires ChecksumValid(body + [c]) && ChecksumValid(body + [d])
    ensures c == d
  {
    ChecksumOfDigits(body + [c]);
    ChecksumOfDigits(body + [d]);
    assert DigitValues(body + [c]) == DigitValues(body) + [DigitValue(c)];
    assert DigitValues(body + [d]) == DigitValues(body) + [DigitValue(d)];
    var check := Iso7064.CheckValue(DigitValues(body));
    assert DigitValue(c) == check == DigitValue(d);
  }

  /** When ISO 7064 asks for the check value 10 (`X`), no final character is accepted:
      a digit has a value below 10, and `X` itself is not a number. */
  lemma CheckValueTenAcceptsNothing(body: string, c: char)
    requires |body| == 17 && AllDigits(body)
    requires Iso7064.CheckValue(DigitValues(body)) == 10
    ensures !ChecksumValid(body + [c])
  {
    var vals := Values(body + [c]);
    if Numeric(vals, 18) {
      assert Known(vals, 18) == DigitValues(body) + [vals[17].value];
    }
  }

  // ---------------------------------------------------------------------------
  // The whole check (checkIdCard)
  // ---------------------------------------------------------------------------

  /** The cleaned code is 15 or 18 characters long, its region is known, its birth
      date reads back unchanged and, for 18 characters, its check character is right. */
  predicate IsValidIdCard(idCard: string) {
    var card := Clean(idCard);
    && (|card| == 15 || |card| == 18)
    && CheckArea(card)
    && BirthDateValid(card)
    && (|card| == 18 ==> ChecksumValid(card))
  }

  /** `checkIdCard`. */
  method CheckIdCard(idCard: string) returns (ok: bool)
    ensures ok == IsValidIdCard(idCard)
    ensures ok ==> |Clean(idCard)| == 15 || |Clean(idCard)| == 18
  {
    var card := Trim(RemoveSpaces(idCard));
    assert card == Clean(idCard);
    if |card| == 15 || |card| == 18 {
      if !CheckArea(card) {
        return false;
      }
      var birthOk := CheckBirth(card);
      if !birthOk {
        return false;
      }
      if |card| == 18 {
        var codeOk := Check18Code(card);
        if !codeOk {
          return false;
        }
      }
      return true;
    } else {
      return false;
    }
  }

  /** Validity depends only on the cleaned text. */
  lemma ValidityOfCleanText(idCard: string)
    ensures IsValidIdCard(Clean(idCard)) == IsValidIdCard(idCard)
  {
    CleanIdempotent(idCard);
    SameCleanSameValidity(Clean(idCard), idCard);
  }

  lemma SameCleanSameValidity(a: string, b: string)
    requires Clean(a) == Clean(b)
    ensures IsValidIdCard(a) == IsValidIdCard(b)
  {
  }

  /** An 18-character code ending in `X` or `x` is always rejected. */
  lemma TrailingXRejected(idCard: string)
    requires |Clean(idCard)| == 18
    requires Clean(idCard)[17] == 'X' || Clean(idCard)[17] == 'x'
    ensures !IsValidIdCard(idCard)
  {
    assert !Numeric(Values(Clean(idCard)), 18);
  }

  /** A 15-character code is accepted only when its year field is a minus sign and a
      digit 1..9; in particular no code with a digit there is accepted. */
  lemma LegacyCodeNeedsNegativeYear(idCard: string)
    requires |Clean(idCard)| == 15 && IsValidIdCard(idCard)
    ensures Clean(idCard)[6] == '-' && '1' <= Clean(idCard)[7] <= '9'
  {
    LegacyBirthNeedsNegativeYear(Clean(idCard));
  }

  /** An 18-digit code is valid exactly when its first two digits are a region code,
      its year is at least 100, its date exists and its digits pass ISO 7064 MOD 11-2. */
  lemma DigitCodeCharacterization(card: string)
    requires |card| == 18 && AllDigits(card)
    ensures IsValidIdCard(card) <==>
      && 10 * DigitValue(card[0]) + DigitValue(card[1]) in AreaCodes
      && DecimalValue(card[6..10]) >= 100
      && JsDate.IsCalendarDate(DecimalValue(card[6..10]), DecimalValue(card[10..12]), DecimalValue(card[12..14]))
      && Iso7064.IsValid(DigitValues(card))
  {
    assert NoWhiteSpace(card);
    CleanOfPlain(card);
    assert IsValidIdCard(card) <==> CheckArea(card) && BirthDateValid(card) && ChecksumValid(card);
    AreaOfDigits(card);
    BirthDateOfDigits(card);
    ChecksumOfDigits(card);
  }

  // ---------------------------------------------------------------------------
  // Sex (getSex)
  // ---------------------------------------------------------------------------

  /** `parseInt(...) % 2 === 0 ? 2 : 1`: `NaN` is not even. */
  function SexOfNumber(v: Option<int>): int {
    if v.Some? && v.value % 2 == 0 then 2 else 1
  }

  /** `getSex`: the parity of character 14 for 15 characters, of characters 14..16
      for any other length; even gives 2 and anything else 1. */
  function GetSex(card: string): (sex: int)
    ensures sex == 1 || sex == 2
  {
    if |card| == 15 then SexOfNumber(ParseInt(Substring(card, 14, 15)))
    else SexOfNumber(ParseInt(Substring(card, 14, 17)))
  }

  /** For 15 characters the sex is the parity of the digit at offset 14. */
  lemma SexOfLegacyCode(card: string)
    requires |card| == 15 && IsDigit(card[14])
    ensures GetSex(card) == if DigitValue(card[14]) % 2 == 0 then 2 else 1
  {
    var field := card[14..15];
    assert Substring(card, 14, 15) == field == [card[14]];
    ParseIntOfDigits(field);
    OneDigitValue(card[14]);
  }

  /** For 18 characters the sex is the parity of the three-digit sequence number, which
      is the parity of its last digit, at offset 16. */
  lemma SexOfCode(card: string)
    requires |card| == 18 && IsDigit(card[14]) && IsDigit(card[15]) && IsDigit(card[16])
    ensures GetSex(card) == if DigitValue(card[16]) % 2 == 0 then 2 else 1
  {
    var field := card[14..17];
    assert AllDigits(field) && field[2] == card[16];
    ParseIntOfDigits(field);
    ThreeDigitParity(field);
  }

  lemma ThreeDigitParity(s: string)
    requires |s| == 3 && AllDigits(s)
    ensures DecimalValue(s) % 2 == DigitValue(s[2]) % 2
  {
    assert s == [s[0]] + [s[1]] + [s[2]];
    assert [s[0]] == [] + [s[0]];
    DecimalValueAppend([], s[0]);
    DecimalValueAppend([s[0]], s[1]);
    DecimalValueAppend([s[0]] + [s[1]], s[2]);
    var a, b, c := DigitValue(s[0]), DigitValue(s[1]), DigitValue(s[2]);
    assert DecimalValue(s) == 2 * (50 * a + 5 * b) + c;
  }

  /** A code too short to reach offset 14 has no number there and gives 1. */
  lemma SexOfShortCode(card: string)
    requires |card| <= 14
    ensures GetSex(card) == 1
  {
    assert Substring(card, 14, 17) == [];
  }

  // ---------------------------------------------------------------------------
  // Birthday (getBirthday)
  // ---------------------------------------------------------------------------

  /** The century prefix for a 15-character code: "20" when the two-digit year parses
      below 10, otherwise (also for `NaN`) "19". */
  function Century(yy: string): string {
    var year := ParseInt(yy);
    if year.Some? && year.value < 10 then "20" else "19"
  }

  /** The birthday text: `yyyy-mm-dd` cut from the code, with the century added for 15
      characters; the empty string for any other length. Nothing is validated. */
  function BirthdayOf(card: string): (r: string)
    ensures |card| == 18 ==> |r| == 10 && r[..4] == card[6..10] && r[4] == '-'
                             && r[5..7] == card[10..12] && r[7] == '-' && r[8..] == card[12..14]
    ensures |card| == 15 ==> |r| == 10 && r[..2] == Century(card[6..8]) && r[2..4] == card[6..8]
                             && r[4] == '-' && r[5..7] == card[8..10] && r[7] == '-' && r[8..] == card[10..12]
    ensures |card| != 15 && |card| != 18 ==> r == ""
  {
    if |card| == 15 then
      var year := Century(card[6..8]) + card[6..8];
      FieldsSplit(year, '-', card[8..10], card[10..12]);
      assert year[..2] == Century(card[6..8]) && year[2..] == card[6..8];
      year + "-" + card[8..10] + "-" + card[10..12]
    else if |card| == 18 then
      FieldsSplit(card[6..10], '-', card[10..12], card[12..14]);
      card[6..10] + "-" + card[10..12] + "-" + card[12..14]
    else ""
  }

  /** `getBirthday`, with its reassigned `birthdayStr`. */
  method GetBirthday(card: string) returns (birthday: string)
    ensures birthday == BirthdayOf(card)
  {
    birthday := "";
    if |card| == 15 {
      birthday := card[6..8];
      var year := ParseInt(birthday);
      if year.Some? && year.value < 10 {
        birthday := "20" + birthday;
      } else {
        birthday := "19" + birthday;
      }
      birthday := birthday + "-" + card[8..10] + "-" + card[10..12];
    } else if |card| == 18 {
      birthday := card[6..10] + "-" + card[10..12] + "-" + card[12..14];
    }
  }

  /** The birthday of an 18-digit code that passes the birth-date check names a real
      date with a year of at least 100: its fields are the ones that check validated. */
  lemma BirthdayOfValidCode(card: string)
    requires |card| == 18 && AllDigits(card)
    ensures var r := BirthdayOf(card);
      && AllDigits(r[..4]) && AllDigits(r[5..7]) && AllDigits(r[8..])
      && (BirthDateValid(card) ==>
            && DecimalValue(r[..4]) >= 100
            && JsDate.IsCalendarDate(DecimalValue(r[..4]), DecimalValue(r[5..7]), DecimalValue(r[8..])))
  {
    var r := BirthdayOf(card);
    var y, m, d := card[6..10], card[10..12], card[12..14];
    assert r[..4] == y && r[5..7] == m && r[8..] == d;
    assert AllDigits(y) && AllDigits(m) && AllDigits(d);
    BirthDateOfDigits(card);
  }
}
