/**
 * Worked examples of the identity-number check: an 18-digit number that passes, an
 * 18-character number whose correct check character is `X` and which is rejected all
 * the same, and a 15-character number that passes because its year field is negative.
 */
module IdentityCardExamples {
  import opened Wrappers
  import opened JsText
  import opened IdentityCard
  import JsDate
  import Iso7064

  /** One step of Horner's rule on a prefix. */
  lemma PowerSumStep(a: seq<int>, k: nat)
    requires k < |a|
    ensures Iso7064.PowerSum(a[..k + 1]) == 2 * Iso7064.PowerSum(a[..k]) + a[k]
  {
    assert a[..k + 1] == a[..k] + [a[k]];
    Iso7064.PowerSumAppend(a[..k], a[k]);
  }

  /** One step of the decimal value on a prefix. */
  lemma DecimalStep(s: string, k: nat)
    requires k < |s| && AllDigits(s)
    ensures AllDigits(s[..k]) && DecimalValue(s[..k + 1]) == 10 * DecimalValue(s[..k]) + DigitValue(s[k])
  {
    assert s[..k + 1] == s[..k] + [s[k]];
    DecimalValueAppend(s[..k], s[k]);
  }

  // ---------------------------------------------------------------------------
  // 110105199003070017: region 11, born 1990-03-07, check digit 7
  // ---------------------------------------------------------------------------

  /** The digits of the sample number satisfy ISO 7064 MOD 11-2: their power sum is
      249657 = 11 * 22696 + 1. */
  lemma SampleDigitsValid()
    ensures Iso7064.IsValid([1, 1, 0, 1, 0, 5, 1, 9, 9, 0, 0, 3, 0, 7, 0, 0, 1, 7])
  {
    var a := [1, 1, 0, 1, 0, 5, 1, 9, 9, 0, 0, 3, 0, 7, 0, 0, 1, 7];
    assert a[..0] == [];
    PowerSumStep(a, 0); PowerSumStep(a, 1); PowerSumStep(a, 2); PowerSumStep(a, 3);
    PowerSumStep(a, 4); PowerSumStep(a, 5); PowerSumStep(a, 6); PowerSumStep(a, 7);
    PowerSumStep(a, 8); PowerSumStep(a, 9); PowerSumStep(a, 10); PowerSumStep(a, 11);
    PowerSumStep(a, 12); PowerSumStep(a, 13); PowerSumStep(a, 14); PowerSumStep(a, 15);
    PowerSumStep(a, 16); PowerSumStep(a, 17);
    assert a[..18] == a;
    assert Iso7064.PowerSum(a) == 249657;
  }

  lemma FourDigitValue(y: string)
    requires |y| == 4 && AllDigits(y)
    ensures DecimalValue(y) == 1000 * DigitValue(y[0]) + 100 * DigitValue(y[1]) + 10 * DigitValue(y[2]) + DigitValue(y[3])
  {
    assert y[..0] == [];
    DecimalStep(y, 0); DecimalStep(y, 1); DecimalStep(y, 2); DecimalStep(y, 3);
    assert y[..4] == y;
  }

  lemma SampleYear()
    ensures DecimalValue("1990") == 1990
  {
    FourDigitValue("1990");
  }

  lemma SampleMonthDay()
    ensures DecimalValue("03") == 3 && DecimalValue("07") == 7
  {
    TwoDigitValue("03");
    TwoDigitValue("07");
  }

  lemma SampleDate()
    ensures var card := "110105199003070017";
      AllDigits(card) && DecimalValue(card[6..10]) == 1990 &&
      DecimalValue(card[10..12]) == 3 && DecimalValue(card[12..14]) == 7
  {
    var card := "110105199003070017";
    assert card[6..10] == "1990" && card[10..12] == "03" && card[12..14] == "07";
    SampleYear();
    SampleMonthDay();
  }

  lemma SampleChecksum()
    ensures AllDigits("110105199003070017") && Iso7064.IsValid(DigitValues("110105199003070017"))
  {
    assert DigitValues("110105199003070017") == [1, 1, 0, 1, 0, 5, 1, 9, 9, 0, 0, 3, 0, 7, 0, 0, 1, 7];
    SampleDigitsValid();
  }

  /** `checkIdCard("110105199003070017")` is true. */
  lemma SampleCodeAccepted()
    ensures IsValidIdCard("110105199003070017")
  {
    var card := "110105199003070017";
    SampleDate();
    SampleChecksum();
    assert 10 * DigitValue(card[0]) + DigitValue(card[1]) == 11;
    assert 11 in AreaCodes && JsDate.IsCalendarDate(1990, 3, 7);
    DigitCodeCharacterization(card);
  }

  // ---------------------------------------------------------------------------
  // 11010519900307005X: the standard's check character is X, the utility says no
  // ---------------------------------------------------------------------------

  /** The body 11010519900307005 has power sum 124829, so its ISO 7064 check value is
      10, written `X`. */
  lemma SampleBodyNeedsX()
    ensures Iso7064.CheckValue(DigitValues("11010519900307005")) == 10
  {
    var body := "11010519900307005";
    assert AllDigits(body);
    assert DigitValues(body) == [1, 1, 0, 1, 0, 5, 1, 9, 9, 0, 0, 3, 0, 7, 0, 0, 5];
    SampleBodySum();
  }

  lemma SampleBodySum()
    ensures Iso7064.PowerSum([1, 1, 0, 1, 0, 5, 1, 9, 9, 0, 0, 3, 0, 7, 0, 0, 5]) == 124829
  {
    var a := [1, 1, 0, 1, 0, 5, 1, 9, 9, 0, 0, 3, 0, 7, 0, 0, 5];
    assert a[..0] == [];
    PowerSumStep(a, 0); PowerSumStep(a, 1); PowerSumStep(a, 2); PowerSumStep(a, 3);
    PowerSumStep(a, 4); PowerSumStep(a, 5); PowerSumStep(a, 6); PowerSumStep(a, 7);
    PowerSumStep(a, 8); PowerSumStep(a, 9); PowerSumStep(a, 10); PowerSumStep(a, 11);
    PowerSumStep(a, 12); PowerSumStep(a, 13); PowerSumStep(a, 14); PowerSumStep(a, 15);
    PowerSumStep(a, 16);
    assert a[..17] == a;
  }

  lemma SampleXCodeClean()
    ensures Clean("11010519900307005X") == "11010519900307005X"
  {
    var card := "11010519900307005X";
    assert NoWhiteSpace(card);
    CleanOfPlain(card);
  }

  /** `checkIdCard("11010519900307005X")` is false although the standard's check
      character of its first seventeen digits is `X`. */
  lemma SampleXCodeRejected()
    ensures Iso7064.IsValid(DigitValues("11010519900307005") + [10])
    ensures !IsValidIdCard("11010519900307005X")
  {
    SampleBodyNeedsX();
    SampleXCodeClean();
    TrailingXRejected("11010519900307005X");
  }

  // ---------------------------------------------------------------------------
  // 110105-50101001: a 15-character number with year field -5
  // ---------------------------------------------------------------------------

  lemma SampleLegacyClean()
    ensures Clean("110105-50101001") == "110105-50101001"
  {
    var card := "110105-50101001";
    assert NoWhiteSpace(card);
    CleanOfPlain(card);
  }

  lemma SampleLegacyArea()
    ensures CheckArea("110105-50101001")
  {
    AreaOfDigits("110105-50101001");
  }

  lemma SampleLegacyFields()
    ensures BirthFields("110105-50101001") == (Some(-5), Some(1), Some(1))
  {
    var card := "110105-50101001";
    assert card[6..8] == "-5" && card[8..10] == "01" && card[10..12] == "01";
    SampleMinusFive();
    SampleOne();
  }

  lemma SampleMinusFive()
    ensures ParseInt("-5") == Some(-5)
  {
    ParseIntOfNegativeDigit("-5");
  }

  lemma SampleOne()
    ensures ParseInt("01") == Some(1)
  {
    var s := "01";
    assert s[0] == '0' && s[1] == '1' && DigitValue('0') == 0 && DigitValue('1') == 1;
    ParseIntOfDigits(s);
    TwoDigitValue(s);
  }

  /** `checkIdCard("110105-50101001")` is true: the year field "-5" is kept as the
      year -5 by the Date constructor, and 1 January of -5 is a calendar date. */
  lemma SampleLegacyCodeAccepted()
    ensures IsValidIdCard("110105-50101001")
  {
    SampleLegacyClean();
    SampleLegacyArea();
    SampleLegacyFields();
    assert JsDate.RoundTrips(Some(-5), Some(1), Some(1));
  }

  // ---------------------------------------------------------------------------
  // The 18-character birth-date check on three dates
  // ---------------------------------------------------------------------------

  lemma BirthDateFromFields(card: string, y: int, m: int, d: int)
    requires |card| == 18 && forall i :: 6 <= i < 14 ==> IsDigit(card[i])
    requires DecimalValue(card[6..10]) == y && DecimalValue(card[10..12]) == m && DecimalValue(card[12..14]) == d
    ensures BirthDateValid(card) <==> y >= 100 && JsDate.IsCalendarDate(y, m, d)
  {
    BirthDateOfDigits(card);
  }

  /** 29 February 2024 exists: 2024 is a leap year. */
  lemma LeapDayAccepted()
    ensures BirthDateValid("110105202402290017")
  {
    var card := "110105202402290017";
    assert card[6] == '2' && card[7] == '0' && card[8] == '2' && card[9] == '4';
    assert card[10] == '0' && card[11] == '2' && card[12] == '2' && card[13] == '9';
    assert card[6..10] == "2024";
    assert card[10..12] == "02";
    assert card[12..14] == "29";
    FourDigitValue("2024");
    TwoDigitValue("02");
    TwoDigitValue("29");
    BirthDateFromFields(card, 2024, 2, 29);
  }

  /** 29 February 2023 does not: 2023 is not a leap year. */
  lemma NonLeapDayRejected()
    ensures !BirthDateValid("110105202302290017")
  {
    var card := "110105202302290017";
    assert card[6] == '2' && card[7] == '0' && card[8] == '2' && card[9] == '3';
    assert card[10] == '0' && card[11] == '2' && card[12] == '2' && card[13] == '9';
    assert card[6..10] == "2023";
    assert card[10..12] == "02";
    assert card[12..14] == "29";
    FourDigitValue("2023");
    TwoDigitValue("02");
    TwoDigitValue("29");
    BirthDateFromFields(card, 2023, 2, 29);
  }

  /** Month 13 does not exist. */
  lemma ThirteenthMonthRejected()
    ensures !BirthDateValid("110105199013010017")
  {
    var card := "110105199013010017";
    assert card[6] == '1' && card[7] == '9' && card[8] == '9' && card[9] == '0';
    assert card[10] == '1' && card[11] == '3' && card[12] == '0' && card[13] == '1';
    assert card[6..10] == "1990";
    assert card[10..12] == "13";
    assert card[12..14] == "01";
    SampleYear();
    TwoDigitValue("13");
    TwoDigitValue("01");
    BirthDateFromFields(card, 1990, 13, 1);
  }
}
