/**
 * The date formatter: `padStart`, a loop that prepends a pad string until the value is
 * long enough, and `formatDate`'s assembly of `year<sep>mm<sep>dd`, followed by
 * ` hh:mm:ss` when the time of day is not midnight. The Date object is reduced to the
 * integer fields its getters return.
 */
module DateTime {
  import opened JsText

  /** `DateSeparator`: the three separators the formatter accepts. */
  datatype Separator = Dot | Dash | Slash {
    /** The character the separator stands for; none is a digit, a space or a colon,
        so the fields of a formatted date can be told apart. */
    function Char(): (c: char)
      ensures !IsDigit(c) && c != ' ' && c != ':'
      ensures c == '.' <==> this == Dot
    {
      match this
      case Dot => '.'
      case Dash => '-'
      case Slash => '/'
    }
  }

  /** The separator `formatDate` uses when none is given. */
  const DefaultSeparator: Separator := Dot

  // ---------------------------------------------------------------------------
  // padStart
  // ---------------------------------------------------------------------------

  /** `k` copies of `s`, one after the other. */
  function Repeat(s: string, k: nat): (r: string)
    ensures |r| == k * |s|
  {
    if k == 0 then [] else s + Repeat(s, k - 1)
  }

  /** Copies of a one-character string consist of that character only. */
  lemma {:induction false} RepeatOneChar(c: char, k: nat)
    ensures |Repeat([c], k)| == k
    ensures forall i :: 0 <= i < k ==> Repeat([c], k)[i] == c
  {
    if k > 0 {
      RepeatOneChar(c, k - 1);
    }
  }

  /** How many times the loop prepends a pad of width `w` to a value of length `len`:
      the least count after which the length reaches `target`. */
  function PadCount(len: nat, target: int, w: nat): (k: nat)
    requires w > 0 || target <= len
    ensures len + k * w >= target
    ensures k > 0 ==> len + (k - 1) * w < target
    decreases if len >= target then 0 else target - len
  {
    if len >= target then 0
    else
      var k' := PadCount(len + w, target, w);
      assert (k' + 1) * w == k' * w + w;
      k' + 1
  }

  /** The value `padStart(value, target, padChar)` returns: as many copies of `padChar`
      as the loop prepends, then `value`. */
  function Padded(value: string, target: int, padChar: string): string
    requires padChar != [] || target <= |value|
  {
    Repeat(padChar, PadCount(|value|, target, |padChar|)) + value
  }

  /** `padStart`. The source loops forever when `padChar` is empty and the value is too
      short; that call is excluded. */
  method PadStart(value: string, targetLength: int, padChar: string := "0") returns (r: string)
    requires padChar != [] || targetLength <= |value|
    ensures r == Padded(value, targetLength, padChar)
  {
    r := value;
    ghost var k := 0;
    while |r| < targetLength
      invariant r == Repeat(padChar, k) + value
      invariant PadCount(|value|, targetLength, |padChar|) == k + PadCount(|r|, targetLength, |padChar|)
      decreases targetLength - |r|
    {
      r := padChar + r;
      k := k + 1;
    }
  }

  /** A value that is long enough comes back unchanged. */
  lemma PaddedUnchanged(value: string, target: int, padChar: string)
    requires target <= |value|
    ensures Padded(value, target, padChar) == value
  {
  }

  /** The padded value ends with the value, reaches the target length, and is no longer
      than needed: one pad fewer would leave it short. */
  lemma PaddedLength(value: string, target: int, padChar: string)
    requires padChar != [] || target <= |value|
    ensures var r := Padded(value, target, padChar);
      && |r| >= target && |r| >= |value| && r[|r| - |value|..] == value
      && (|r| > |value| ==> |r| - |padChar| < target)
  {
    var r := Padded(value, target, padChar);
    var k := PadCount(|value|, target, |padChar|);
    assert |r| == k * |padChar| + |value|;
    if k > 0 {
      assert (k - 1) * |padChar| == k * |padChar| - |padChar|;
    }
  }

  /** With a one-character pad, the result has exactly the target length (or the
      value's, when longer), and every character before the value is the pad. */
  lemma PaddedOneChar(value: string, target: int, c: char)
    ensures var r := Padded(value, target, [c]);
      && |r| == (if target <= |value| then |value| else target)
      && r[|r| - |value|..] == value
      && forall i :: 0 <= i < |r| - |value| ==> r[i] == c
  {
    var k := PadCount(|value|, target, 1);
    RepeatOneChar(c, k);
    var r := Padded(value, target, [c]);
    assert r[..k] == Repeat([c], k);
  }

  // ---------------------------------------------------------------------------
  // formatDate
  // ---------------------------------------------------------------------------

  /** What the formatter reads from the Date: `getFullYear()`, `getMonth()` (0-based),
      `getDate()`, `getHours()`, `getMinutes()` and `getSeconds()`. */
  datatype DateFields = DateFields(year: int, month0: int, day: int, hours: int, minutes: int, seconds: int)

  /** `padStart(n.toString(), 2)`: a zero in front of a one-character text
      (`Pad2IsPadStart` shows this is what the loop produces). */
  function Pad2(n: int): string {
    var s := IntToString(n);
    if |s| == 1 then "0" + s else s
  }

  /** `${year}${separator}${month}${separator}${day}`: the year is not padded. */
  function DatePart(f: DateFields, sep: Separator): string {
    IntToString(f.year) + [sep.Char()] + Pad2(f.month0 + 1) + [sep.Char()] + Pad2(f.day)
  }

  /** `hh:mm:ss`. */
  function TimePart(f: DateFields): string {
    Pad2(f.hours) + ":" + Pad2(f.minutes) + ":" + Pad2(f.seconds)
  }

  predicate IsMidnight(f: DateFields) {
    f.hours == 0 && f.minutes == 0 && f.seconds == 0
  }

  /** `formatDate` on the fields of a valid Date. */
  function FormatDate(f: DateFields, sep: Separator := DefaultSeparator): (r: string)
    ensures DatePart(f, sep) <= r
    ensures |r| == |DatePart(f, sep)| <==> IsMidnight(f)
  {
    if !IsMidnight(f) then DatePart(f, sep) + " " + TimePart(f) else DatePart(f, sep)
  }

  /** The loop runs once on a one-character value with target 2 and pad `"0"`. */
  lemma PadCountOne()
    ensures PadCount(1, 2, 1) == 1 && Repeat("0", 1) == "0"
  {
  }

  /** Padding a single character to two with `"0"` puts one zero in front. */
  lemma PadShortToTwo(s: string)
    requires |s| == 1
    ensures Padded(s, 2, "0") == "0" + s
  {
    PadCountOne();
  }

  /** `Pad2` is `padStart` with target length 2 and pad `"0"`. */
  lemma Pad2IsPadStart(n: int)
    ensures Pad2(n) == Padded(IntToString(n), 2, "0")
  {
    var s := IntToString(n);
    if |s| == 1 {
      PadShortToTwo(s);
    } else {
      PaddedUnchanged(s, 2, "0");
    }
  }

  /** Two digits: a number 0..99 is padded to exactly two digits that read back as it. */
  lemma Pad2Digits(n: int)
    requires 0 <= n <= 99
    ensures |Pad2(n)| == 2 && AllDigits(Pad2(n)) && DecimalValue(Pad2(n)) == n
  {
    var s := IntToString(n);
    NatToStringLength(n);
    if n < 10 {
      assert Pad2(n) == [] + ['0'] + s;
      DecimalValueAppend([], '0');
      DecimalValueAppend(['0'], s[0]);
      assert s == [DigitChar(n)] by {
        assert s[..0] == [];
      }
    }
  }

  /** The text of an integer holds neither a space nor a colon. */
  lemma IntTextPlain(n: int)
    ensures ' ' !in IntToString(n) && ':' !in IntToString(n)
  {
    var s := IntToString(n);
    if n < 0 {
      forall i | 1 <= i < |s|
        ensures IsDigit(s[i])
      {
        assert s[i] == s[1..][i - 1];
      }
    }
  }

  lemma Pad2Plain(n: int)
    ensures ' ' !in Pad2(n) && ':' !in Pad2(n)
  {
    var s := IntToString(n);
    IntTextPlain(n);
    if |s| == 1 {
      assert Pad2(n) == ['0', s[0]];
    }
  }

  /** The time part is appended exactly when the time is not midnight: only then does
      the output hold a space. */
  lemma TimeShownIffNotMidnight(f: DateFields, sep: Separator)
    ensures ' ' in FormatDate(f, sep) <==> !IsMidnight(f)
    ensures IsMidnight(f) ==> FormatDate(f, sep) == DatePart(f, sep)
  {
    IntTextPlain(f.year);
    Pad2Plain(f.month0 + 1);
    Pad2Plain(f.day);
    var d := DatePart(f, sep);
    if !IsMidnight(f) {
      assert FormatDate(f, sep)[|d|] == ' ';
    }
  }

  /** Where the fields of a 10-character date and an 8-character time sit in
      `d + " " + t`. */
  lemma SpaceSplit(d: string, t: string)
    requires |d| == 10 && |t| == 8
    ensures var r := d + " " + t;
      && |r| == 19 && r[10] == ' ' && r[4] == d[4] && r[7] == d[7] && r[13] == t[2] && r[16] == t[5]
      && r[..4] == d[..4] && r[5..7] == d[5..7] && r[8..10] == d[8..]
      && r[11..13] == t[..2] && r[14..16] == t[3..5] && r[17..19] == t[6..]
  {
  }

  /** The date part of a four-digit year: `yyyy<sep>mm<sep>dd`, each field reading back
      as its value. */
  lemma DatePartReadsBack(f: DateFields, sep: Separator)
    requires 1000 <= f.year <= 9999 && 0 <= f.month0 <= 11 && 1 <= f.day <= 31
    ensures var d := DatePart(f, sep);
      && |d| == 10 && d[4] == sep.Char() && d[7] == sep.Char()
      && AllDigits(d[..4]) && DecimalValue(d[..4]) == f.year
      && AllDigits(d[5..7]) && DecimalValue(d[5..7]) == f.month0 + 1
      && AllDigits(d[8..]) && DecimalValue(d[8..]) == f.day
  {
    var y, m, e := IntToString(f.year), Pad2(f.month0 + 1), Pad2(f.day);
    NatToStringLength(f.year);
    Pad2Digits(f.month0 + 1);
    Pad2Digits(f.day);
    FieldsSplit(y, sep.Char(), m, e);
  }

  /** The time part of a time of day: `hh:mm:ss`, each field reading back as its value. */
  lemma TimePartReadsBack(f: DateFields)
    requires 0 <= f.hours <= 23 && 0 <= f.minutes <= 59 && 0 <= f.seconds <= 59
    ensures var t := TimePart(f);
      && |t| == 8 && t[2] == ':' && t[5] == ':'
      && AllDigits(t[..2]) && DecimalValue(t[..2]) == f.hours
      && AllDigits(t[3..5]) && DecimalValue(t[3..5]) == f.minutes
      && AllDigits(t[6..]) && DecimalValue(t[6..]) == f.seconds
  {
    Pad2Digits(f.hours);
    Pad2Digits(f.minutes);
    Pad2Digits(f.seconds);
    FieldsSplit(Pad2(f.hours), ':', Pad2(f.minutes), Pad2(f.seconds));
  }

  /** Reading a formatted date back. For a four-digit year and fields in their Date
      ranges, the output is `yyyy<sep>mm<sep>dd` (10 characters) or that followed by
      ` hh:mm:ss` (19 characters), and each field reads back as the value it came from. */
  lemma FormatDateReadsBack(f: DateFields, sep: Separator)
    requires 1000 <= f.year <= 9999 && 0 <= f.month0 <= 11 && 1 <= f.day <= 31
    requires 0 <= f.hours <= 23 && 0 <= f.minutes <= 59 && 0 <= f.seconds <= 59
    ensures var r := FormatDate(f, sep);
      && |r| == (if IsMidnight(f) then 10 else 19)
      && r[4] == sep.Char() && r[7] == sep.Char()
      && AllDigits(r[..4]) && DecimalValue(r[..4]) == f.year
      && AllDigits(r[5..7]) && DecimalValue(r[5..7]) == f.month0 + 1
      && AllDigits(r[8..10]) && DecimalValue(r[8..10]) == f.day
      && (!IsMidnight(f) ==>
            && r[10] == ' ' && r[13] == ':' && r[16] == ':'
            && AllDigits(r[11..13]) && DecimalValue(r[11..13]) == f.hours
            && AllDigits(r[14..16]) && DecimalValue(r[14..16]) == f.minutes
            && AllDigits(r[17..19]) && DecimalValue(r[17..19]) == f.seconds)
  {
    DatePartReadsBack(f, sep);
    var d := DatePart(f, sep);
    assert d[8..] == d[8..10];
    if !IsMidnight(f) {
      TimePartReadsBack(f);
      SpaceSplit(DatePart(f, sep), TimePart(f));
    }
  }

  /** The year is written as it is, without padding, and followed by the separator. */
  lemma YearUnpadded(f: DateFields, sep: Separator)
    ensures var r := FormatDate(f, sep); var y := IntToString(f.year);
      |r| > |y| && r[..|y|] == y && r[|y|] == sep.Char()
  {
    LeadingField(IntToString(f.year), sep.Char(), Pad2(f.month0 + 1), Pad2(f.day), TimePart(f), IsMidnight(f));
  }

  /** The first field of `a<c>b<c>e`, with or without `" " + t` after it. */
  lemma LeadingField(a: string, c: char, b: string, e: string, t: string, midnight: bool)
    ensures var d := a + [c] + b + [c] + e; var r := if !midnight then d + " " + t else d;
      |r| > |a| && r[..|a|] == a && r[|a|] == c
  {
    var d := a + [c] + b + [c] + e;
    assert d[..|a|] == a;
    if !midnight {
      assert (d + " " + t)[..|a|] == d[..|a|];
    }
  }

  /** Without a separator argument the separator is the dot. */
  lemma DefaultIsDot(f: DateFields)
    ensures FormatDate(f) == FormatDate(f, Dot)
    ensures FormatDate(f)[|IntToString(f.year)|] == '.'
  {
    YearUnpadded(f, Dot);
  }
}
