/**
 * The parts of the JavaScript string and number built-ins that the utilities rely on:
 * the white-space class, the removal of spaces, `trim`, `substring`, `parseInt`,
 * `Number` of a one-character string and the decimal text of an integer.
 *
 * A JavaScript string is a sequence of UTF-16 code units; here it is a `string`, a
 * sequence of Unicode scalar values. The two agree on the Basic Multilingual Plane,
 * which holds every character the utilities look at (digits, `X`, `-`, white space).
 */
module JsText {
  import opened Wrappers

  /** The white-space and line-terminator code points of ECMA-262 (sections 12.2 and
      12.3). They make up the regular-expression class `\s`, and they are what
      `parseInt` and `Number` skip. */
  predicate IsWhiteSpace(c: char) {
    || c == '\t' || c == '\n' || c == '\U{000B}' || c == '\U{000C}' || c == '\r'
    || c == ' ' || c == '\U{00A0}' || c == '\U{1680}'
    || ('\U{2000}' <= c <= '\U{200A}')
    || c == '\U{2028}' || c == '\U{2029}' || c == '\U{202F}' || c == '\U{205F}'
    || c == '\U{3000}' || c == '\U{FEFF}'
  }

  /** The class `\d`: ASCII decimal digits only. */
  predicate IsDigit(c: char) {
    '0' <= c <= '9'
  }

  function DigitValue(c: char): (v: int)
    requires IsDigit(c)
    ensures 0 <= v <= 9
  {
    c as int - '0' as int
  }

  function DigitChar(v: int): (c: char)
    requires 0 <= v <= 9
    ensures IsDigit(c) && DigitValue(c) == v
  {
    ('0' as int + v) as char
  }

  predicate AllDigits(s: string) {
    forall i :: 0 <= i < |s| ==> IsDigit(s[i])
  }

  predicate AllWhiteSpace(s: string) {
    forall i :: 0 <= i < |s| ==> IsWhiteSpace(s[i])
  }

  predicate NoWhiteSpace(s: string) {
    forall i :: 0 <= i < |s| ==> !IsWhiteSpace(s[i])
  }

  // ---------------------------------------------------------------------------
  // Removing spaces and trimming
  // ---------------------------------------------------------------------------

  /** `s.replace(/ /g, '')`: every U+0020 is removed, wherever it stands, and every
      other character is kept, in order. */
  function RemoveSpaces(s: string): (r: string)
    ensures forall i :: 0 <= i < |r| ==> r[i] != ' '
    ensures forall c :: c != ' ' ==> multiset(r)[c] == multiset(s)[c]
    ensures (forall i :: 0 <= i < |s| ==> s[i] != ' ') ==> r == s
  {
    if s == [] then []
    else
      assert s == [s[0]] + s[1..];
      if s[0] == ' ' then RemoveSpaces(s[1..]) else [s[0]] + RemoveSpaces(s[1..])
  }

  /** Removing spaces keeps the other characters in order: it works piece by piece. */
  lemma {:induction false} RemoveSpacesConcat(a: string, b: string)
    ensures RemoveSpaces(a + b) == RemoveSpaces(a) + RemoveSpaces(b)
  {
    if a != [] {
      assert (a + b)[1..] == a[1..] + b;
      RemoveSpacesConcat(a[1..], b);
    } else {
      assert a + b == b;
    }
  }

  /** The leading run of white space removed (the `^\s*` alternative of `trim`). */
  function TrimStart(s: string): (r: string)
    ensures |r| <= |s| && r == s[|s| - |r|..]
    ensures AllWhiteSpace(s[..|s| - |r|])
    ensures r == [] || !IsWhiteSpace(r[0])
  {
    if s != [] && IsWhiteSpace(s[0]) then TrimStart(s[1..]) else s
  }

  /** The trailing run of white space removed (the `\s*$` alternative of `trim`). */
  function TrimEnd(s: string): (r: string)
    ensures |r| <= |s| && r == s[..|r|]
    ensures AllWhiteSpace(s[|r|..])
    ensures r == [] || !IsWhiteSpace(r[|r| - 1])
  {
    if s != [] && IsWhiteSpace(s[|s| - 1]) then TrimEnd(s[..|s| - 1]) else s
  }

  /** `str.replace(/(^\s*)|(\s*$)/g, '')`: the input with a white-space prefix and a
      white-space suffix cut off, so that what is left neither starts nor ends with
      white space. */
  function Trim(s: string): (r: string)
    ensures exists i :: BetweenWhiteSpace(s, r, i)
    ensures r == [] || (!IsWhiteSpace(r[0]) && !IsWhiteSpace(r[|r| - 1]))
  {
    var t := TrimStart(s);
    var r := TrimEnd(t);
    TrimPieces(s, t, r, |s| - |t|);
    TrimEnds(t, r);
    r
  }

  /** Cutting a white-space suffix off a string that does not start with white space
      leaves one that neither starts nor ends with it. */
  lemma TrimEnds(t: string, r: string)
    requires t == [] || !IsWhiteSpace(t[0])
    requires |r| <= |t| && r == t[..|r|] && (r == [] || !IsWhiteSpace(r[|r| - 1]))
    ensures r == [] || (!IsWhiteSpace(r[0]) && !IsWhiteSpace(r[|r| - 1]))
  {
  }

  /** `r` is the slice of `s` at `i`, with only white space before and after it. */
  predicate BetweenWhiteSpace(s: string, r: string, i: int) {
    && 0 <= i <= |s| - |r| && r == s[i..i + |r|]
    && AllWhiteSpace(s[..i]) && AllWhiteSpace(s[i + |r|..])
  }

  /** Cutting a prefix of white space and then a suffix of white space leaves a slice
      with white space on both sides. */
  lemma TrimPieces(s: string, t: string, r: string, i: nat)
    requires i <= |s| && t == s[i..] && AllWhiteSpace(s[..i])
    requires |r| <= |t| && r == t[..|r|] && AllWhiteSpace(t[|r|..])
    ensures BetweenWhiteSpace(s, r, i)
  {
    assert s[i + |r|..] == t[|r|..];
  }

  /** A slice of a string without spaces has no spaces. */
  lemma SliceKeepsNoSpace(s: string, r: string)
    requires ' ' !in s && exists i :: BetweenWhiteSpace(s, r, i)
    ensures ' ' !in r
  {
    var i :| BetweenWhiteSpace(s, r, i);
  }

  /** Trimming twice is trimming once. */
  lemma TrimIdempotent(s: string)
    ensures Trim(Trim(s)) == Trim(s)
  {
    var t := Trim(s);
    if t != [] {
      assert TrimStart(t) == t;
      assert TrimEnd(t) == t;
    }
  }

  /** Where the pieces of `a<c>b<c>e` sit. */
  lemma FieldsSplit(a: string, c: char, b: string, e: string)
    ensures var r := a + [c] + b + [c] + e;
      && |r| == |a| + |b| + |e| + 2 && r[|a|] == c && r[|a| + 1 + |b|] == c
      && r[..|a|] == a && r[|a| + 1..|a| + 1 + |b|] == b && r[|a| + 2 + |b|..] == e
  {
  }

  // ---------------------------------------------------------------------------
  // Substrings
  // ---------------------------------------------------------------------------

  /** `s.substring(start, end)` and `s.slice(start, end)` for `0 <= start <= end`:
      both bounds are clamped to the length of the string. */
  function Substring(s: string, start: nat, end: nat): (r: string)
    requires start <= end
    ensures end <= |s| ==> r == s[start..end]
    ensures |r| <= end - start
  {
    var e := if end <= |s| then end else |s|;
    var b := if start <= e then start else e;
    s[b..e]
  }

  // ---------------------------------------------------------------------------
  // parseInt with the radix left out
  // ---------------------------------------------------------------------------

  predicate IsRadixDigit(c: char, radix: nat) {
    IsDigit(c) || (radix == 16 && ('a' <= c <= 'f' || 'A' <= c <= 'F'))
  }

  function RadixDigitValue(c: char, radix: nat): (v: nat)
    requires IsRadixDigit(c, radix)
  {
    if IsDigit(c) then DigitValue(c)
    else if 'a' <= c <= 'f' then c as int - 'a' as int + 10
    else c as int - 'A' as int + 10
  }

  predicate AllRadixDigits(s: string, radix: nat) {
    forall i :: 0 <= i < |s| ==> IsRadixDigit(s[i], radix)
  }

  /** The value of a numeral, most significant digit first. */
  function NumeralValue(s: string, radix: nat): nat
    requires AllRadixDigits(s, radix)
  {
    if s == [] then 0
    else NumeralValue(s[..|s| - 1], radix) * radix + RadixDigitValue(s[|s| - 1], radix)
  }

  /** The longest prefix of `s` made of digits of the radix. */
  function DigitPrefix(s: string, radix: nat): (r: string)
    ensures |r| <= |s| && r == s[..|r|] && AllRadixDigits(r, radix)
    ensures |r| == |s| || !IsRadixDigit(s[|r|], radix)
  {
    if s != [] && IsRadixDigit(s[0], radix) then [s[0]] + DigitPrefix(s[1..], radix) else []
  }

  /** `parseInt(s)` (ECMA-262 section 19.2.5) with the radix argument absent: leading
      white space is skipped, one sign is read, a `0x`/`0X` prefix switches to radix 16,
      and the longest run of digits that follows is the value; no digit gives `NaN`
      (here `None`). The result is exact: every call in the utilities passes at most
      four characters. */
  function ParseInt(s: string): (r: Option<int>)
    ensures r.Some? ==> exists k :: 0 <= k < |s| && IsDigit(s[k])
  {
    var t := TrimStart(s);
    var negative := t != [] && t[0] == '-';
    var u := if t != [] && (t[0] == '-' || t[0] == '+') then t[1..] else t;
    assert u == s[|s| - |u|..];
    assert ParseUnsigned(u).Some? ==> IsDigit(s[|s| - |u|]);
    match ParseUnsigned(u)
    case None => None
    case Some(m) => var v: int := m; if negative then Some(-v) else Some(v)
  }

  /** What `parseInt` reads after the sign: a `0x`/`0X` prefix switches to radix 16,
      and the longest run of digits of the radix is the value. */
  function ParseUnsigned(u: string): (r: Option<nat>)
    ensures r.Some? ==> u != [] && IsRadixDigit(u[0], 10)
  {
    var hex := |u| >= 2 && u[0] == '0' && (u[1] == 'x' || u[1] == 'X');
    var radix := if hex then 16 else 10;
    var digits := DigitPrefix(if hex then u[2..] else u, radix);
    if digits == [] then None else Some(NumeralValue(digits, radix))
  }

  /** The value of a string of decimal digits. */
  function DecimalValue(s: string): nat
    requires AllDigits(s)
  {
    assert AllRadixDigits(s, 10);
    NumeralValue(s, 10)
  }

  /** Appending a digit multiplies the value by ten and adds the digit. */
  lemma DecimalValueAppend(s: string, c: char)
    requires AllDigits(s) && IsDigit(c)
    ensures AllDigits(s + [c]) && DecimalValue(s + [c]) == 10 * DecimalValue(s) + DigitValue(c)
  {
    assert (s + [c])[..|s|] == s;
  }

  /** One digit is its own value. */
  lemma OneDigitValue(c: char)
    requires IsDigit(c)
    ensures AllDigits([c]) && DecimalValue([c]) == DigitValue(c)
  {
    DecimalValueAppend([], c);
    assert [] + [c] == [c];
  }

  /** A non-empty string of decimal digits is parsed to its decimal value. */
  lemma ParseIntOfDigits(s: string)
    requires s != [] && AllDigits(s)
    ensures ParseInt(s) == Some(DecimalValue(s))
  {
    assert !IsWhiteSpace(s[0]);
    assert TrimStart(s) == s;
    assert !(s[0] == '-' || s[0] == '+');
    assert !(|s| >= 2 && s[0] == '0' && (s[1] == 'x' || s[1] == 'X'));
    DigitPrefixOfDigits(s);
    assert AllRadixDigits(s, 10);
  }

  lemma {:induction false} DigitPrefixOfDigits(s: string)
    requires AllDigits(s)
    ensures DigitPrefix(s, 10) == s
  {
    if s != [] {
      DigitPrefixOfDigits(s[1..]);
    }
  }

  /** Two characters parse to a negative number only as a minus sign followed by a
      non-zero digit: white space, a `+` or a hexadecimal prefix never give one. */
  lemma NegativeFromTwoChars(s: string)
    requires |s| == 2 && ParseInt(s).Some? && ParseInt(s).value < 0
    ensures s[0] == '-' && '1' <= s[1] <= '9'
  {
    if !IsWhiteSpace(s[0]) {
      assert TrimStart(s) == s;
      if s[0] == '-' {
        var u := s[1..];
        assert DigitPrefix(u, 10) == if IsDigit(s[1]) then [s[1]] else [];
        assert IsDigit(s[1]) ==> NumeralValue([s[1]], 10) == DigitValue(s[1]) by {
          assert [s[1]][..0] == [];
        }
      }
    }
  }

  /** Conversely, a minus sign followed by a digit parses to the negated digit. */
  lemma ParseIntOfNegativeDigit(s: string)
    requires |s| == 2 && s[0] == '-' && IsDigit(s[1])
    ensures ParseInt(s) == Some(-DigitValue(s[1]))
  {
    assert TrimStart(s) == s;
    assert DigitPrefix(s[1..], 10) == [s[1]];
    assert NumeralValue([s[1]], 10) == DigitValue(s[1]) by {
      assert [s[1]][..0] == [];
    }
  }

  /** Two characters never parse to more than 99. */
  lemma TwoCharsAtMost99(s: string)
    requires |s| == 2 && ParseInt(s).Some?
    ensures ParseInt(s).value <= 99
  {
    var t := TrimStart(s);
    var u := if t != [] && (t[0] == '-' || t[0] == '+') then t[1..] else t;
    UnsignedOfTwoAtMost99(u);
  }

  /** At most two characters after the sign never read as more than 99. */
  lemma UnsignedOfTwoAtMost99(u: string)
    requires |u| <= 2
    ensures ParseUnsigned(u).Some? ==> ParseUnsigned(u).value <= 99
  {
    if |u| >= 2 && u[0] == '0' && (u[1] == 'x' || u[1] == 'X') {
      assert u[2..] == [];
    } else {
      DecimalAtMost99(DigitPrefix(u, 10));
    }
  }

  /** A decimal numeral of at most two digits is at most 99. */
  lemma DecimalAtMost99(d: string)
    requires |d| <= 2 && AllRadixDigits(d, 10)
    ensures NumeralValue(d, 10) <= 99
  {
    if |d| > 0 {
      var first := d[..|d| - 1];
      assert AllRadixDigits(first, 10);
      if |first| == 1 {
        assert first[..0] == [];
      }
      assert NumeralValue(first, 10) <= 9;
    }
  }

  // ---------------------------------------------------------------------------
  // Number of one character, and the text of a number
  // ---------------------------------------------------------------------------

  /** `Number(c)` for a one-character string (ECMA-262 section 7.1.4.1.1): a digit is its
      value, a string of white space is 0, and anything else (a sign, a point, a letter,
      `X` included) is `NaN` (`None`). */
  function NumberOfChar(c: char): (v: Option<int>)
    ensures v.Some? <==> IsDigit(c) || IsWhiteSpace(c)
    ensures IsDigit(c) ==> v == Some(DigitValue(c))
    ensures IsWhiteSpace(c) ==> v == Some(0)
  {
    if IsDigit(c) then Some(DigitValue(c)) else if IsWhiteSpace(c) then Some(0) else None
  }

  /** The decimal text of a natural number, without leading zeros. */
  function NatToString(n: nat): (r: string)
    ensures r != [] && AllDigits(r) && DecimalValue(r) == n
    ensures |r| == 1 || r[0] != '0'
  {
    if n < 10 then
      var r := [DigitChar(n)];
      assert r[..0] == [];
      assert NumeralValue(r, 10) == NumeralValue([], 10) * 10 + DigitValue(r[0]);
      r
    else
      var r := NatToString(n / 10) + [DigitChar(n % 10)];
      assert r[..|r| - 1] == NatToString(n / 10);
      r
  }

  /** The text of an integer (`n.toString()`, or `${n}` in a template). */
  function IntToString(n: int): (r: string)
    ensures r != []
    ensures n >= 0 ==> r == NatToString(n)
    ensures n < 0 ==> r[0] == '-' && r[1..] == NatToString(-n)
  {
    if n < 0 then "-" + NatToString(-n) else NatToString(n)
  }

  /** `String(v)` for a number: `NaN` for `None`, the decimal text otherwise. */
  function NumberString(v: Option<int>): string {
    match v
    case None => "NaN"
    case Some(n) => IntToString(n)
  }

  /** The text of a number is never `x` or `X`, so no number's lower-case text is `x`. */
  lemma NumberStringNeverX(v: Option<int>)
    ensures NumberString(v) != "x" && NumberString(v) != "X"
  {
    if v.Some? && v.value >= 0 {
      assert IsDigit(NumberString(v)[0]);
    }
  }

  /** How many characters the text of a natural number has, for up to four digits. */
  lemma NatToStringLength(n: nat)
    ensures n < 10 ==> |NatToString(n)| == 1
    ensures 10 <= n < 100 ==> |NatToString(n)| == 2
    ensures 100 <= n < 1000 ==> |NatToString(n)| == 3
    ensures 1000 <= n < 10000 ==> |NatToString(n)| == 4
  {
    if n >= 10 {
      NatToStringLength(n / 10);
    }
  }
}
