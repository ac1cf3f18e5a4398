/**
 * The two form validators. Each tests an anchored regular expression; here each
 * expression is written twice: once as the direct character test a reader would
 * write by hand, and once as what the pattern means (the positions at which its pieces
 * match), with a lemma that the two agree on every string. `\s` is the JavaScript
 * white-space class and `\d` the ASCII digits.
 */
module Form {
  import opened Wrappers
  import opened JsText

  // ---------------------------------------------------------------------------
  // validatePhoneNumber: /^1[3-9]\d{9}$/
  // ---------------------------------------------------------------------------

  /** One single-character piece of a pattern: a literal, a range or `\d`. */
  datatype CharClass = Literal(c: char) | Range(lo: char, hi: char) | Digit

  predicate ClassMatches(k: CharClass, c: char) {
    match k
    case Literal(l) => c == l
    case Range(lo, hi) => lo <= c <= hi
    case Digit => IsDigit(c)
  }

  /** `1[3-9]\d{9}`, one class per character. */
  const PhonePattern: seq<CharClass> := [Literal('1'), Range('3', '9')] + seq(9, _ => Digit)

  /** A pattern of single-character pieces between `^` and `$` matches a string of
      exactly its length whose every character is in the corresponding class. */
  predicate AnchoredMatch(p: seq<CharClass>, s: string) {
    |s| == |p| && forall i :: 0 <= i < |s| ==> ClassMatches(p[i], s[i])
  }

  /** `validatePhoneNumber`: eleven characters, `1`, then `3`..`9`, then nine digits. */
  function ValidatePhoneNumber(phone: string): (ok: bool)
    ensures ok ==> |phone| == 11 && NoWhiteSpace(phone)
  {
    && |phone| == 11
    && phone[0] == '1'
    && '3' <= phone[1] <= '9'
    && forall i :: 2 <= i < 11 ==> IsDigit(phone[i])
  }

  /** The direct test is the pattern's meaning. */
  lemma PhoneTestIsPattern(phone: string)
    ensures ValidatePhoneNumber(phone) <==> AnchoredMatch(PhonePattern, phone)
  {
    assert |PhonePattern| == 11;
    assert forall i :: 2 <= i < 11 ==> PhonePattern[i] == Digit;
  }

  /** The pattern is anchored: a valid number with one more character anywhere (before,
      after or inside, white space included) is rejected. */
  lemma PhoneAnchored(phone: string, k: nat, c: char)
    requires ValidatePhoneNumber(phone) && k <= |phone|
    ensures !ValidatePhoneNumber(phone[..k] + [c] + phone[k..])
  {
  }

  // ---------------------------------------------------------------------------
  // validateEmail: /^[^\s@]+@[^\s@]+\.[^\s@]+$/
  // ---------------------------------------------------------------------------

  /** The class `[^\s@]`. */
  predicate EmailChar(c: char) {
    !IsWhiteSpace(c) && c != '@'
  }

  /** `[^\s@]+`. */
  predicate EmailRun(s: string) {
    s != [] && forall i :: 0 <= i < |s| ==> EmailChar(s[i])
  }

  /** What the pattern means: the string splits at an `@` (index `i`) and a later `.`
      (index `j`) into three non-empty runs of `[^\s@]`. */
  predicate EmailPatternAt(s: string, i: int, j: int) {
    && 0 < i && i + 1 < j && j + 1 < |s|
    && s[i] == '@' && s[j] == '.'
    && EmailRun(s[..i]) && EmailRun(s[i + 1..j]) && EmailRun(s[j + 1..])
  }

  ghost predicate EmailPatternMatches(s: string) {
    exists i, j :: EmailPatternAt(s, i, j)
  }

  /** The index of the first occurrence of `c`, if any. */
  function IndexOf(s: string, c: char): (r: Option<nat>)
    ensures r.None? <==> c !in s
    ensures r.Some? ==> r.value < |s| && s[r.value] == c && c !in s[..r.value]
  {
    if s == [] then None
    else if s[0] == c then Some(0)
    else
      match IndexOf(s[1..], c)
      case None => None
      case Some(k) =>
        assert s[..k + 1] == [s[0]] + s[1..][..k];
        Some(k + 1)
  }

  /** The domain has a `.` that is neither its first nor its last character. */
  predicate HasInnerDot(d: string) {
    exists j :: 0 < j < |d| - 1 && d[j] == '.'
  }

  /** `validateEmail`, as a direct test: no white space, a first `@` that is not the
      first character, no other `@`, and an inner `.` in what follows the `@`. */
  function ValidateEmail(email: string): (ok: bool)
    ensures ok ==> NoWhiteSpace(email) && multiset(email)['@'] == 1
  {
    NoWhiteSpace(email) &&
    match IndexOf(email, '@')
    case None => false
    case Some(i) =>
      var local, domain := email[..i], email[i + 1..];
      assert email == local + ['@'] + domain;
      assert multiset(email)['@'] == multiset(local)['@'] + 1 + multiset(domain)['@'];
      i > 0 && '@' !in domain && HasInnerDot(domain)
  }

  /** The direct test accepts exactly the strings the pattern matches. */
  lemma EmailTestIsPattern(email: string)
    ensures ValidateEmail(email) <==> EmailPatternMatches(email)
  {
    if ValidateEmail(email) {
      var i := IndexOf(email, '@').value;
      var domain := email[i + 1..];
      var j :| 0 < j < |domain| - 1 && domain[j] == '.';
      assert EmailPatternAt(email, i, i + 1 + j) by {
        assert email[i + 1..i + 1 + j] == domain[..j];
        assert email[i + 1 + j + 1..] == domain[j + 1..];
      }
    }
    if EmailPatternMatches(email) {
      var i, j :| EmailPatternAt(email, i, j);
      EmailPatternAtIsDirect(email, i, j);
    }
  }

  lemma EmailPatternAtIsDirect(email: string, i: int, j: int)
    requires EmailPatternAt(email, i, j)
    ensures ValidateEmail(email)
  {
    var local, mid, top := email[..i], email[i + 1..j], email[j + 1..];
    assert email == local + ['@'] + mid + ['.'] + top;
    assert NoWhiteSpace(email) by {
      forall k | 0 <= k < |email|
        ensures !IsWhiteSpace(email[k])
      {
        if k < i {
          assert email[k] == local[k];
        } else if i < k < j {
          assert email[k] == mid[k - i - 1];
        } else if j < k {
          assert email[k] == top[k - j - 1];
        }
      }
    }
    assert '@' !in local;
    assert IndexOf(email, '@') == Some(i);
    var domain := email[i + 1..];
    assert domain == mid + ['.'] + top;
    assert '@' !in domain;
    assert domain[j - i - 1] == '.';
  }

  // ---------------------------------------------------------------------------
  // Examples
  // ---------------------------------------------------------------------------

  lemma EmailAccepted()
    ensures ValidateEmail("a@b.c")
  {
    var e := "a@b.c";
    assert e[..1] == "a" && e[2..3] == "b" && e[4..] == "c";
    assert EmailRun("a") && EmailRun("b") && EmailRun("c");
    EmailPatternAtIsDirect(e, 1, 3);
  }

  /** The dot the pattern uses may be followed by more dots. */
  lemma EmailWithSubdomainAccepted()
    ensures ValidateEmail("a@b.c.d")
  {
    var e := "a@b.c.d";
    assert e[..1] == "a" && e[2..3] == "b" && e[4..] == "c.d";
    assert EmailRun("a") && EmailRun("b") && EmailRun("c.d");
    EmailPatternAtIsDirect(e, 1, 3);
  }

  /** An empty run before or after the dot, no dot, or nothing before the `@`. */
  lemma EmailsRejected()
    ensures !ValidateEmail("a@.c") && !ValidateEmail("a@b.") && !ValidateEmail("a@bc") && !ValidateEmail("@b.c")
  {
    assert IndexOf("a@.c", '@') == Some(1);
    assert IndexOf("a@b.", '@') == Some(1);
    assert IndexOf("a@bc", '@') == Some(1);
    assert IndexOf("@b.c", '@') == Some(0);
  }

  lemma PhonesChecked()
    ensures ValidatePhoneNumber("13800138000")
    ensures !ValidatePhoneNumber("12800138000") && !ValidatePhoneNumber(" 13800138000")
  {
    var p := "13800138000";
    assert forall i :: 2 <= i < 11 ==> IsDigit(p[i]);
  }
}
