/**
 * The ISO 7064 MOD 11-2 check-character system, the reference against which the
 * identity-card check character is proved. A string of values a[0..n) (the check
 * value last, 10 standing for `X`) is valid when the sum of a[i]·2^(n-1-i) leaves
 * the remainder 1 on division by 11.
 */
module Iso7064 {

  function Pow2(n: nat): (p: nat)
    ensures p >= 1
  {
    if n == 0 then 1 else 2 * Pow2(n - 1)
  }

  /** The sum of a[i]·2^(|a|-1-i), written with Horner's rule. */
  function PowerSum(a: seq<int>): int {
    if a == [] then 0 else 2 * PowerSum(a[..|a| - 1]) + a[|a| - 1]
  }

  lemma PowerSumAppend(a: seq<int>, c: int)
    ensures PowerSum(a + [c]) == 2 * PowerSum(a) + c
  {
    assert (a + [c])[..|a|] == a;
  }

  predicate IsValid(a: seq<int>) {
    PowerSum(a) % 11 == 1
  }

  /** Adding `d` in 0..10 to `s` gives remainder 1 for exactly one `d`. */
  lemma RemainderOneStep(s: int, d: int)
    requires 0 <= d <= 10
    ensures (s + d) % 11 == 1 <==> d == (12 - s % 11) % 11
  {
    var x := s % 11;
    assert s + d == 11 * (s / 11) + (x + d);
    assert (s + d) % 11 == (x + d) % 11;
    if x + d >= 11 {
      assert (x + d) % 11 == x + d - 11;
    } else {
      assert (x + d) % 11 == x + d;
    }
  }

  /** The check value of a body: the unique value in 0..10 that, appended to the
      body, makes the whole valid. */
  function CheckValue(body: seq<int>): (c: int)
    ensures 0 <= c <= 10
    ensures IsValid(body + [c])
    ensures forall d :: 0 <= d <= 10 && IsValid(body + [d]) ==> d == c
  {
    var s := 2 * PowerSum(body);
    var c := (12 - s % 11) % 11;
    PowerSumAppend(body, c);
    RemainderOneStep(s, c);
    forall d | 0 <= d <= 10 && IsValid(body + [d])
      ensures d == c
    {
      PowerSumAppend(body, d);
      RemainderOneStep(s, d);
    }
    c
  }
}
