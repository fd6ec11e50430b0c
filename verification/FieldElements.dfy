/** The decimal spelling of a BN254 scalar (common/field.js): one spelling for each element. */
module FieldElements {

  const FIELD_PRIME: nat := 21888242871839275222246405745257275088548364400416034343698204186575808495617
  const MAX_FIELD_DIGITS: nat := 77

  predicate Digits(s: string) {
    forall i :: 0 <= i < |s| ==> '0' <= s[i] <= '9'
  }

  function Value(s: string): nat
    requires Digits(s)
  {
    if |s| == 0 then 0 else 10 * Value(s[..|s| - 1]) + (s[|s| - 1] as int - '0' as int)
  }

  predicate IsCanonicalField(s: string) {
    && 0 < |s| <= MAX_FIELD_DIGITS && Digits(s) && (s[0] == '0' ==> |s| == 1)
    && Value(s) < FIELD_PRIME
  }

  lemma {:induction false} LeadingDigit(s: string)
    requires Digits(s) && |s| > 0 && s[0] != '0'
    ensures Value(s) > 0
  {
    if |s| > 1 {
      LeadingDigit(s[..|s| - 1]);
    }
  }

  lemma {:induction false} SameValueSameDigits(a: string, b: string)
    requires Digits(a) && Digits(b) && Value(a) == Value(b)
    requires |a| > 0 && a[0] != '0' && |b| > 0 && b[0] != '0'
    ensures a == b
    decreases |a|
  {
    var p, q := a[..|a| - 1], b[..|b| - 1];
    assert Value(p) == Value(a) / 10 && Value(q) == Value(b) / 10;
    if p == [] && q != [] {
      LeadingDigit(q);
    } else if q == [] && p != [] {
      LeadingDigit(p);
    } else if p != [] {
      SameValueSameDigits(p, q);
    }
    assert a == p + [a[|a| - 1]] && b == q + [b[|b| - 1]];
  }

  /** Two spellings of one element cannot both be canonical, so a spent key has no alias. */
  lemma OneSpelling(a: string, b: string)
    requires IsCanonicalField(a) && IsCanonicalField(b) && Value(a) == Value(b)
    ensures a == b
  {
    if a[0] != '0' && b[0] != '0' {
      SameValueSameDigits(a, b);
    } else if a[0] == '0' && b[0] != '0' {
      assert a[..0] == "";
      LeadingDigit(b);
    } else if b[0] == '0' && a[0] != '0' {
      assert b[..0] == "";
      LeadingDigit(a);
    }
  }
}
