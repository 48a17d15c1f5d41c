/** The version of the strategy runtime and its text (version.rs). */
module RunnerVersion {
  import opened Newlines
  import opened Text

  type U16 = n: nat | n < 0x1_0000

  datatype Version = Version(major: U16, minor: U16, patch: U16)

  /** `Display` of a version. */
  function Display(v: Version): string {
    Digits(v.major) + "." + Digits(v.minor) + "." + Digits(v.patch)
  }

  lemma {:induction false} DigitsAreDigits(n: nat)
    ensures Digits(n) != "" && forall c :: c in Digits(n) ==> '0' <= c <= '9'
  {
    if n >= 10 {
      DigitsAreDigits(n / 10);
    }
  }

  lemma {:induction false} DigitsDetermine(m: nat, n: nat)
    requires Digits(m) == Digits(n)
    ensures m == n
  {
    var s := Digits(m);
    DigitsAreDigits(m / 10);
    DigitsAreDigits(n / 10);
    LastDigit(m);
    LastDigit(n);
    if m >= 10 && n >= 10 {
      assert Digits(m / 10) == s[..|s| - 1] == Digits(n / 10);
      DigitsDetermine(m / 10, n / 10);
    }
  }

  lemma LastDigit(n: nat)
    ensures Digits(n) != "" && Digits(n)[|Digits(n)| - 1] == DIGITS[n % 10]
  {}

  /** What stands in front of the first dot. */
  lemma DotDetermines(a: string, p: string, b: string, q: string)
    requires '.' !in a && '.' !in b && a + "." + p == b + "." + q
    ensures a == b && p == q
  {
    var s := a + "." + p;
    assert s[|a|] == '.' && s[|b|] == '.';
    assert forall k :: 0 <= k < |a| ==> s[k] == a[k] && a[k] in a;
    assert forall k :: 0 <= k < |b| ==> s[k] == b[k] && b[k] in b;
    assert a == s[..|a|] && b == s[..|b|] && p == s[|a| + 1..] && q == s[|b| + 1..];
  }

  lemma DisplayDetermines(v: Version, w: Version)
    requires Display(v) == Display(w)
    ensures v == w
  {
    hide Digits;
    DigitsAreDigits(v.major);
    DigitsAreDigits(v.minor);
    DigitsAreDigits(w.major);
    DigitsAreDigits(w.minor);
    var p, q := Digits(v.minor) + "." + Digits(v.patch), Digits(w.minor) + "." + Digits(w.patch);
    assert Display(v) == Digits(v.major) + "." + p && Display(w) == Digits(w.major) + "." + q;
    DotDetermines(Digits(v.major), p, Digits(w.major), q);
    DotDetermines(Digits(v.minor), Digits(v.patch), Digits(w.minor), Digits(w.patch));
    DigitsDetermine(v.major, w.major);
    DigitsDetermine(v.minor, w.minor);
    DigitsDetermine(v.patch, w.patch);
  }

  lemma DisplayIsLine(v: Version)
    ensures Line(Display(v)) && Display(v) != "" && '0' <= Display(v)[0] <= '9'
  {
    hide Digits;
    DigitsAreDigits(v.major);
    DigitsAreDigits(v.minor);
    DigitsAreDigits(v.patch);
    assert Display(v)[0] == Digits(v.major)[0] && Digits(v.major)[0] in Digits(v.major);
  }
}
