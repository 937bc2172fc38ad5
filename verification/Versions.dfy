/** Semantic versions without pre-release or build parts: the only ones a Postgres banner yields. */
module Versions {
  import opened Text

  datatype Version = Version(major: nat, minor: nat, patch: nat)

  // The zero value of semver.Version, which a new server starts with.
  const ZERO := Version(0, 0, 0)

  // Version.Compare: -1, 0 or 1.
  function Compare(a: Version, b: Version): int {
    if a.major != b.major then (if a.major > b.major then 1 else -1)
    else if a.minor != b.minor then (if a.minor > b.minor then 1 else -1)
    else if a.patch != b.patch then (if a.patch > b.patch then 1 else -1)
    else 0
  }

  predicate Less(a: Version, b: Version) {
    Compare(a, b) < 0
  }

  // semver.Range: a test on versions.
  type Range = Version -> bool

  function AtLeast(v: Version): Range { (x: Version) => !Less(x, v) }

  function Below(v: Version): Range { (x: Version) => Less(x, v) }

  function Above(v: Version): Range { (x: Version) => Less(v, x) }

  function Both(r: Range, s: Range): Range { (x: Version) => r(x) && s(x) }

  /** Section 11 of Semantic Versioning 2.0.0: precedence is decided by the first difference
      from the left, and is a strict total order. */
  lemma Precedence(a: Version, b: Version, c: Version)
    ensures Less(a, b) <==>
              || a.major < b.major
              || (a.major == b.major && a.minor < b.minor)
              || (a.major == b.major && a.minor == b.minor && a.patch < b.patch)
    ensures Less(a, b) || a == b || Less(b, a)
    ensures !(Less(a, b) && Less(b, a))
    ensures Less(a, b) && Less(b, c) ==> Less(a, c)
  {
  }

  predicate IsDigit(c: char) { '0' <= c <= '9' }

  // \w of Go's regexp syntax.
  predicate IsWordChar(c: char) {
    IsDigit(c) || 'A' <= c <= 'Z' || 'a' <= c <= 'z' || c == '_'
  }

  predicate AllDigits(s: string) {
    forall i | 0 <= i < |s| :: IsDigit(s[i])
  }

  predicate Digits(s: string) {
    s != "" && AllDigits(s)
  }

  /** The number a digit string denotes. */
  function Value(s: string): nat
    requires AllDigits(s)
  {
    if s == "" then 0
    else
      assert IsDigit(s[|s| - 1]);
      Value(s[..|s| - 1]) * 10 + (s[|s| - 1] as int - '0' as int)
  }

  /** The decimal numeral of `n`, as fmt prints it. */
  function Numeral(n: nat): string {
    var digit := ('0' as int + n % 10) as char;
    if n < 10 then [digit] else Numeral(n / 10) + [digit]
  }

  lemma {:induction false} NumeralDenotes(n: nat)
    ensures Digits(Numeral(n)) && Value(Numeral(n)) == n
    ensures |Numeral(n)| > 1 ==> Numeral(n)[0] != '0'
    ensures n > 0 ==> Numeral(n)[0] != '0'
  {
    var s := Numeral(n);
    if n < 10 {
      assert s[..0] == "";
    } else {
      NumeralDenotes(n / 10);
      assert s[..|s| - 1] == Numeral(n / 10);
      assert s[0] == Numeral(n / 10)[0];
    }
  }

  /** Numerals are decimal: ten digits, and one more digit is ten times and that digit more. */
  lemma NumeralsAreDecimal(n: nat, d: nat)
    requires d < 10
    ensures Numeral(d) == ["0123456789"[d]]
    ensures n > 0 ==> Numeral(10 * n + d) == Numeral(n) + Numeral(d)
  {
  }

  // Version.String.
  function Show(v: Version): string {
    Join([Numeral(v.major), Numeral(v.minor), Numeral(v.patch)], '.')
  }

  lemma ShowIs(v: Version)
    ensures Show(v) == Numeral(v.major) + "." + Numeral(v.minor) + "." + Numeral(v.patch)
  {
    JoinThree(Numeral(v.major), Numeral(v.minor), Numeral(v.patch), '.');
  }
}
