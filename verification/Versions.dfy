/** Canonical decimal numbers and the release version syntax built from them. */
module Versions {
  import opened Wrappers
  import opened Text

  function Digit(c: char): (d: nat)
    requires IsDigit(c)
    ensures d < 10
  {
    c as int - '0' as int
  }

  function Value(s: string): nat
    requires AllDigits(s)
  {
    if s == [] then 0 else 10 * Value(s[..|s| - 1]) + Digit(s[|s| - 1])
  }

  /** Canonical decimal texts are determined by their value. */
  lemma {:induction false} CanonicalInjective(s: string, t: string)
    requires Canonical(s) && Canonical(t) && Value(s) == Value(t)
    ensures s == t
  {
    var a, b := s[..|s| - 1], t[..|t| - 1];
    assert s == a + [s[|s| - 1]] && t == b + [t[|t| - 1]];
    assert Value(a) == Value(b) && Digit(s[|s| - 1]) == Digit(t[|t| - 1]);
    if a != [] { CanonicalPositive(a); }
    if b != [] { CanonicalPositive(b); }
    if a != [] && b != [] { CanonicalInjective(a, b); }
  }

  lemma {:induction false} CanonicalPositive(s: string)
    requires s != [] && AllDigits(s) && s[0] != '0'
    ensures Value(s) > 0
  {
    if |s| > 1 { CanonicalPositive(s[..|s| - 1]); }
  }

  /** One canonical number at the front of a text, found by its digit run. */
  function LeadingNumber(s: string): Option<string> {
    var number := s[..DigitRun(s)];
    if Canonical(number) then Some(number) else None
  }

  /** Splits `number separator rest`. */
  function Component(s: string, separator: char): (r: Option<(string, string)>)
    ensures r.Some? ==> Canonical(r.value.0) && s == r.value.0 + [separator] + r.value.1
  {
    var n := LeadingNumber(s);
    if n.None? || |n.value| >= |s| || s[|n.value|] != separator then None
    else
      assert s == s[..|n.value|] + [s[|n.value|]] + s[|n.value| + 1..];
      Some((n.value, s[|n.value| + 1..]))
  }

  datatype Parts = Parts(major: string, minor: string, patch: string, release: string) {
    predicate Legal() {
      Canonical(major) && Canonical(minor) && Canonical(patch) && Canonical(release) && release[0] != '0'
    }
    function Text(): string { major + "." + minor + "." + patch + "-" + release }
  }

  /** `ARCH_VERSION_RE.fullmatch`: three canonical numbers and a positive package release. */
  function MatchArch(s: string): (r: Option<Parts>)
    ensures r.Some? ==> r.value.Legal()
  {
    var a := Component(s, '.');
    if a.None? then None
    else
      var b := Component(a.value.1, '.');
      if b.None? then None
      else
        var c := Component(b.value.1, '-');
        if c.None? || !Canonical(c.value.1) || c.value.1[0] == '0' then None
        else Some(Parts(a.value.0, b.value.0, c.value.0, c.value.1))
  }

  /** `VERSION_RE.fullmatch`: exactly three canonical numbers. */
  function MatchStable(s: string): Option<(string, string, string)> {
    var a := Component(s, '.');
    if a.None? then None
    else
      var b := Component(a.value.1, '.');
      if b.None? || !Canonical(b.value.1) then None else Some((a.value.0, b.value.0, b.value.1))
  }

  /** Associativity, once. */
  lemma Joined(a: string, b: string, c: string, d: string)
    ensures a + "." + (b + "." + (c + "-" + d)) == a + "." + b + "." + c + "-" + d
  {
  }

  lemma MatchArchText(s: string)
    requires MatchArch(s).Some?
    ensures s == MatchArch(s).value.Text()
  {
    var p := MatchArch(s).value;
    Joined(p.major, p.minor, p.patch, p.release);
  }

  /** The text with the smaller digit at the first place where two texts differ. */
  ghost predicate SmallerText(s: string, t: string) {
    exists i :: 0 <= i < |s| && i < |t| && s[..i] == t[..i] && s[i] < t[i]
  }

  lemma SmallerByLast(s: string, t: string)
    requires |s| == |t| > 0
    ensures var n := |s| - 1;
      SmallerText(s, t) <==> SmallerText(s[..n], t[..n]) || (s[..n] == t[..n] && s[n] < t[n])
  {
    var n := |s| - 1;
    if i :| 0 <= i < |s| && i < |t| && s[..i] == t[..i] && s[i] < t[i] {
      if i < n {
        assert s[..n][..i] == s[..i] && t[..n][..i] == t[..i];
        assert s[..n][i] < t[..n][i];
      }
    }
    if i :| 0 <= i < n && s[..n][..i] == t[..n][..i] && s[..n][i] < t[..n][i] {
      assert s[..n][..i] == s[..i] && t[..n][..i] == t[..i];
    }
  }

  /** Numbers of equal length compare like their texts. */
  lemma {:induction false} ValueOfEqualLength(s: string, t: string)
    requires AllDigits(s) && AllDigits(t) && |s| == |t|
    ensures (Value(s) < Value(t) <==> SmallerText(s, t)) && (Value(s) == Value(t) <==> s == t)
  {
    if s != [] {
      var n := |s| - 1;
      ValueOfEqualLength(s[..n], t[..n]);
      SmallerByLast(s, t);
      assert s == s[..n] + [s[n]] && t == t[..n] + [t[n]];
      assert IsDigit(s[n]) && IsDigit(t[n]);
    }
  }

  function Pow10(n: nat): (p: nat)
    ensures p > 0
  {
    if n == 0 then 1 else 10 * Pow10(n - 1)
  }

  lemma {:induction false} ValueBelow(s: string)
    requires AllDigits(s)
    ensures Value(s) < Pow10(|s|)
  {
    if s != [] { ValueBelow(s[..|s| - 1]); }
  }

  lemma {:induction false} ValueAbove(s: string)
    requires s != [] && AllDigits(s) && s[0] != '0'
    ensures Value(s) >= Pow10(|s| - 1)
  {
    if |s| > 1 { ValueAbove(s[..|s| - 1]); }
    else { assert s[..0] == []; }
  }

  lemma {:induction false} Pow10Grows(m: nat, n: nat)
    requires m <= n
    ensures Pow10(m) <= Pow10(n)
  {
    if m < n { Pow10Grows(m, n - 1); }
  }

  /** Canonical numbers compare as decimal numbers do: the longer one is greater, equal lengths compare like texts. */
  lemma ValueIsDecimal(s: string, t: string)
    requires Canonical(s) && Canonical(t)
    ensures Value(s) < Value(t) <==> |s| < |t| || (|s| == |t| && SmallerText(s, t))
  {
    if |s| == |t| {
      ValueOfEqualLength(s, t);
    } else if |s| < |t| {
      ValueBelow(s);
      ValueAbove(t);
      Pow10Grows(|s|, |t| - 1);
    } else {
      ValueBelow(t);
      ValueAbove(s);
      Pow10Grows(|t|, |s| - 1);
    }
  }

  datatype Version = Version(major: nat, minor: nat, patch: nat, release: nat)

  /** `parse_arch_version`. */
  function ParseArch(s: string): Option<Version> {
    var m := MatchArch(s);
    if m.None? then None
    else Some(Version(Value(m.value.major), Value(m.value.minor), Value(m.value.patch), Value(m.value.release)))
  }

  /** Tuple comparison. */
  predicate Before(a: Version, b: Version) {
    a.major < b.major || (a.major == b.major &&
      (a.minor < b.minor || (a.minor == b.minor &&
        (a.patch < b.patch || (a.patch == b.patch && a.release < b.release)))))
  }

  function Numbers(v: Version): seq<nat> { [v.major, v.minor, v.patch, v.release] }

  /** The first number in which the two differ is the smaller one. */
  ghost predicate Lexicographic(a: seq<nat>, b: seq<nat>) {
    exists i :: 0 <= i < |a| && i < |b| && a[..i] == b[..i] && a[i] < b[i]
  }

  lemma BeforeIsLexicographic(a: Version, b: Version)
    ensures Before(a, b) <==> Lexicographic(Numbers(a), Numbers(b))
  {
    var x, y := Numbers(a), Numbers(b);
    if Before(a, b) {
      var i := if a.major < b.major then 0 else if a.minor < b.minor then 1 else if a.patch < b.patch then 2 else 3;
      assert x[..i] == y[..i] && x[i] < y[i];
    }
    if i :| 0 <= i < |x| && i < |y| && x[..i] == y[..i] && x[i] < y[i] {
      forall k | 0 <= k < i ensures x[k] == y[k] { assert x[..i][k] == y[..i][k]; }
      assert i > 0 ==> x[0] == y[0];
      assert i > 1 ==> x[1] == y[1];
      assert i > 2 ==> x[2] == y[2];
    }
  }

  /** A strict total order: of two different versions exactly one comes before the other. */
  lemma BeforeIsTotal(a: Version, b: Version, c: Version)
    ensures !(Before(a, b) && Before(b, a)) && (a != b ==> Before(a, b) || Before(b, a)) && !Before(a, a)
    ensures Before(a, b) && Before(b, c) ==> Before(a, c)
  {
  }

  /** Equal versions come only from the identical text. */
  lemma ParseArchInjective(s: string, t: string)
    requires ParseArch(s).Some? && ParseArch(s) == ParseArch(t)
    ensures s == t
  {
    var a, b := MatchArch(s).value, MatchArch(t).value;
    MatchArchText(s);
    MatchArchText(t);
    CanonicalInjective(a.major, b.major);
    CanonicalInjective(a.minor, b.minor);
    CanonicalInjective(a.patch, b.patch);
    CanonicalInjective(a.release, b.release);
  }

  /** Every legal spelling is recognised as itself. */
  lemma MatchArchComplete(p: Parts)
    requires p.Legal()
    ensures MatchArch(p.Text()) == Some(p)
  {
    var third := p.patch + "-" + p.release;
    var second := p.minor + "." + third;
    Joined(p.major, p.minor, p.patch, p.release);
    ComponentComplete(p.major, '.', second);
    ComponentComplete(p.minor, '.', third);
    ComponentComplete(p.patch, '-', p.release);
  }

  /** Three canonical numbers between dots are a stable version, and read back as themselves. */
  lemma MatchStableComplete(major: string, minor: string, patch: string)
    requires Canonical(major) && Canonical(minor) && Canonical(patch)
    ensures MatchStable(major + "." + (minor + "." + patch)) == Some((major, minor, patch))
  {
    ComponentComplete(major, '.', minor + "." + patch);
    ComponentComplete(minor, '.', patch);
    assert major + "." + (minor + "." + patch) == major + ['.'] + (minor + "." + patch);
    assert minor + "." + patch == minor + ['.'] + patch;
  }

  lemma ComponentComplete(number: string, separator: char, rest: string)
    requires Canonical(number) && !IsDigit(separator)
    ensures Component(number + [separator] + rest, separator) == Some((number, rest))
  {
    var s := number + [separator] + rest;
    assert s == number + ([separator] + rest);
    DigitRunOfSplit(number, [separator] + rest);
    assert s[..|number|] == number && s[|number| + 1..] == rest;
  }

  /** A stable version with package release 1 is a legal Arch version. */
  lemma StableIsArch(s: string)
    requires MatchStable(s).Some?
    ensures var m := MatchStable(s).value; MatchArch(s + "-1") == Some(Parts(m.0, m.1, m.2, "1"))
  {
    var m := MatchStable(s).value;
    var p := Parts(m.0, m.1, m.2, "1");
    assert s == m.0 + "." + (m.1 + "." + m.2);
    assert s + "-1" == m.0 + "." + (m.1 + "." + (m.2 + "-" + "1"));
    Joined(m.0, m.1, m.2, "1");
    MatchArchComplete(p);
  }
}
