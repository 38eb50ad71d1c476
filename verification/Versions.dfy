/**
 * Versions and dates as the changelog and the git tags of the repository spell them. A version is
 * three numbers without leading zeros; its name is read back as the version, and different versions
 * have different names, so tags and headings can be compared either way.
 */
module Versions {
  import opened Ascii
  import opened Wrappers
  import D = Decimal

  datatype Version = Version(major: nat, minor: nat, patch: nat)

  /** Tuples of integers compare lexicographically. */
  predicate Older(v: Version, w: Version) {
    || v.major < w.major
    || (v.major == w.major && v.minor < w.minor)
    || (v.major == w.major && v.minor == w.minor && v.patch < w.patch)
  }

  /** `".".join(map(str, version))`: the bare tag of a release. */
  function Name(v: Version): string { D.Show(v.major) + "." + D.Show(v.minor) + "." + D.Show(v.patch) }

  /** `0|[1-9]\d*` at the front: the value and what follows the maximal run of digits. */
  function ReadComponent(s: string): Option<(nat, string)> {
    var n := RunLength(s, IsDigit);
    if n == 0 || (s[0] == '0' && n > 1) then None else Some((D.Read(s[..n]), s[n..]))
  }

  /** `RELEASE_TAG.fullmatch`: the version a tag names, when it names one. */
  function ParseVersion(s: string): Option<Version> {
    match ReadComponent(s)
    case None => None
    case Some((a, s1)) =>
      if s1 == [] || s1[0] != '.' then None
      else
        match ReadComponent(s1[1..])
        case None => None
        case Some((b, s2)) =>
          if s2 == [] || s2[0] != '.' then None
          else
            match ReadComponent(s2[1..])
            case None => None
            case Some((c, s3)) => if s3 == [] then Some(Version(a, b, c)) else None
  }

  lemma ReadShownComponent(n: nat, rest: string)
    requires rest == [] || !IsDigit(rest[0])
    ensures ReadComponent(D.Show(n) + rest) == Some((n, rest))
  {
    var s := D.Show(n) + rest;
    RunLengthUnique(s, IsDigit, |D.Show(n)|);
    assert s[..|D.Show(n)|] == D.Show(n);
    D.ReadShow(n);
  }

  lemma ShowReadComponent(s: string)
    requires ReadComponent(s).Some?
    ensures s == D.Show(ReadComponent(s).value.0) + ReadComponent(s).value.1
  {
    var n := RunLength(s, IsDigit);
    assert AllIn(s[..n], IsDigit);
    D.ShowRead(s[..n]);
    assert s == s[..n] + s[n..];
  }

  /** A version's name is read back as the version. */
  lemma ParseName(v: Version)
    ensures ParseVersion(Name(v)) == Some(v)
  {
    hide ReadComponent;
    var s2 := "." + D.Show(v.patch);
    var s1 := "." + (D.Show(v.minor) + s2);
    assert Name(v) == D.Show(v.major) + s1;
    ReadShownComponent(v.major, s1);
    assert s1[1..] == D.Show(v.minor) + s2;
    ReadShownComponent(v.minor, s2);
    assert s2[1..] == D.Show(v.patch) + "";
    ReadShownComponent(v.patch, "");
  }

  /** A tag that names a version is that version's name and nothing else. */
  lemma NameParsed(s: string)
    requires ParseVersion(s).Some?
    ensures Name(ParseVersion(s).value) == s
  {
    hide ReadComponent;
    var (a, s1) := ReadComponent(s).value;
    var (b, s2) := ReadComponent(s1[1..]).value;
    var (c, s3) := ReadComponent(s2[1..]).value;
    ShowReadComponent(s);
    ShowReadComponent(s1[1..]);
    ShowReadComponent(s2[1..]);
    assert s1 == "." + s1[1..] && s2 == "." + s2[1..];
  }

  // ---- Order ------------------------------------------------------------------------------

  /** `w` raises `v` by `k`: in its patch, in its minor or in its major number, what follows being free. */
  predicate RaisesBy(w: Version, v: Version, k: nat) {
    || w == Version(v.major, v.minor, v.patch + k)
    || w == Version(v.major, v.minor + k, w.patch)
    || w == Version(v.major + k, w.minor, w.patch)
  }

  ghost predicate Raises(w: Version, v: Version) { exists k: nat :: k > 0 && RaisesBy(w, v, k) }

  /** A version is older than exactly those that raise it. */
  lemma OlderIsRaised(v: Version, w: Version)
    ensures Older(v, w) <==> Raises(w, v)
  {
    if v.major < w.major {
      assert RaisesBy(w, v, w.major - v.major);
    } else if v.major == w.major && v.minor < w.minor {
      assert RaisesBy(w, v, w.minor - v.minor);
    } else if v.major == w.major && v.minor == w.minor && v.patch < w.patch {
      assert RaisesBy(w, v, w.patch - v.patch);
    }
  }

  /** Versions as numbers in a base that their minor and patch numbers stay below. */
  function Rank(v: Version, base: nat): nat { (v.major * base + v.minor) * base + v.patch }

  /** The order of versions is that of their ranks: the major number counts most. */
  lemma OlderIsRank(v: Version, w: Version, base: nat)
    requires v.minor < base && v.patch < base && w.minor < base && w.patch < base
    ensures Older(v, w) <==> Rank(v, base) < Rank(w, base)
  {
    var p, q := v.major * base + v.minor, w.major * base + w.minor;
    TwoDigits(v.major, v.minor, w.major, w.minor, base);
    TwoDigits(w.major, w.minor, v.major, v.minor, base);
    TwoDigits(p, v.patch, q, w.patch, base);
  }

  /** Numbers of two digits compare digit by digit. */
  lemma TwoDigits(a: nat, b: nat, c: nat, d: nat, base: nat)
    requires b < base && d < base
    ensures a * base + b < c * base + d <==> a < c || (a == c && b < d)
  {
    Digits(a, b, c, d, base);
    Digits(c, d, a, b, base);
  }

  /** Two numbers of two digits. */
  lemma Digits(a: nat, b: nat, c: nat, d: nat, base: nat)
    requires b < base && d < base
    ensures a < c ==> a * base + b < c * base + d
    ensures a == c ==> (a * base + b < c * base + d <==> b < d)
  {
    if a < c { assert (a + 1) * base <= c * base; }
  }

  // ---- Dates --------------------------------------------------------------------------------

  /** `\d{4}-\d{2}-\d{2}` */
  predicate IsoShape(s: string) {
    |s| == 10 && s[4] == '-' && s[7] == '-' && forall k | 0 <= k < 10 && k != 4 && k != 7 :: IsDigit(s[k])
  }

  function DaysIn(year: nat, month: nat): nat
    requires 1 <= month <= 12
  {
    if month == 2 then (if year % 4 == 0 && (year % 100 != 0 || year % 400 == 0) then 29 else 28)
    else if month in {4, 6, 9, 11} then 30
    else 31
  }

  /** `datetime.date.fromisoformat` accepts it. */
  predicate IsCalendarDate(s: string) {
    IsoShape(s) &&
    var year, month, day := D.Read(s[..4]), D.Read(s[5..7]), D.Read(s[8..]);
    year >= 1 && 1 <= month <= 12 && 1 <= day <= DaysIn(year, month)
  }

  // ---- The dates there are --------------------------------------------------------------------

  const MONTH_LENGTHS: seq<nat> := [31, 28, 31, 30, 31, 30, 31, 31, 30, 31, 30, 31]

  /** A century year is a leap year every fourth time, any other year every fourth year. */
  predicate Leap(year: nat) { if year % 100 == 0 then year % 400 == 0 else year % 4 == 0 }

  /** `n` in `width` digits, with leading zeros. */
  function Padded(n: nat, width: nat): (s: string)
    ensures |s| == width && AllIn(s, IsDigit)
  {
    if width == 0 then "" else Padded(n / 10, width - 1) + [D.DigitChar(n % 10)]
  }

  /** The text writes a day of the Gregorian calendar, in the years 1 to 9999. */
  predicate Writes(s: string, year: nat, month: nat, day: nat) {
    s == Padded(year, 4) + "-" + Padded(month, 2) + "-" + Padded(day, 2)
    && 1 <= year < 10000 && 1 <= month <= 12
    && 1 <= day <= MONTH_LENGTHS[month - 1] + (if month == 2 && Leap(year) then 1 else 0)
  }

  lemma {:induction false} PaddedRead(s: string)
    requires AllIn(s, IsDigit)
    ensures Padded(D.Read(s), |s|) == s
  {
    if s != [] {
      var n := |s| - 1;
      PaddedRead(s[..n]);
      D.DigitCharOf(s[n]);
      assert s == s[..n] + [s[n]];
    }
  }

  lemma ReadMore(s: string, c: char)
    requires AllIn(s, IsDigit) && IsDigit(c)
    ensures AllIn(s + [c], IsDigit) && D.Read(s + [c]) == 10 * D.Read(s) + D.DigitOf(c)
  {
    assert (s + [c])[..|s|] == s;
  }

  lemma Padded2(n: nat)
    requires n < 100
    ensures D.Read(Padded(n, 2)) == n
  {
    hide D.Read, D.DigitChar;
    ReadNothing();
    assert n / 10 < 10;
    ReadMore("", D.DigitChar(n / 10 % 10));
    assert Padded(n / 10, 1) == "" + [D.DigitChar(n / 10 % 10)];
    ReadMore(Padded(n / 10, 1), D.DigitChar(n % 10));
  }

  lemma ReadNothing()
    ensures D.Read("") == 0
  {
  }

  lemma Padded4(n: nat)
    requires n < 10000
    ensures D.Read(Padded(n, 4)) == n
  {
    hide D.Read, D.DigitChar;
    Padded2(n / 100);
    assert n / 10 / 10 == n / 100;
    assert Padded(n / 10, 3) == Padded(n / 100, 2) + [D.DigitChar(n / 10 % 10)];
    ReadMore(Padded(n / 100, 2), D.DigitChar(n / 10 % 10));
    ReadMore(Padded(n / 10, 3), D.DigitChar(n % 10));
  }

  lemma LeapForms(year: nat)
    ensures Leap(year) <==> year % 4 == 0 && (year % 100 != 0 || year % 400 == 0)
  {
    if year % 100 == 0 { assert year == 4 * (25 * (year / 100)); }
  }

  lemma MonthLength(month: nat)
    requires 1 <= month <= 12
    ensures MONTH_LENGTHS[month - 1] == if month == 2 then 28 else if month in {4, 6, 9, 11} then 30 else 31
  {
  }

  lemma DaysOfMonth(year: nat, month: nat)
    requires 1 <= month <= 12
    ensures DaysIn(year, month) == MONTH_LENGTHS[month - 1] + if month == 2 && Leap(year) then 1 else 0
  {
    hide Leap;
    LeapForms(year);
    MonthLength(month);
  }

  lemma DateParts(s: string)
    requires IsoShape(s)
    ensures |s| == 10 && AllIn(s[..4], IsDigit) && AllIn(s[5..7], IsDigit) && AllIn(s[8..], IsDigit)
    ensures s == s[..4] + "-" + s[5..7] + "-" + s[8..]
  {
    assert s[4..5] == "-" && s[7..8] == "-";
    assert s == s[..4] + s[4..5] + s[5..7] + s[7..8] + s[8..];
  }

  lemma PartsShape(a: string, b: string, c: string)
    requires |a| == 4 && |b| == |c| == 2 && AllIn(a, IsDigit) && AllIn(b, IsDigit) && AllIn(c, IsDigit)
    ensures var s := a + "-" + b + "-" + c; IsoShape(s) && s[..4] == a && s[5..7] == b && s[8..] == c
  {
  }

  /** A date is accepted exactly when it writes a day there is. */
  lemma CalendarDateIff(s: string)
    ensures IsCalendarDate(s) <==> exists year, month, day :: Writes(s, year, month, day)
  {
    hide Padded, D.Read, DaysIn, IsoShape, Leap;
    if IsCalendarDate(s) {
      DateParts(s);
      var year, month, day := D.Read(s[..4]), D.Read(s[5..7]), D.Read(s[8..]);
      PaddedRead(s[..4]);
      PaddedRead(s[5..7]);
      PaddedRead(s[8..]);
      DaysOfMonth(year, month);
      FourDigits(s[..4]);
      assert Writes(s, year, month, day);
    }
    if year, month, day :| Writes(s, year, month, day) {
      PartsShape(Padded(year, 4), Padded(month, 2), Padded(day, 2));
      Padded4(year);
      Padded2(month);
      Padded2(day);
      DaysOfMonth(year, month);
    }
  }

  lemma FourDigits(s: string)
    requires |s| == 4 && AllIn(s, IsDigit)
    ensures D.Read(s) < 10000
  {
    ReadBelow(s[..3]);
  }

  lemma {:induction false} ReadBelow(s: string)
    requires AllIn(s, IsDigit) && |s| <= 3
    ensures D.Read(s) < [1, 10, 100, 1000][|s|]
  {
    if s != [] { ReadBelow(s[..|s| - 1]); }
  }
}
