/**
 * Natural numbers as the scripts print them (`str`, f-strings) and read them back (`\d+` and `int`).
 * A number is printed without a sign and without leading zeros and is read back as itself; a run of
 * digits without a leading zero is exactly what printing its value gives.
 */
module Decimal {
  import opened Ascii

  function DigitChar(d: nat): (c: char)
    requires d < 10
    ensures IsDigit(c) && DigitOf(c) == d
  {
    '0' + d as char
  }

  function DigitOf(c: char): (d: nat)
    requires IsDigit(c)
    ensures d < 10
  {
    (c - '0') as nat
  }

  /** `str(n)` */
  function Show(n: nat): (s: string)
    ensures s != [] && AllIn(s, IsDigit)
    ensures s[0] == '0' ==> |s| == 1
    ensures s == "0" <==> n == 0
  {
    if n < 10 then [DigitChar(n)] else Show(n / 10) + [DigitChar(n % 10)]
  }

  /** `str(n)` of any integer. */
  function ShowInt(n: int): string { if n < 0 then "-" + Show(-n) else Show(n) }

  /** `int(s)` for a run of digits. */
  function Read(s: string): nat
    requires AllIn(s, IsDigit)
  {
    if s == [] then 0 else 10 * Read(s[..|s| - 1]) + DigitOf(s[|s| - 1])
  }

  lemma {:induction false} ReadShow(n: nat)
    ensures Read(Show(n)) == n
  {
    if n >= 10 {
      var s := Show(n);
      assert s[..|s| - 1] == Show(n / 10);
      ReadShow(n / 10);
    } else {
      assert Show(n)[..0] == [];
    }
  }

  /** A numeral without a leading zero is exactly what printing its value gives. */
  lemma {:induction false} ShowRead(s: string)
    requires s != [] && AllIn(s, IsDigit)
    requires s[0] == '0' ==> |s| == 1
    ensures Show(Read(s)) == s
  {
    var front := s[..|s| - 1];
    if front == [] {
      assert s == [s[0]];
      assert Read(s) == DigitOf(s[0]);
    } else {
      ShowRead(front);
      assert Read(front) > 0;
      assert s == front + [s[|s| - 1]];
      DigitCharOf(s[|s| - 1]);
    }
  }

  lemma DigitCharOf(c: char)
    requires IsDigit(c)
    ensures DigitChar(DigitOf(c)) == c
  {
  }

  /** A digit counts for its distance from `0` in the character table. */
  lemma ReadDigit(c: char)
    requires 48 <= c as int <= 57
    ensures AllIn([c], IsDigit) && Read([c]) == c as int - 48
  {
    assert [c][..0] == [];
  }

  /** Every digit put behind a number takes what came before ten times. */
  lemma ReadNext(s: string, c: char)
    requires AllIn(s, IsDigit) && 48 <= c as int <= 57
    ensures AllIn(s + [c], IsDigit) && Read(s + [c]) == 10 * Read(s) + (c as int - 48)
  {
    assert (s + [c])[..|s|] == s;
  }
}
