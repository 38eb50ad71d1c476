/**
 * Character classes and small string helpers shared by every component, restricted to ASCII: the
 * tests and the stripping of Python's `str`, splitting a text into lines and joining them again, and
 * runs of characters of one class. Nothing here knows of documents, diffs or changelogs.
 */
module Ascii {

  predicate IsDigit(c: char) { '0' <= c <= '9' }

  predicate IsAlpha(c: char) { 'a' <= c <= 'z' || 'A' <= c <= 'Z' }

  predicate IsAlnum(c: char) { IsDigit(c) || IsAlpha(c) }

  /** `\w` */
  predicate IsWord(c: char) { IsAlnum(c) || c == '_' }

  /** The ASCII part of `str.isspace`. */
  predicate IsSpace(c: char) {
    c == ' ' || '\t' <= c <= '\r' || '\U{1C}' <= c <= '\U{1F}'
  }

  /** The two characters a Markdown block rule treats as indentation. */
  predicate IsBlank(c: char) { c == ' ' || c == '\t' }

  /** `c.lower()` */
  function Lower(c: char): char { if 'A' <= c <= 'Z' then 'a' + (c - 'A') else c }

  /** Length of the longest prefix of `s` whose characters all satisfy `p`. */
  function RunLength(s: string, p: char -> bool): (n: nat)
    ensures n <= |s|
    ensures forall k | 0 <= k < n :: p(s[k])
    ensures n < |s| ==> !p(s[n])
  {
    if s == [] || !p(s[0]) then 0 else 1 + RunLength(s[1..], p)
  }

  /** Only one prefix length stops where the class stops. */
  lemma RunLengthUnique(s: string, p: char -> bool, n: nat)
    requires n <= |s|
    requires forall k | 0 <= k < n :: p(s[k])
    requires n < |s| ==> !p(s[n])
    ensures RunLength(s, p) == n
  {
  }

  /** `" " * n` */
  function Spaces(n: nat): (s: string)
    ensures |s| == n && forall k | 0 <= k < n :: s[k] == ' '
  {
    seq(n, _ => ' ')
  }

  function LeadingSpaces(s: string): nat { RunLength(s, c => c == ' ') }

  /** `s.lstrip(" \t")` */
  function DropBlanks(s: string): string { s[RunLength(s, IsBlank)..] }

  /** `s.lstrip()` */
  function LStrip(s: string): string { s[RunLength(s, IsSpace)..] }

  /** `s.rstrip()` */
  function RStrip(s: string): (r: string)
    ensures r <= s
    ensures r != [] ==> !IsSpace(r[|r| - 1])
  {
    if s == [] || !IsSpace(s[|s| - 1]) then s else RStrip(s[..|s| - 1])
  }

  /** `s.strip()` */
  function Trim(s: string): string { RStrip(LStrip(s)) }

  predicate AllIn(s: string, p: char -> bool) { forall k | 0 <= k < |s| :: p(s[k]) }

  /** `not s.strip()` */
  predicate BlankLine(s: string) { AllIn(s, IsSpace) }

  /** `part` occurs in `s` at offset `at`. */
  predicate OccursAt(part: string, s: string, at: int) {
    0 <= at <= |s| - |part| && s[at..at + |part|] == part
  }

  /** `part in s` */
  predicate Contains(part: string, s: string) {
    exists at | 0 <= at <= |s| :: OccursAt(part, s, at)
  }

  /** The number of newlines in `s`. */
  function Newlines(s: string): nat {
    if s == [] then 0 else (if s[0] == '\n' then 1 else 0) + Newlines(s[1..])
  }

  lemma {:induction false} NewlinesConcat(s: string, t: string)
    ensures Newlines(s + t) == Newlines(s) + Newlines(t)
  {
    if s == [] {
      assert s + t == t;
    } else {
      assert (s + t)[1..] == s[1..] + t;
      NewlinesConcat(s[1..], t);
    }
  }

  /** A string without the character has no newline to count. */
  lemma {:induction false} NewlinesNone(s: string)
    ensures Newlines(s) == 0 <==> '\n' !in s
  {
    if s != [] {
      NewlinesNone(s[1..]);
      assert s == [s[0]] + s[1..];
    }
  }

  /** `s.split("\n")` */
  function Lines(s: string): (r: seq<string>)
    ensures |r| == Newlines(s) + 1
  {
    if s == [] then [[]]
    else
      var rest := Lines(s[1..]);
      if s[0] == '\n' then [[]] + rest else [[s[0]] + rest[0]] + rest[1..]
  }

  /** A text without newlines is one line. */
  lemma {:induction false} LinesOne(line: string)
    requires '\n' !in line
    ensures Lines(line) == [line]
  {
    if line != [] {
      assert line == [line[0]] + line[1..];
      LinesOne(line[1..]);
    }
  }

  /** `"\n".join(lines)` */
  function Join(lines: seq<string>): string {
    if lines == [] then ""
    else if |lines| == 1 then lines[0]
    else lines[0] + "\n" + Join(lines[1..])
  }
}
