/** The line map that `scripts/check-citations.py` reads off hunk headers. */
module LineMap {
  import opened Ascii
  import opened Wrappers
  import D = Decimal

  // A `git diff -U0` is modelled as the edit script that turns the base file into the current one;
  // the hunks, and the text of the diff itself, are derived from it.

  /** One stretch of an edit script: lines both files carry, or lines one hunk replaces. */
  datatype Segment = Keep(lines: seq<string>) | Change(removed: seq<string>, added: seq<string>)

  type Script = seq<Segment>

  /** The base file. */
  function Old(script: Script): seq<string> {
    if script == [] then [] else OldPart(script[0]) + Old(script[1..])
  }

  /** The current file. */
  function New(script: Script): seq<string> {
    if script == [] then [] else NewPart(script[0]) + New(script[1..])
  }

  function OldPart(s: Segment): seq<string> { if s.Keep? then s.lines else s.removed }

  function NewPart(s: Segment): seq<string> { if s.Keep? then s.lines else s.added }

  /** What one `@@ -start,oldCount +..,newCount @@` header says. */
  datatype Hunk = Hunk(start: nat, oldCount: nat, newCount: nat)

  /**
   * The hunks of a script whose first segment follows `pos` old lines. A unified diff numbers a
   * hunk by its first old line, and a pure insertion by the old line it follows.
   */
  function Hunks(script: Script, pos: nat): seq<Hunk> {
    if script == [] then []
    else
      match script[0]
      case Keep(lines) => Hunks(script[1..], pos + |lines|)
      case Change(removed, added) =>
        [ChangeHunk(removed, added, pos)] + Hunks(script[1..], pos + |removed|)
  }

  function ChangeHunk(removed: seq<string>, added: seq<string>, pos: nat): Hunk {
    Hunk(if removed == [] then pos else pos + 1, |removed|, |added|)
  }

  /** The map's answer for line `n` when the hunks already passed shifted it by `off`. */
  function MapFrom(hunks: seq<Hunk>, n: int, off: int): Option<int> {
    if hunks == [] then Some(n + off)
    else
      var h := hunks[0];
      if h.oldCount == 0 then MapFrom(hunks[1..], n, if h.start < n then off + h.newCount else off)
      else if h.start + h.oldCount - 1 < n then MapFrom(hunks[1..], n, off + h.newCount - h.oldCount)
      else if h.start <= n then None
      else Some(n + off)
  }

  function Map(hunks: seq<Hunk>, n: int): Option<int> { MapFrom(hunks, n, 0) }

  /** The closure `m(n)` of `line_map_from_diff`: one walk over the hunks, carrying the offset. */
  method MapLine(hunks: seq<Hunk>, n: int) returns (r: Option<int>)
    ensures r == Map(hunks, n)
  {
    var off := 0;
    var i := 0;
    while i < |hunks|
      invariant 0 <= i <= |hunks|
      invariant MapFrom(hunks[i..], n, off) == Map(hunks, n)
    {
      var h := hunks[i];
      if h.oldCount == 0 {
        if h.start < n { off := off + h.newCount; }
      } else if h.start + h.oldCount - 1 < n {
        off := off + h.newCount - h.oldCount;
      } else if h.start <= n {
        return None;
      } else {
        break;
      }
      i := i + 1;
    }
    return Some(n + off);
  }

  /**
   * The alignment a script defines, independently of any hunk arithmetic: old line `n` and new
   * line `k` (both counted from 1) are the same position of the same kept stretch.
   */
  ghost predicate Aligned(script: Script, n: int, k: int) {
    script != [] &&
    (|| (script[0].Keep? && 1 <= n == k <= |script[0].lines|)
     || Aligned(script[1..], n - |OldPart(script[0])|, k - |NewPart(script[0])|))
  }

  /** New line `k` was written by a hunk. */
  ghost predicate Added(script: Script, k: int) {
    script != [] &&
    (|| (script[0].Change? && 1 <= k <= |script[0].added|)
     || Added(script[1..], k - |NewPart(script[0])|))
  }

  /** Old line `n` was replaced or deleted by a hunk. */
  ghost predicate Removed(script: Script, n: int) {
    script != [] &&
    (|| (script[0].Change? && 1 <= n <= |script[0].removed|)
     || Removed(script[1..], n - |OldPart(script[0])|))
  }

  /** Hunks that all start at or after old line `n` leave it where the offset put it. */
  lemma {:induction false} LaterHunksLeaveLine(script: Script, pos: nat, n: int, off: int)
    requires n <= pos
    ensures MapFrom(Hunks(script, pos), n, off) == Some(n + off)
  {
    if script != [] {
      LaterHunksLeaveLine(script[1..], pos + |OldPart(script[0])|, n, off);
    }
  }

  /** The walk with an arbitrary start: every answer is the alignment of the remaining script. */
  lemma {:induction false} MapFromRefines(script: Script, pos: nat, n: int, off: int)
    requires pos < n
    ensures n <= pos + |Old(script)| ==>
              match MapFrom(Hunks(script, pos), n, off)
              case Some(k) => Aligned(script, n - pos, k - pos - off) && !Removed(script, n - pos)
              case None => Removed(script, n - pos)
    ensures n > pos + |Old(script)| ==>
              MapFrom(Hunks(script, pos), n, off) == Some(n + off + |New(script)| - |Old(script)|)
  {
    if script != [] {
      var rest := script[1..];
      var p := pos + |OldPart(script[0])|;
      var o := off + |NewPart(script[0])| - |OldPart(script[0])|;
      if n <= p {
        LaterHunksLeaveLine(rest, p, n, off);
        NothingBefore(rest, n - p);
      } else {
        MapFromRefines(rest, p, n, o);
      }
    }
  }

  /** A script says nothing about lines before its first. */
  lemma {:induction false} NothingBefore(script: Script, n: int)
    requires n <= 0
    ensures !Removed(script, n) && !Added(script, n)
  {
    if script != [] {
      NothingBefore(script[1..], n - |OldPart(script[0])|);
      NothingBefore(script[1..], n - |NewPart(script[0])|);
    }
  }

  lemma SplitFirst(script: Script)
    requires script != []
    ensures Old(script) == OldPart(script[0]) + Old(script[1..]) && New(script) == NewPart(script[0]) + New(script[1..])
  {
  }

  /** Aligned lines are lines of both files and carry the same text. */
  lemma {:induction false} AlignedSameText(script: Script, n: int, k: int)
    requires Aligned(script, n, k)
    ensures 1 <= n <= |Old(script)| && 1 <= k <= |New(script)|
    ensures Old(script)[n - 1] == New(script)[k - 1]
  {
    var rest, o, w := script[1..], |OldPart(script[0])|, |NewPart(script[0])|;
    hide Old, New;
    SplitFirst(script);
    if !(script[0].Keep? && 1 <= n == k <= |script[0].lines|) {
      AlignedSameText(rest, n - o, k - w);
      assert (OldPart(script[0]) + Old(rest))[n - 1] == Old(rest)[n - o - 1];
      assert (NewPart(script[0]) + New(rest))[k - 1] == New(rest)[k - w - 1];
    }
  }

  /** The alignment is a strictly increasing partial function. */
  lemma {:induction false} AlignedIncreasing(script: Script, n: int, k: int, n': int, k': int)
    requires Aligned(script, n, k) && Aligned(script, n', k')
    ensures n < n' <==> k < k'
    ensures n == n' <==> k == k'
  {
    var rest, o, w := script[1..], |OldPart(script[0])|, |NewPart(script[0])|;
    if Aligned(rest, n - o, k - w) { AlignedSameText(rest, n - o, k - w); }
    if Aligned(rest, n' - o, k' - w) { AlignedSameText(rest, n' - o, k' - w); }
    if Aligned(rest, n - o, k - w) && Aligned(rest, n' - o, k' - w) {
      AlignedIncreasing(rest, n - o, k - w, n' - o, k' - w);
    }
  }

  /** Every line of the current file is aligned with an old line or was added. */
  lemma {:induction false} KeptOrAdded(script: Script, k: int) returns (n: int)
    requires 1 <= k <= |New(script)|
    ensures Added(script, k) || Aligned(script, n, k)
  {
    var w, o := |NewPart(script[0])|, |OldPart(script[0])|;
    if k <= w {
      n := k;
    } else {
      var j := KeptOrAdded(script[1..], k - w);
      n := j + o;
    }
  }

  /** Never both. */
  lemma {:induction false} AlignedNotAdded(script: Script, n: int, k: int)
    requires Aligned(script, n, k)
    ensures !Added(script, k)
  {
    var rest, o, w := script[1..], |OldPart(script[0])|, |NewPart(script[0])|;
    if Aligned(rest, n - o, k - w) {
      AlignedSameText(rest, n - o, k - w);
      AlignedNotAdded(rest, n - o, k - w);
    } else {
      NothingBefore(rest, k - w);
    }
  }

  /** Every line of the base file is aligned with a new line or was removed. */
  lemma {:induction false} KeptOrRemoved(script: Script, n: int) returns (k: int)
    requires 1 <= n <= |Old(script)|
    ensures Removed(script, n) || Aligned(script, n, k)
  {
    var o, w := |OldPart(script[0])|, |NewPart(script[0])|;
    if n <= o {
      k := n;
    } else {
      var j := KeptOrRemoved(script[1..], n - o);
      k := j + w;
    }
  }

  /**
   * The map refines the diff: for a line of the base file it answers with the line the script
   * aligns it with, and answers nothing exactly when the script removed the line.
   */
  lemma MapRefinesDiff(script: Script, n: int)
    requires 1 <= n <= |Old(script)|
    ensures Map(Hunks(script, 0), n).None? <==> Removed(script, n)
    ensures forall k: int :: Map(Hunks(script, 0), n) == Some(k) <==> Aligned(script, n, k)
  {
    MapFromRefines(script, 0, n, 0);
    var r := Map(Hunks(script, 0), n);
    forall k ensures r == Some(k) <==> Aligned(script, n, k) {
      if Aligned(script, n, k) {
        AlignedNotRemoved(script, n, k);
        AlignedIncreasing(script, n, k, n, r.value);
      }
    }
  }

  lemma {:induction false} AlignedNotRemoved(script: Script, n: int, k: int)
    requires Aligned(script, n, k)
    ensures !Removed(script, n)
  {
    var rest, o, w := script[1..], |OldPart(script[0])|, |NewPart(script[0])|;
    if Aligned(rest, n - o, k - w) {
      AlignedSameText(rest, n - o, k - w);
      AlignedNotRemoved(rest, n - o, k - w);
    } else {
      NothingBefore(rest, n - o);
    }
  }

  /** A mapped line carries the base line's text. */
  lemma MappedSameText(script: Script, n: int, k: int)
    requires 1 <= n <= |Old(script)|
    requires Map(Hunks(script, 0), n) == Some(k)
    ensures 1 <= k <= |New(script)| && New(script)[k - 1] == Old(script)[n - 1]
  {
    MapRefinesDiff(script, n);
    AlignedSameText(script, n, k);
  }

  /** The map is strictly increasing where it is defined. */
  lemma MapStrictlyIncreasing(script: Script, n: int, n': int)
    requires 1 <= n < n' <= |Old(script)|
    requires Map(Hunks(script, 0), n).Some? && Map(Hunks(script, 0), n').Some?
    ensures Map(Hunks(script, 0), n).value < Map(Hunks(script, 0), n').value
  {
    var k, k' := Map(Hunks(script, 0), n).value, Map(Hunks(script, 0), n').value;
    MapRefinesDiff(script, n);
    MapRefinesDiff(script, n');
    AlignedIncreasing(script, n, k, n', k');
  }

  /** The lines of the current file the map reaches are exactly those no hunk added. */
  lemma MapImage(script: Script, k: int)
    requires 1 <= k <= |New(script)|
    ensures Added(script, k) <==>
            !exists n :: 1 <= n <= |Old(script)| && Map(Hunks(script, 0), n) == Some(k)
  {
    var n := KeptOrAdded(script, k);
    if Aligned(script, n, k) {
      AlignedSameText(script, n, k);
      MapRefinesDiff(script, n);
    }
    forall j | 1 <= j <= |Old(script)| && Map(Hunks(script, 0), j) == Some(k)
      ensures !Added(script, k)
    {
      MapRefinesDiff(script, j);
      AlignedNotAdded(script, j, k);
    }
  }

  /**
   * Line numbers no file has: line 0 stays 0, and a line past the end of the base file maps past
   * the end of the current one.
   */
  lemma MapOutOfRange(script: Script, n: nat)
    requires n == 0 || n > |Old(script)|
    ensures Map(Hunks(script, 0), n) == Some(if n == 0 then 0 else n + |New(script)| - |Old(script)|)
  {
    if n == 0 {
      LaterHunksLeaveLine(script, 0, 0, 0);
    } else {
      MapFromRefines(script, 0, n, 0);
    }
  }

  // ---- The diff as text ---------------------------------------------------------------------

  /** `N` or `N,C`: git leaves a count of one out. */
  function ShowRange(start: nat, count: nat): string {
    D.Show(start) + (if count == 1 then "" else "," + D.Show(count))
  }

  /** One hunk header; `context` is the function name git may append. */
  function ShowHeader(h: Hunk, newStart: nat, context: string): string {
    "@@ -" + ShowRange(h.start, h.oldCount) + " +" + ShowRange(newStart, h.newCount) + " @@" + context
  }

  function Prefixed(mark: char, lines: seq<string>): seq<string> {
    if lines == [] then [] else [[mark] + lines[0]] + Prefixed(mark, lines[1..])
  }

  /**
   * The lines of the hunks `git diff -U0` prints for a script. `context` gives the text appended
   * to the header of the hunk at each old position.
   */
  function ShowHunks(script: Script, pos: nat, newPos: nat, context: nat -> string): seq<string> {
    if script == [] then []
    else
      match script[0]
      case Keep(lines) => ShowHunks(script[1..], pos + |lines|, newPos + |lines|, context)
      case Change(removed, added) =>
        ShowChange(removed, added, pos, newPos, context(pos))
        + ShowHunks(script[1..], pos + |removed|, newPos + |added|, context)
  }

  /** One hunk: its header, the lines it removes and the lines it adds. */
  function ShowChange(removed: seq<string>, added: seq<string>, pos: nat, newPos: nat, context: string): seq<string> {
    [ShowHeader(ChangeHunk(removed, added, pos), if added == [] then newPos else newPos + 1, context)]
    + Prefixed('-', removed) + Prefixed('+', added)
  }

  /** Reads `\d+` at the front: the value and what follows. */
  function ReadNumber(s: string): Option<(nat, string)> {
    var n := RunLength(s, IsDigit);
    if n == 0 then None else Some((D.Read(s[..n]), s[n..]))
  }

  /** Reads `(\d+)(?:,(\d+))?`; a missing count is 1. */
  function ReadRange(s: string): Option<(nat, nat, string)> {
    match ReadNumber(s)
    case None => None
    case Some((start, rest)) =>
      if rest != [] && rest[0] == ',' && ReadNumber(rest[1..]).Some? then
        var (count, rest') := ReadNumber(rest[1..]).value;
        Some((start, count, rest'))
      else Some((start, 1, rest))
  }

  /** The header pattern `^@@ -(\d+)(?:,(\d+))? \+(\d+)(?:,(\d+))? @@`, applied to one line. */
  function ReadHeader(line: string): Option<Hunk> {
    if !("@@ -" <= line) then None
    else
      match ReadRange(line[4..])
      case None => None
      case Some((start, oldCount, rest)) =>
        if !(" +" <= rest) then None
        else
          match ReadRange(rest[2..])
          case None => None
          case Some((_, newCount, tail)) =>
            if " @@" <= tail then Some(Hunk(start, oldCount, newCount)) else None
  }

  /** `re.finditer` over the diff, line by line. */
  function ReadHunks(diff: seq<string>): seq<Hunk> {
    if diff == [] then []
    else (match ReadHeader(diff[0]) case Some(h) => [h] case None => []) + ReadHunks(diff[1..])
  }

  lemma ReadShownNumber(n: nat, rest: string)
    requires rest == [] || !IsDigit(rest[0])
    ensures ReadNumber(D.Show(n) + rest) == Some((n, rest))
  {
    var s := D.Show(n) + rest;
    RunLengthUnique(s, IsDigit, |D.Show(n)|);
    assert s[..|D.Show(n)|] == D.Show(n) && s[|D.Show(n)|..] == rest;
    D.ReadShow(n);
  }

  lemma ReadShownRange(start: nat, count: nat, rest: string)
    requires rest != [] && !IsDigit(rest[0]) && rest[0] != ','
    ensures ReadRange(ShowRange(start, count) + rest) == Some((start, count, rest))
  {
    if count == 1 {
      assert ShowRange(start, count) + rest == D.Show(start) + rest;
      ReadShownNumber(start, rest);
    } else {
      var tail := "," + (D.Show(count) + rest);
      assert ShowRange(start, count) + rest == D.Show(start) + tail;
      ReadShownNumber(start, tail);
      ReadShownNumber(count, rest);
      assert tail[1..] == D.Show(count) + rest;
    }
  }

  /** Reading a printed header gives the hunk back, whatever context git appended. */
  lemma ReadShownHeader(h: Hunk, newStart: nat, context: string)
    ensures ReadHeader(ShowHeader(h, newStart, context)) == Some(h)
  {
    hide ReadRange, ShowRange;
    var tail := " @@" + context;
    var rest := " +" + (ShowRange(newStart, h.newCount) + tail);
    var line := ShowHeader(h, newStart, context);
    assert line == "@@ -" + (ShowRange(h.start, h.oldCount) + rest);
    assert line[4..] == ShowRange(h.start, h.oldCount) + rest;
    ReadShownRange(h.start, h.oldCount, rest);
    assert rest[2..] == ShowRange(newStart, h.newCount) + tail;
    ReadShownRange(newStart, h.newCount, tail);
  }

  /** Reading a diff is reading its first line and then the others. */
  lemma ReadHunksCons(line: string, rest: seq<string>)
    ensures ReadHunks([line] + rest) ==
            (match ReadHeader(line) case Some(h) => [h] case None => []) + ReadHunks(rest)
  {
    assert ([line] + rest)[1..] == rest;
  }

  /** A body line of a hunk starts with its mark, so it is never read as a header. */
  lemma BodyIsNoHeader(mark: char, line: string)
    requires mark != '@'
    ensures ReadHeader([mark] + line) == None
  {
    assert "@@ -"[0] == '@' && ([mark] + line)[0] == mark;
  }

  lemma {:induction false} ReadPrefixed(mark: char, lines: seq<string>, rest: seq<string>)
    requires mark != '@'
    ensures ReadHunks(Prefixed(mark, lines) + rest) == ReadHunks(rest)
  {
    if lines == [] {
      assert Prefixed(mark, lines) + rest == rest;
    } else {
      var first := [mark] + lines[0];
      var others := Prefixed(mark, lines[1..]) + rest;
      calc {
        ReadHunks(Prefixed(mark, lines) + rest);
        { assert Prefixed(mark, lines) + rest == [first] + others; }
        ReadHunks([first] + others);
        { ReadHunksCons(first, others); BodyIsNoHeader(mark, lines[0]); }
        ReadHunks(others);
        { ReadPrefixed(mark, lines[1..], rest); }
        ReadHunks(rest);
      }
    }
  }

  lemma ReadShownChange(removed: seq<string>, added: seq<string>, pos: nat, newPos: nat, context: string,
                        rest: seq<string>)
    ensures ReadHunks(ShowChange(removed, added, pos, newPos, context) + rest) ==
            [ChangeHunk(removed, added, pos)] + ReadHunks(rest)
  {
    hide ReadHunks, ReadHeader, ShowHeader;
    var start := if added == [] then newPos else newPos + 1;
    var header := ShowHeader(ChangeHunk(removed, added, pos), start, context);
    var body := Prefixed('-', removed) + (Prefixed('+', added) + rest);
    assert ShowChange(removed, added, pos, newPos, context) + rest == [header] + body;
    ReadHunksCons(header, body);
    ReadShownHeader(ChangeHunk(removed, added, pos), start, context);
    ReadPrefixed('-', removed, Prefixed('+', added) + rest);
    ReadPrefixed('+', added, rest);
  }

  lemma ReadNothing()
    ensures ReadHunks([]) == []
  {
  }

  /** The hunks read back from the printed diff are the hunks of the script. */
  lemma {:induction false} ReadShownHunks(script: Script, pos: nat, newPos: nat, context: nat -> string)
    ensures ReadHunks(ShowHunks(script, pos, newPos, context)) == Hunks(script, pos)
  {
    hide ReadHunks, ReadHeader, ShowChange;
    if script == [] {
      ReadNothing();
    } else {
      match script[0]
      case Keep(lines) => ReadShownHunks(script[1..], pos + |lines|, newPos + |lines|, context);
      case Change(removed, added) =>
        var rest := ShowHunks(script[1..], pos + |removed|, newPos + |added|, context);
        ReadShownChange(removed, added, pos, newPos, context(pos), rest);
        ReadShownHunks(script[1..], pos + |removed|, newPos + |added|, context);
    }
  }

  /**
   * The same for a whole diff: the lines git prints before the hunks, among which none starts like a
   * hunk header, are passed over.
   */
  lemma {:induction false} ReadShownDiff(header: seq<string>, script: Script, context: nat -> string)
    requires forall k | 0 <= k < |header| :: !("@@ -" <= header[k])
    ensures ReadHunks(header + ShowHunks(script, 0, 0, context)) == Hunks(script, 0)
  {
    hide ReadHunks, ShowHunks, Hunks;
    var shown := ShowHunks(script, 0, 0, context);
    if header == [] {
      assert header + shown == shown;
      ReadShownHunks(script, 0, 0, context);
    } else {
      var rest := header[1..] + shown;
      assert header + shown == [header[0]] + rest;
      ReadShownDiff(header[1..], script, context);
      ReadHunksCons(header[0], rest);
    }
  }
}
