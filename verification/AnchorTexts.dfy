/** Anchor lists as documents write them, whatever stands between the anchors. */
module AnchorTexts {
  import opened Ascii
  import opened Wrappers
  import D = Decimal
  import opened Citations

  /** What stands before an anchor, its first number, and its second. */
  datatype Written = Written(gap: string, first: string, second: Option<string>)

  predicate Number(s: string) { s != "" && AllIn(s, IsDigit) }

  predicate Gap(s: string) { forall k | 0 <= k < |s| :: !IsDigit(s[k]) }

  function Text(w: Written): string { w.first + (if w.second.Some? then "-" + w.second.value else "") }

  function ListText(ws: seq<Written>, after: string): string {
    if ws == [] then after else ws[0].gap + (Text(ws[0]) + ListText(ws[1..], after))
  }

  /** Two anchors are parted, and by more than a dash where the first is a single line. */
  predicate FitsAt(ws: seq<Written>, k: nat)
    requires k < |ws|
  {
    Gap(ws[k].gap) && Number(ws[k].first) && (ws[k].second.Some? ==> Number(ws[k].second.value))
    && (k > 0 ==> ws[k].gap != "" && (ws[k - 1].second.None? ==> ws[k].gap != "-"))
  }

  predicate Fits(ws: seq<Written>) { forall k | 0 <= k < |ws| :: FitsAt(ws, k) }

  function Value(w: Written): Anchor
    requires Number(w.first) && (w.second.Some? ==> Number(w.second.value))
  {
    Anchor(D.Read(w.first), if w.second.Some? then Some(D.Read(w.second.value)) else None)
  }

  function Values(ws: seq<Written>): seq<Anchor>
    requires Fits(ws)
  {
    if ws == [] then []
    else
      assert FitsAt(ws, 0);
      FitsRest(ws);
      [Value(ws[0])] + Values(ws[1..])
  }

  lemma {:induction false} GapSkipped(gap: string, rest: string)
    requires Gap(gap)
    ensures ReadAnchors(gap + rest) == ReadAnchors(rest)
  {
    hide ReadAnchor;
    if gap == "" {
      assert gap + rest == rest;
    } else {
      assert (gap + rest)[1..] == gap[1..] + rest;
      GapSkipped(gap[1..], rest);
    }
  }

  /** A number at the front is the run of digits there. */
  lemma NumberFront(number: string, rest: string)
    requires Number(number) && (rest == "" || !IsDigit(rest[0]))
    ensures var s := number + rest;
            s != "" && IsDigit(s[0]) && RunLength(s, IsDigit) == |number| && s[..|number|] == number
            && s[|number|..] == rest
  {
    RunLengthUnique(number + rest, IsDigit, |number|);
  }

  lemma LineFront(first: string, rest: string)
    requires Number(first) && (rest == "" || !IsDigit(rest[0]))
    requires !(|rest| > 1 && rest[0] == '-' && IsDigit(rest[1]))
    ensures var s := first + rest;
            s != "" && IsDigit(s[0]) && ReadAnchor(s) == (Anchor(D.Read(first), None), |first|)
  {
    hide RunLength, D.Read;
    NumberFront(first, rest);
  }

  lemma RangeIs(s: string, n: nat, tail: string, m: nat)
    requires s != "" && IsDigit(s[0]) && RunLength(s, IsDigit) == n && |tail| > 1 && s[n..] == tail
    requires tail[0] == '-' && IsDigit(tail[1]) && RunLength(tail[1..], IsDigit) == m
    ensures ReadAnchor(s) == (Anchor(D.Read(s[..n]), Some(D.Read(tail[1..][..m]))), n + 1 + m)
  {
    hide D.Read;
  }

  lemma RangeFront(first: string, second: string, rest: string)
    requires Number(first) && Number(second) && (rest == "" || !IsDigit(rest[0]))
    ensures var s := first + ("-" + (second + rest));
            s != "" && IsDigit(s[0])
            && ReadAnchor(s) == (Anchor(D.Read(first), Some(D.Read(second))), |first| + 1 + |second|)
  {
    hide *;
    var end := second + rest;
    var tail := "-" + end;
    DashIsNoDigit();
    NumberFront(first, tail);
    NumberFront(second, rest);
    var s := first + tail;
    assert tail[1..] == end && tail[1] == end[0] && |tail| > 1;
    RangeIs(s, |first|, tail, |second|);
  }

  lemma DashIsNoDigit()
    ensures !IsDigit('-')
  {
  }

  lemma AnchorFront(w: Written, rest: string)
    requires Number(w.first) && (w.second.Some? ==> Number(w.second.value))
    requires rest == "" || !IsDigit(rest[0])
    requires w.second.None? ==> !(|rest| > 1 && rest[0] == '-' && IsDigit(rest[1]))
    ensures var s := Text(w) + rest; s != "" && IsDigit(s[0]) && ReadAnchor(s) == (Value(w), |Text(w)|)
  {
    hide D.Read, ReadAnchor, Number;
    if w.second.Some? {
      assert Text(w) + rest == w.first + ("-" + (w.second.value + rest));
      RangeFront(w.first, w.second.value, rest);
    } else {
      assert Text(w) == w.first;
      LineFront(w.first, rest);
    }
  }

  lemma AnchorRead(w: Written, rest: string)
    requires Number(w.first) && (w.second.Some? ==> Number(w.second.value))
    requires rest == "" || !IsDigit(rest[0])
    requires w.second.None? ==> !(|rest| > 1 && rest[0] == '-' && IsDigit(rest[1]))
    ensures ReadAnchors(Text(w) + rest) == [Value(w)] + ReadAnchors(rest)
  {
    hide ReadAnchor, Text, Value, Number;
    AnchorFront(w, rest);
    assert (Text(w) + rest)[|Text(w)|..] == rest;
  }

  /**
   * Whatever the anchors of a list are parted by, as long as it holds no digit, each is read: its first number,
   * and its second where a dash and nothing else joins them.
   */
  lemma {:induction false} AnchorsRead(ws: seq<Written>, after: string)
    requires Fits(ws) && Gap(after)
    ensures ReadAnchors(ListText(ws, after)) == Values(ws)
  {
    hide ReadAnchors, Text, Value, Number, Gap;
    if ws == [] {
      NothingRead(after);
    } else {
      var rest := ListText(ws[1..], after);
      assert FitsAt(ws, 0);
      GapSkipped(ws[0].gap, Text(ws[0]) + rest);
      GapNext(ws, after);
      AnchorRead(ws[0], rest);
      FitsRest(ws);
      AnchorsRead(ws[1..], after);
    }
  }

  lemma FitsRest(ws: seq<Written>)
    requires ws != [] && Fits(ws)
    ensures Fits(ws[1..])
  {
    hide Gap, Number;
    forall k | 0 <= k < |ws| - 1 ensures FitsAt(ws[1..], k) { assert FitsAt(ws, k + 1); }
  }

  lemma NothingRead(after: string)
    requires Gap(after)
    ensures ReadAnchors(after) == []
  {
    GapSkipped(after, "");
    assert after + "" == after;
  }

  lemma GapAhead(gap: string, rest: string)
    requires Gap(gap) && gap != ""
    ensures !IsDigit((gap + rest)[0])
    ensures gap != "-" ==> !(|gap + rest| > 1 && (gap + rest)[0] == '-' && IsDigit((gap + rest)[1]))
  {
    if |gap| == 1 { assert gap == [gap[0]]; } else { assert (gap + rest)[1] == gap[1]; }
  }

  /** What follows an anchor begins neither with a digit nor with a dash and a digit. */
  lemma GapNext(ws: seq<Written>, after: string)
    requires ws != [] && Fits(ws) && Gap(after)
    ensures var rest := ListText(ws[1..], after);
            (rest == "" || !IsDigit(rest[0]))
            && (ws[0].second.None? ==> !(|rest| > 1 && rest[0] == '-' && IsDigit(rest[1])))
  {
    if |ws| > 1 {
      assert ws[1..][0] == ws[1] && FitsAt(ws, 1);
      GapAhead(ws[1].gap, Text(ws[1]) + ListText(ws[1..][1..], after));
    }
  }
}
