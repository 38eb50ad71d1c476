/** Code spans over lines: a span may cross the lines of its paragraph, and nothing else. */
module SpanLines {
  import opened Ascii
  import opened CodeSpans

  /** A line of no paragraph, fenced or blank; or the lines of one paragraph. */
  datatype Block = Bar(line: string, fenced: bool) | Para(lines: seq<string>)

  /** Some character of the line is no whitespace. */
  predicate Inked(line: string) { exists k :: 0 <= k < |line| && !IsSpace(line[k]) }

  /** Every line of a paragraph is inked, and after one stands a line of neither. */
  predicate Placed(b: Block, last: bool, next: Block) {
    match b
    case Bar(line, fenced) => fenced || !Inked(line)
    case Para(lines) => lines != [] && (forall l | 0 <= l < |lines| :: Inked(lines[l])) && (last || next.Bar?)
  }

  /** Between two paragraphs stands a line of neither. */
  predicate Parted(bs: seq<Block>) {
    bs == [] || (Parted(bs[1..]) && Placed(bs[0], |bs| == 1, if |bs| > 1 then bs[1] else bs[0]))
  }

  function LinesOf(bs: seq<Block>): seq<string> {
    if bs == [] then [] else (if bs[0].Bar? then [bs[0].line] else bs[0].lines) + LinesOf(bs[1..])
  }

  function FencedOf(bs: seq<Block>): (r: seq<bool>)
    ensures |r| == |LinesOf(bs)|
  {
    if bs == [] then []
    else (if bs[0].Bar? then [bs[0].fenced] else seq(|bs[0].lines|, _ => false)) + FencedOf(bs[1..])
  }

  /** Each paragraph blanked as one text. */
  function BlankedBlocks(bs: seq<Block>): seq<string> {
    if bs == [] then []
    else (if bs[0].Bar? then [bs[0].line] else Lines(Blank(Join(bs[0].lines)))) + BlankedBlocks(bs[1..])
  }

  lemma BreaksIff(lines: seq<string>, fenced: seq<bool>, i: nat)
    requires |fenced| == |lines| && i < |lines|
    ensures Breaks(lines, fenced, i) <==> (fenced[i] || !Inked(lines[i]))
  {
  }

  lemma {:induction false} ParagraphEndIs(lines: seq<string>, fenced: seq<bool>, i: nat, e: nat)
    requires |fenced| == |lines| && i <= e <= |lines|
    requires forall k | i <= k < e :: !Breaks(lines, fenced, k)
    requires e < |lines| ==> Breaks(lines, fenced, e)
    ensures ParagraphEnd(lines, fenced, i) == e
    decreases e - i
  {
    hide Breaks;
    if i < e { ParagraphEndIs(lines, fenced, i + 1, e); }
  }

  /** The rest of a document, told from its blocks. */
  ghost predicate Rest(lines: seq<string>, fenced: seq<bool>, i: nat, bs: seq<Block>) {
    |fenced| == |lines| && i <= |lines| && lines[i..] == LinesOf(bs) && fenced[i..] == FencedOf(bs)
  }

  lemma BarNext(lines: seq<string>, fenced: seq<bool>, i: nat, bs: seq<Block>)
    requires bs != [] && bs[0].Bar? && Rest(lines, fenced, i, bs)
    ensures i < |lines| && lines[i] == bs[0].line && fenced[i] == bs[0].fenced && Rest(lines, fenced, i + 1, bs[1..])
  {
    assert lines[i] == lines[i..][0] && fenced[i] == fenced[i..][0];
    assert lines[i + 1..] == lines[i..][1..] && fenced[i + 1..] == fenced[i..][1..];
  }

  lemma ParaNext(lines: seq<string>, fenced: seq<bool>, i: nat, bs: seq<Block>)
    requires bs != [] && bs[0].Para? && Rest(lines, fenced, i, bs)
    ensures var e := i + |bs[0].lines|;
            e <= |lines| && lines[i..e] == bs[0].lines && (forall k | i <= k < e :: !fenced[k])
            && (forall k | i <= k < e :: lines[k] == bs[0].lines[k - i]) && Rest(lines, fenced, e, bs[1..])
  {
    var n := |bs[0].lines|;
    var e := i + n;
    assert lines[i..][..n] == bs[0].lines;
    assert lines[i..e] == lines[i..][..n];
    assert forall k | i <= k < e :: lines[k] == lines[i..][k - i] && fenced[k] == fenced[i..][k - i];
    assert lines[e..] == lines[i..][n..] && fenced[e..] == fenced[i..][n..];
  }

  lemma {:induction false} BlocksRead(lines: seq<string>, fenced: seq<bool>, i: nat, bs: seq<Block>)
    requires Rest(lines, fenced, i, bs) && Parted(bs)
    ensures BlankedFrom(lines, fenced, i) == BlankedBlocks(bs)
    decreases |bs|
  {
    hide Breaks, Inked, Blank, Join, Lines, ParagraphEnd, Rest;
    if bs == [] {
      NothingLeft(lines, fenced, i);
    } else {
      assert |bs| > 1 ==> bs[1..][0] == bs[1];
      if bs[0].Bar? {
        BarNext(lines, fenced, i, bs);
        BreaksIff(lines, fenced, i);
        BlocksRead(lines, fenced, i + 1, bs[1..]);
      } else {
        ParaNext(lines, fenced, i, bs);
        var e := i + |bs[0].lines|;
        forall k | i <= k < e ensures !Breaks(lines, fenced, k) {
          BreaksIff(lines, fenced, k);
        }
        if |bs| > 1 {
          BarNext(lines, fenced, e, bs[1..]);
          BreaksIff(lines, fenced, e);
        } else {
          NothingLeft(lines, fenced, e);
        }
        ParagraphEndIs(lines, fenced, i, e);
        BlocksRead(lines, fenced, e, bs[1..]);
      }
    }
  }

  lemma NothingLeft(lines: seq<string>, fenced: seq<bool>, i: nat)
    requires Rest(lines, fenced, i, [])
    ensures i == |lines|
  {
  }

  /** Of every document laid out in blocks, the lines outside paragraphs stay and each paragraph is blanked whole. */
  lemma BlocksBlanked(bs: seq<Block>)
    requires Parted(bs)
    ensures BlankedFrom(LinesOf(bs), FencedOf(bs), 0) == BlankedBlocks(bs)
  {
    hide Breaks, Inked, BlankedFrom, BlankedBlocks;
    assert LinesOf(bs)[0..] == LinesOf(bs) && FencedOf(bs)[0..] == FencedOf(bs);
    BlocksRead(LinesOf(bs), FencedOf(bs), 0, bs);
  }
}
