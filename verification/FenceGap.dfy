/** A fence keeps the brace-free rule out, but the QML pass never looks at the mask. What it then does
    to fenced lines, and exactly when it leaves them alone. */
module FenceGap {
  import opened Lines
  import opened Inserts
  import opened Tokenizer
  import opened PropertySort
  import opened IdPlacement
  import opened QmlPass
  import opened QmlStable
  import opened QmlTwice
  import opened Fences
  import opened Samples
  import BraceFree

  /** Where the pass puts its blanks. */
  ghost function Blanks(lines: seq<Line>): set<nat> {
    Elements(BlanksAfter(Tokens(lines, 0), Verdicts(Tokens(lines, 0), 0, [])))
  }

  predicate MaskedAt(lines: seq<Line>, p: nat) {
    p < |lines| && Masked(lines, p)
  }

  /** Every masked line is in the output as it was, with no blank put behind it. */
  ghost predicate LeavesFencesAlone(lines: seq<Line>)
    requires Ordered(Rewritten(Tokens(lines, 0)), |Tokens(lines, 0)|)
  {
    forall p: nat :: MaskedAt(lines, p) ==>
      && Pos(Blanks(lines), p) < |Fixed(lines)|
      && Fixed(lines)[Pos(Blanks(lines), p)] == lines[p]
      && p !in Blanks(lines)
  }

  /** No run that is sorted starts in a fence, and no `id:` that asks for a blank stands in one. */
  predicate NothingFenced(lines: seq<Line>) {
    var toks := Tokens(lines, 0);
    && (forall r :: r in Rewritten(toks) ==> !MaskedAt(lines, Start(toks, r.start)))
    && (forall k :: k in Wanting(Verdicts(toks, 0, [])) ==> !MaskedAt(lines, LastLine(toks, k)))
  }

  /** Line `p` belongs to a token. */
  lemma {:induction false} TokenAt(toks: seq<Token>, p: nat) returns (k: nat)
    requires p < Size(toks)
    ensures k < |toks| && Size(toks[..k]) <= p < Size(toks[..k]) + |toks[k].raws|
    decreases |toks|
  {
    var n := |toks| - 1;
    if p < Size(toks[..n]) {
      k := TokenAt(toks[..n], p);
      assert toks[..n][..k] == toks[..k];
    } else {
      k := n;
    }
  }

  /** A token of a rewritten run is one property line at its offset, and no fence line. */
  lemma {:induction false} RunLine(lines: seq<Line>, r: Run, k: nat)
    requires AllWellFormed(lines) && r in Rewritten(Tokens(lines, 0)) && r.start <= k < r.end
    ensures var toks := Tokens(lines, 0);
            && k < |toks| && toks[k].kind == Prop && |toks[k].raws| == 1
            && toks[k].start == Size(toks[..k]) < |lines|
            && toks[k].raws == [lines[toks[k].start]] && lines[toks[k].start].fence == Neither
  {
    hide Tokens, Rewritten, Grouped, IsRun, Flatten;
    var toks := Tokens(lines, 0);
    RewrittenFacts(toks);
    EligibleAt(toks, r, k);
    TokensPartition(lines, 0);
    assert lines[0..] == lines;
    PartitionAt(toks, 0, k);
    RawsInBuffer(toks, k);
    var lo := Size(toks[..k]);
    assert Flatten(toks)[lo..lo + 1][0] == lines[lo];
    assert toks[k].raws == [toks[k].raws[0]];
    GroupedKind(toks[k]);
    assert WellFormed(lines[lo]);
  }

  lemma {:induction false} GroupedKind(t: Token)
    requires Grouped(t)
    ensures |t.raws| > 0 && t.kind == t.raws[0].kind
  {
  }

  /** A rewritten run lies wholly inside or wholly outside a fence. */
  lemma {:induction false} RunInOneFence(lines: seq<Line>, r: Run, k: nat)
    requires AllWellFormed(lines) && r in Rewritten(Tokens(lines, 0)) && r.start <= k < r.end
    ensures var toks := Tokens(lines, 0);
            MaskedAt(lines, Start(toks, k)) == MaskedAt(lines, Start(toks, r.start))
    decreases k
  {
    hide Tokens, Rewritten;
    RunLine(lines, r, k);
    if r.start < k {
      var toks := Tokens(lines, 0);
      RunLine(lines, r, k - 1);
      RunInOneFence(lines, r, k - 1);
      assert toks[..k][..k - 1] == toks[..k - 1];
      assert toks[k].start == toks[k - 1].start + 1;
    }
  }

  /** The output line at the moved place of line `p`. */
  lemma {:induction false} AtMovedPlace(lines: seq<Line>, p: nat)
    requires p < |lines|
    ensures Ordered(Rewritten(Tokens(lines, 0)), |Tokens(lines, 0)|)
    ensures var sorted := Flatten(Sorted(Tokens(lines, 0)));
            && |sorted| == |lines|
            && Pos(Blanks(lines), p) < |Fixed(lines)|
            && Fixed(lines)[Pos(Blanks(lines), p)] == sorted[p]
  {
    hide Tokens, Rewritten, Rewrite, Insert, Verdicts, BlanksAfter, Flatten, Pos, Elements;
    var toks := Tokens(lines, 0);
    SortKeepsSizes(toks, |toks|);
    TokensPartition(lines, 0);
    assert lines[0..] == lines;
    FlattenSize(toks);
    FlattenSize(Sorted(toks));
    assert toks[..|toks|] == toks && Sorted(toks)[..|toks|] == Sorted(toks);
    InsertAt(Flatten(Sorted(toks)), Blanks(lines), EMPTY, p);
  }

  lemma {:induction false} CoveredLine(lines: seq<Line>, k: nat)
    requires AllWellFormed(lines) && k < |Tokens(lines, 0)| && Covered(Rewritten(Tokens(lines, 0)), k)
    ensures Ordered(Rewritten(Tokens(lines, 0)), |Tokens(lines, 0)|)
    ensures var toks := Tokens(lines, 0);
            var p := Size(toks[..k]);
            && |toks[k].raws| == 1 && Start(toks, k) == p < |lines|
            && p < |Flatten(Sorted(toks))| && Flatten(Sorted(toks))[p].fence == lines[p].fence
            && exists r :: r in Rewritten(toks) && r.start <= k < r.end
  {
    hide Tokens, Rewritten, Rewrite, Flatten, Covered, AllWellFormed;
    var toks := Tokens(lines, 0);
    RewrittenFacts(toks);
    var r, m := InRewritten(toks, k);
    RunLine(lines, r, k);
    RunLine(lines, r, m);
    SortKeepsSizes(toks, k);
    RawsInBuffer(Sorted(toks), k);
    var lo := Size(toks[..k]);
    assert Flatten(Sorted(toks))[lo..lo + 1][0] == Sorted(toks)[k].raws[0];
  }

  lemma {:induction false} UncoveredLine(toks: seq<Token>, k: nat, p: nat)
    requires k < |toks| && !Covered(Rewritten(toks), k)
    requires Size(toks[..k]) <= p < Size(toks[..k]) + |toks[k].raws|
    ensures Ordered(Rewritten(toks), |toks|)
    ensures p < |Flatten(toks)| == |Flatten(Sorted(toks))| && Flatten(Sorted(toks))[p] == Flatten(toks)[p]
  {
    hide Rewritten, Rewrite, Flatten, Covered, Size;
    SortKeepsPlaces(toks, k);
    var lo := Size(toks[..k]);
    var hi := lo + |toks[k].raws|;
    assert Flatten(Sorted(toks))[lo..hi][p - lo] == Flatten(toks)[lo..hi][p - lo];
  }

  /** The pass leaves every line outside the rewritten runs where it is; inside, both the old and the new line
      are no fence lines. */
  lemma {:induction false} SortedLine(lines: seq<Line>, p: nat)
    requires AllWellFormed(lines) && p < |lines|
    ensures Ordered(Rewritten(Tokens(lines, 0)), |Tokens(lines, 0)|)
    ensures var toks := Tokens(lines, 0);
            var sorted := Flatten(Sorted(toks));
            && p < |sorted| && sorted[p].fence == lines[p].fence
            && (sorted[p] == lines[p] || exists r, k :: r in Rewritten(toks) && r.start <= k < r.end && Start(toks, k) == p)
  {
    hide Tokens, Rewritten, Rewrite, Flatten, Covered, AllWellFormed, Start;
    var toks := Tokens(lines, 0);
    RewrittenFacts(toks);
    TokensPartition(lines, 0);
    assert lines[0..] == lines;
    FlattenSize(toks);
    var k := TokenAt(toks, p);
    var lo := Size(toks[..k]);
    hide Size;
    if Covered(Rewritten(toks), k) {
      CoveredLine(lines, k);
      assert p == lo;
    } else {
      UncoveredLine(toks, k, p);
    }
  }

  /** Main result: the QML pass leaves every fenced line alone if and only if no rewritten run and no `id:`
      that asks for a blank stands in a fence. */
  lemma {:induction false} FencesHoldExactly(lines: seq<Line>)
    requires AllWellFormed(lines)
    ensures Ordered(Rewritten(Tokens(lines, 0)), |Tokens(lines, 0)|)
    ensures LeavesFencesAlone(lines) <==> NothingFenced(lines)
  {
    hide Tokens, Rewritten, Rewrite, Flatten, Verdicts, Wanting, BlanksAfter, Masked, Fixed, AllWellFormed, LastLine, Blanks;
    var toks := Tokens(lines, 0);
    RewrittenFacts(toks);
    if NothingFenced(lines) {
      forall p: nat | MaskedAt(lines, p)
        ensures Pos(Blanks(lines), p) < |Fixed(lines)|
        ensures Fixed(lines)[Pos(Blanks(lines), p)] == lines[p] && p !in Blanks(lines)
      {
        FencedStays(lines, p);
      }
    }
    if LeavesFencesAlone(lines) {
      forall r | r in Rewritten(toks)
        ensures !MaskedAt(lines, Start(toks, r.start))
      {
        if MaskedAt(lines, Start(toks, r.start)) {
          FencedRunChanges(lines, r);
        }
      }
      forall k | k in Wanting(Verdicts(toks, 0, []))
        ensures !MaskedAt(lines, LastLine(toks, k))
      {
        WantedIsBlank(lines, k);
      }
    }
  }

  lemma {:induction false} WantedIsBlank(lines: seq<Line>, k: nat)
    requires k in Wanting(Verdicts(Tokens(lines, 0), 0, []))
    ensures LastLine(Tokens(lines, 0), k) in Blanks(lines)
  {
    hide Tokens, Verdicts, Wanting, BlanksAfter, LastLine;
    var toks := Tokens(lines, 0);
    WantingAre(Verdicts(toks, 0, []), k);
    BlanksAfterAre(toks, Verdicts(toks, 0, []), LastLine(toks, k));
  }

  lemma {:induction false} FencedStays(lines: seq<Line>, p: nat)
    requires AllWellFormed(lines) && NothingFenced(lines) && MaskedAt(lines, p)
    ensures Ordered(Rewritten(Tokens(lines, 0)), |Tokens(lines, 0)|)
    ensures Pos(Blanks(lines), p) < |Fixed(lines)|
    ensures Fixed(lines)[Pos(Blanks(lines), p)] == lines[p] && p !in Blanks(lines)
  {
    hide Tokens, Rewritten, Rewrite, Flatten, Verdicts, Wanting, BlanksAfter, Masked, Fixed, AllWellFormed, LastLine, Start;
    var toks := Tokens(lines, 0);
    AtMovedPlace(lines, p);
    SortedLine(lines, p);
    if Flatten(Sorted(toks))[p] != lines[p] {
      var r, k :| r in Rewritten(toks) && r.start <= k < r.end && Start(toks, k) == p;
      RunInOneFence(lines, r, k);
    }
    if p in Blanks(lines) {
      BlanksAfterAre(toks, Verdicts(toks, 0, []), p);
      var k: nat :| NeedsBlank(k) in Verdicts(toks, 0, []) && p == LastLine(toks, k);
      WantingAre(Verdicts(toks, 0, []), k);
    }
  }

  lemma {:induction false} FencedRunChanges(lines: seq<Line>, r: Run)
    requires AllWellFormed(lines) && r in Rewritten(Tokens(lines, 0))
    requires MaskedAt(lines, Start(Tokens(lines, 0), r.start))
    ensures Ordered(Rewritten(Tokens(lines, 0)), |Tokens(lines, 0)|)
    ensures !LeavesFencesAlone(lines)
  {
    hide Tokens, Rewritten, Rewrite, Flatten, Masked, Fixed, AllWellFormed, Blanks;
    var toks := Tokens(lines, 0);
    var k := RunChanges(toks, r);
    LineChanges(toks, k);
    RunLine(lines, r, k);
    RunInOneFence(lines, r, k);
    TokensPartition(lines, 0);
    assert lines[0..] == lines;
    AtMovedPlace(lines, toks[k].start);
    assert MaskedAt(lines, toks[k].start);
  }

  /** The mask itself survives: every line keeps its fence state, at its new place. */
  lemma {:induction false} MaskSurvives(lines: seq<Line>, k: nat)
    requires AllWellFormed(lines) && k <= |lines|
    ensures Ordered(Rewritten(Tokens(lines, 0)), |Tokens(lines, 0)|)
    ensures Pos(Blanks(lines), k) <= |Fixed(lines)|
    ensures Fenced(Fixed(lines), Pos(Blanks(lines), k)) == Fenced(lines, k)
  {
    hide Tokens, Rewritten, Rewrite, Flatten, Insert, Elements, BlanksAfter, Verdicts, Fenced, Pos;
    var toks := Tokens(lines, 0);
    RewrittenFacts(toks);
    var sorted := Flatten(Sorted(toks));
    forall p | 0 <= p < |lines|
      ensures p < |sorted| && sorted[p].fence == lines[p].fence
    {
      SortedLine(lines, p);
    }
    SortKeepsSizes(toks, |toks|);
    TokensPartition(lines, 0);
    assert lines[0..] == lines;
    FlattenSize(toks);
    FlattenSize(Sorted(toks));
    assert toks[..|toks|] == toks && Sorted(toks)[..|toks|] == Sorted(toks);
    SameFences(sorted, lines, k);
    FencedMoves(sorted, Blanks(lines), k);
  }

  lemma {:induction false} SameFences(xs: seq<Line>, ys: seq<Line>, k: nat)
    requires |xs| == |ys| && k <= |xs| && forall p :: 0 <= p < |xs| ==> xs[p].fence == ys[p].fence
    ensures Fenced(xs, k) == Fenced(ys, k)
  {
    if k > 0 { SameFences(xs, ys, k - 1); }
  }

  // ----- A fenced pair that is sorted all the same -----

  /** Two properties behind an `off` comment; a blank line keeps the `on` comment from being taken in. */
  ghost predicate FencedPair(lines: seq<Line>, x: Line, y: Line) {
    && |lines| == 5 && AllWellFormed(lines)
    && lines[0].kind == Comment && lines[0].fence == Off
    && lines[1] == x && lines[2] == y && Simple(x) && Simple(y) && x.rawBraces == y.rawBraces == 0
    && lines[3] == EMPTY
    && lines[4].kind == Comment && lines[4].fence == On
  }

  lemma {:induction false} PairTokens(lines: seq<Line>, x: Line, y: Line)
    requires FencedPair(lines, x, y)
    ensures var toks := Tokens(lines, 0);
            && |toks| == 5 && toks[0] == Single(lines[0], 0) && toks[1] == Single(x, 1)
            && toks[2] == Single(y, 2) && toks[3] == Single(EMPTY, 3) && toks[4] == Single(lines[4], 4)
            && forall k :: 0 <= k < 5 ==> EventOf(toks[k]) == Stay
  {
    hide Tokens;
    assert WellFormed(x) && WellFormed(y);
    ApartTokens(lines, 0);
    assert forall k :: 0 <= k < 5 ==> Tokens(lines, 0)[k - 0] == Single(lines[k], k);
    EventOfSingle(x, 1);
    EventOfSingle(y, 2);
  }

  lemma {:induction false} AllStay(toks: seq<Token>, i: nat)
    requires i <= |toks| && forall k :: 0 <= k < |toks| ==> EventOf(toks[k]) == Stay
    ensures Verdicts(toks, i, []) == []
    decreases |toks| - i
  {
    hide EventOf;
    if i < |toks| { AllStay(toks, i + 1); }
  }

  lemma {:induction false} PairIsRun(toks: seq<Token>, x: Line, y: Line)
    requires |toks| == 5 && toks[0].kind == Comment && toks[1] == Single(x, 1) && toks[2] == Single(y, 2)
    requires toks[3].kind == Blank && Simple(x) && Simple(y) && |y.text| < |x.text|
    ensures Run(1, 3) in Rewritten(toks)
    ensures toks[1..3] == [toks[1], toks[2]] && SortRun(toks[1..3]) == [toks[2], toks[1]]
  {
    hide Rewritten, SortRun, InJs;
    RewrittenFacts(toks);
    StackStep(toks, 0);
    assert !InJs(StackAt(toks, 1)) by { StackShape(toks, 1); }
    assert toks[1..3] == [toks[1], toks[2]];
    SwapTwo(toks[1], toks[2]);
    assert IsRun(toks, Run(1, 3)) && Eligible(toks, Run(1, 3));
  }

  /** Both lines stand inside the fence, and the pass swaps them. */
  lemma {:induction false} FencedRunIsSorted(lines: seq<Line>, x: Line, y: Line)
    requires FencedPair(lines, x, y) && |y.text| < |x.text|
    ensures Masked(lines, 1) && Masked(lines, 2)
    ensures Ordered(Rewritten(Tokens(lines, 0)), |Tokens(lines, 0)|)
    ensures Fixed(lines) == [lines[0], y, x, EMPTY, lines[4]]
    ensures !LeavesFencesAlone(lines)
  {
    hide Tokens, Verdicts, Rewritten, Rewrite, Runs, SortRun, Insert, Flatten, BlanksAfter, EventOf, Simple,
      Covered, Elements, WellFormed, LeavesFencesAlone;
    PairTokens(lines, x, y);
    var toks := Tokens(lines, 0);
    PropLines(lines, x, y);
    RewrittenFacts(toks);
    PairIsRun(toks, x, y);
    var p :| 0 <= p < |Rewritten(toks)| && Rewritten(toks)[p] == Run(1, 3);
    RewriteInside(toks, Rewritten(toks), p);
    IdUncovered(toks, 0);
    IdUncovered(toks, 3);
    IdUncovered(toks, 4);
    RewriteOutside(toks, Rewritten(toks), 0);
    RewriteOutside(toks, Rewritten(toks), 3);
    RewriteOutside(toks, Rewritten(toks), 4);
    var out := Sorted(toks);
    assert out[1] == out[1..3][0] && out[2] == out[1..3][1];
    assert out == [toks[0], toks[2], toks[1], toks[3], toks[4]];
    FlattenFive(out);
    AllStay(toks, 0);
    NoneAsked(toks);
    BraceFree.NothingToInsert(Flatten(out), EMPTY);
    FencedRunChanges(lines, Run(1, 3));
  }

  lemma {:induction false} PropLines(lines: seq<Line>, x: Line, y: Line)
    requires FencedPair(lines, x, y)
    ensures Masked(lines, 1) && Masked(lines, 2)
  {
  }

  lemma {:induction false} NoneAsked(toks: seq<Token>)
    ensures BlanksAfter(toks, []) == [] && Elements(BlanksAfter(toks, [])) == {}
  {
  }

  /** The same on five lines of text. */
  lemma {:induction false} FenceDoesNotHold()
    ensures var lines := DescribeAll([OFF, LONG, SHORT, "", ON]);
            && Masked(lines, 1) && Masked(lines, 2)
            && Ordered(Rewritten(Tokens(lines, 0)), |Tokens(lines, 0)|)
            && Texts(Fixed(lines)) == [OFF, SHORT, LONG, "", ON]
            && !LeavesFencesAlone(lines)
  {
    hide Describe, Tokens, Rewritten, Fixed, WellFormed, Simple, LeavesFencesAlone;
    var raws := [OFF, LONG, SHORT, "", ON];
    var lines := DescribeAll(raws);
    FenceSamples();
    LongSample();
    ShortSample();
    EmptyIsDescribed();
    assert lines[0] == Describe(OFF) && lines[1] == Describe(LONG) && lines[2] == Describe(SHORT)
        && lines[3] == Describe("") && lines[4] == Describe(ON);
    forall k | 0 <= k < 5
      ensures WellFormed(lines[k]) && lines[k].text == raws[k]
    {
      DescribeWellFormed(raws[k]);
      DescribeKeepsText(raws[k]);
    }
    FencedRunIsSorted(lines, lines[1], lines[2]);
  }
}
