/** One QML pass can be too few: a brace inside a literal moves with its line, and the second id
    check then sees other bodies. A sorted property that takes in the line behind it does not alone make it so. */
module QmlTwice {
  import opened Lines
  import opened Inserts
  import opened Tokenizer
  import opened PropertySort
  import opened IdPlacement
  import opened QmlPass
  import opened QmlStable
  import opened QmlSettles
  import opened Samples
  import Text
  import BraceFree

  /** The first line does not take in the second. */
  predicate Apart(line: Line, next: Line) {
    Grows(line.kind) ==> line.brackets == 0 && !line.trailing && !next.continues
  }

  function Single(line: Line, i: nat): Token {
    Token([line], line.kind, i)
  }

  lemma {:induction false} ApartTokens(lines: seq<Line>, i: nat)
    requires i <= |lines| && forall k :: 0 <= k < |lines| - 1 ==> Apart(lines[k], lines[k + 1])
    ensures |Tokens(lines, i)| == |lines| - i
    ensures forall k :: i <= k < |lines| ==> Tokens(lines, i)[k - i] == Single(lines[k], k)
    decreases |lines| - i
  {
    hide Tokens;
    if i == |lines| {
      TokensEnd(lines);
    } else {
      TokensStep(lines, i);
      assert i + 1 < |lines| ==> Apart(lines[i], lines[i + 1]);
      assert TokenEnd(lines, i) == i + 1;
      assert lines[i..i + 1] == [lines[i]];
      ApartTokens(lines, i + 1);
    }
  }

  lemma {:induction false} EventOfSingle(line: Line, i: nat)
    requires line.kind != Blank && line.kind != Comment && !line.reopens
    ensures EventOf(Single(line, i))
            == if line.kind == Open then Enter else if line.rawBraces < 0 then Leave else Stay
  {
    assert [line][..0] == [];
    assert RawBraces([line]) == RawBraces([line][..0]) + line.rawBraces;
  }

  /** An object whose `id:` is followed by two properties, `x` and then `y`. */
  ghost predicate Body(lines: seq<Line>, x: Line, y: Line) {
    && |lines| == 5
    && (forall k :: 0 <= k < 5 ==> WellFormed(lines[k]) && !lines[k].reopens)
    && lines[0].kind == Open && !lines[0].js
    && lines[1].kind == Id && lines[1].rawBraces == 0
    && lines[2] == x && lines[3] == y && x.kind == y.kind == Prop
    && x.brackets == y.brackets == 0 && !x.trailing && !y.trailing
    && lines[4].kind == Close && lines[4].rawBraces < 0 && !lines[4].continues
  }

  /** The tokens of such an object, one per line, and what they do to the stack of bodies. */
  lemma {:induction false} BodyTokens(lines: seq<Line>, x: Line, y: Line)
    requires Body(lines, x, y)
    ensures var toks := Tokens(lines, 0);
            && |toks| == 5 && toks[0] == Single(lines[0], 0) && toks[1] == Single(lines[1], 1)
            && toks[2] == Single(x, 2) && toks[3] == Single(y, 3) && toks[4] == Single(lines[4], 4)
    ensures var toks := Tokens(lines, 0);
            && EventOf(toks[0]) == Enter && EventOf(toks[1]) == Stay && EventOf(toks[4]) == Leave
            && EventOf(toks[2]) == (if x.rawBraces < 0 then Leave else Stay)
            && EventOf(toks[3]) == (if y.rawBraces < 0 then Leave else Stay)
  {
    hide Tokens, EventOf;
    ApartTokens(lines, 0);
    assert forall k :: 0 <= k < 5 ==> Tokens(lines, 0)[k - 0] == Single(lines[k], k);
    EventOfSingle(lines[0], 0);
    EventOfSingle(lines[1], 1);
    EventOfSingle(x, 2);
    EventOfSingle(y, 3);
    EventOfSingle(lines[4], 4);
  }

  lemma {:induction false} JudgeBody(toks: seq<Token>, end: nat)
    requires 2 <= end < |toks| && toks[1].kind == Id && toks[2].kind == Prop
    ensures Judge(toks, 1, end) == if end == 2 then Quiet else NeedsBlank(1)
  {
    assert Walk(toks, 1, end, 0, Text.None) == Shallow(Text.None, Text.Some(1));
  }

  /** A stray brace in the first property closes the body before the second one. */
  lemma {:induction false} StrayFirst(toks: seq<Token>)
    requires |toks| == 5 && toks[1].kind == Id && toks[2].kind == Prop
    requires EventOf(toks[0]) == Enter && EventOf(toks[1]) == Stay && EventOf(toks[2]) == Leave
    requires EventOf(toks[3]) == Stay && EventOf(toks[4]) == Leave
    ensures Verdicts(toks, 0, []) == [Quiet]
  {
    hide Verdicts, EventOf, Judge;
    var none: seq<nat> := [];
    assert none + [1] == [1] && Under([1]) == none && Under(none) == none;
    JudgeBody(toks, 2);
    VerdictsStep(toks, 0, []);
    VerdictsStep(toks, 1, [1]);
    VerdictsStep(toks, 2, [1]);
    VerdictsStep(toks, 3, []);
    VerdictsStep(toks, 4, []);
    VerdictsEnd(toks, []);
  }

  lemma {:induction false} StraySecond(toks: seq<Token>)
    requires |toks| == 5 && toks[1].kind == Id && toks[2].kind == Prop
    requires EventOf(toks[0]) == Enter && EventOf(toks[1]) == Stay && EventOf(toks[2]) == Stay
    requires EventOf(toks[3]) == Leave
    ensures NeedsBlank(1) in Verdicts(toks, 0, [])
  {
    hide Verdicts, EventOf, Judge;
    var none: seq<nat> := [];
    assert none + [1] == [1] && Under([1]) == none;
    JudgeBody(toks, 3);
    VerdictsStep(toks, 0, []);
    VerdictsStep(toks, 1, [1]);
    VerdictsStep(toks, 2, [1]);
    VerdictsStep(toks, 3, [1]);
  }

  /** The pass swaps the two properties when the second is shorter. */
  lemma {:induction false} PassSwaps(lines: seq<Line>, x: Line, y: Line)
    requires Body(lines, x, y) && !x.nested && !y.nested && |y.text| < |x.text|
    requires x.rawBraces < 0 && y.rawBraces >= 0
    ensures Ordered(Rewritten(Tokens(lines, 0)), |Tokens(lines, 0)|)
    ensures Fixed(lines) == [lines[0], lines[1], y, x, lines[4]]
  {
    hide Tokens, Verdicts, Rewritten, Rewrite, Runs, SortRun, Insert, Flatten, BlanksAfter, EventOf, StackAt, InJs, WellFormed,
      Covered, Elements;
    BodyTokens(lines, x, y);
    var toks := Tokens(lines, 0);
    RewrittenFacts(toks);
    var r := Run(2, 4);
    OutsideJs(toks);
    assert toks[2..4] == [toks[2], toks[3]];
    assert IsRun(toks, r) && Eligible(toks, r);
    var p :| 0 <= p < |Rewritten(toks)| && Rewritten(toks)[p] == r;
    RewriteInside(toks, Rewritten(toks), p);
    SwapTwo(toks[2], toks[3]);
    IdUncovered(toks, 0);
    IdUncovered(toks, 1);
    IdUncovered(toks, 4);
    RewriteOutside(toks, Rewritten(toks), 0);
    RewriteOutside(toks, Rewritten(toks), 1);
    RewriteOutside(toks, Rewritten(toks), 4);
    var out := Sorted(toks);
    assert out[2] == out[2..4][0] && out[3] == out[2..4][1];
    assert out == [toks[0], toks[1], toks[3], toks[2], toks[4]];
    FlattenFive(out);
    StrayFirst(toks);
    NoneWanted(toks);
    BraceFree.NothingToInsert(Flatten(out), EMPTY);
  }

  lemma {:induction false} NoneWanted(toks: seq<Token>)
    ensures BlanksAfter(toks, [Quiet]) == [] && Elements(BlanksAfter(toks, [Quiet])) == {}
  {
    assert [Quiet][1..] == [];
    assert BlanksAfter(toks, []) == [];
  }

  lemma {:induction false} FlattenFive(toks: seq<Token>)
    requires |toks| == 5 && forall k :: 0 <= k < 5 ==> |toks[k].raws| == 1
    ensures Flatten(toks) == [toks[0].raws[0], toks[1].raws[0], toks[2].raws[0], toks[3].raws[0], toks[4].raws[0]]
  {
    hide Flatten;
    FlattenStep(toks);
    FlattenStep(toks[1..]);
    FlattenStep(toks[2..]);
    FlattenStep(toks[3..]);
    FlattenStep(toks[4..]);
    FlattenNothing();
    assert toks[1..][1..] == toks[2..] && toks[2..][1..] == toks[3..] && toks[3..][1..] == toks[4..] && toks[4..][1..] == [];
  }

  lemma {:induction false} FlattenStep(toks: seq<Token>)
    requires toks != []
    ensures Flatten(toks) == toks[0].raws + Flatten(toks[1..])
  {
  }

  lemma {:induction false} FlattenNothing()
    ensures Flatten([]) == []
  {
  }

  lemma {:induction false} SwapTwo(s: Token, t: Token)
    requires Length(t) < Length(s)
    ensures SortRun([s, t]) == [t, s] && !SortedAscending([s, t])
  {
    assert [s, t][1..] == [t] && [t][1..] == [];
    assert SortRun([]) == [] && SortRun([t]) == [t];
    assert Place(s, [t]) == [t] + Place(s, [t][1..]);
    assert Place(s, []) == [s];
  }

  lemma {:induction false} OutsideJs(toks: seq<Token>)
    requires |toks| >= 2 && toks[0].kind == Open && !Head(toks[0]).js && toks[1].kind == Id
    ensures !InJs(StackAt(toks, 2))
  {
    StackStep(toks, 0);
    StackStep(toks, 1);
    assert StackAt(toks, 0) == [];
    assert !InJs([]);
  }

  /** An object whose `id:` is followed by a long property holding a stray closing brace and then a shorter one:
      the first pass asks for no blank and swaps the two, and then a second pass asks for a blank. */
  lemma {:induction false} OnePassMayNotSettle(lines: seq<Line>, x: Line, y: Line)
    requires Body(lines, x, y) && !x.nested && !y.nested && |y.text| < |x.text|
    requires x.rawBraces < 0 && y.rawBraces >= 0
    ensures Ordered(Rewritten(Tokens(lines, 0)), |Tokens(lines, 0)|)
    ensures Wanting(Verdicts(Tokens(lines, 0), 0, [])) == {}
    ensures Fixed(lines) == [lines[0], lines[1], y, x, lines[4]]
    ensures NeedsBlank(1) in Verdicts(Tokens(Fixed(lines), 0), 0, [])
    ensures Ordered(Rewritten(Tokens(Fixed(lines), 0)), |Tokens(Fixed(lines), 0)|)
    ensures Fixed(Fixed(lines)) != Fixed(lines)
  {
    hide Tokens, Verdicts, Rewritten, Rewrite, Fixed, EventOf, WellFormed, Wanting;
    PassSwaps(lines, x, y);
    BodyTokens(lines, x, y);
    StrayFirst(Tokens(lines, 0));
    QuietWantsNothing();
    BodyTokens(Fixed(lines), y, x);
    StraySecond(Tokens(Fixed(lines), 0));
    WantingAre(Verdicts(Tokens(Fixed(lines), 0), 0, []), 1);
    UnchangedExactly(Fixed(lines));
  }

  lemma {:induction false} QuietWantsNothing()
    ensures Wanting([Quiet]) == {}
  {
    assert [Quiet][1..] == [];
    assert Wanting([]) == {};
  }

  lemma {:induction false} PropDoesNotReopen(line: Line)
    requires WellFormed(line) && line.kind == Prop
    ensures !line.reopens
  {
  }

  /** The same on five lines of text. */
  lemma {:induction false} OnePassLeavesWork()
    ensures var lines := DescribeAll([HEADER, ID, STRAY, SHORT, FOOTER]);
            && Ordered(Rewritten(Tokens(lines, 0)), |Tokens(lines, 0)|)
            && Texts(Fixed(lines)) == [HEADER, ID, SHORT, STRAY, FOOTER]
            && var out := Fixed(lines);
               && Ordered(Rewritten(Tokens(out, 0)), |Tokens(out, 0)|)
               && Fixed(out) != out
               && Wanting(Verdicts(Tokens(lines, 0), 0, [])) == {}
               && NeedsBlank(1) in Verdicts(Tokens(out, 0), 0, [])
  {
    hide Describe, Tokens, Verdicts, Rewritten, Fixed, WellFormed, Wanting;
    var raws := [HEADER, ID, STRAY, SHORT, FOOTER];
    var lines := DescribeAll(raws);
    HeaderSample();
    IdSample();
    StraySample();
    ShortSample();
    FooterSample();
    assert lines[0] == Describe(HEADER) && lines[1] == Describe(ID) && lines[2] == Describe(STRAY)
        && lines[3] == Describe(SHORT) && lines[4] == Describe(FOOTER);
    forall k | 0 <= k < 5
      ensures WellFormed(lines[k]) && lines[k].text == raws[k]
    {
      DescribeWellFormed(raws[k]);
      DescribeKeepsText(raws[k]);
    }
    assert !lines[2].reopens && !lines[3].reopens by { PropDoesNotReopen(lines[2]); PropDoesNotReopen(lines[3]); }
    OnePassMayNotSettle(lines, lines[2], lines[3]);
  }

  // ----- A property that takes in the next one -----

  /** An object of a long property and a shorter one that ends on an operator. */
  ghost predicate Taking(lines: seq<Line>) {
    && |lines| == 4 && AllWellFormed(lines)
    && lines[0].kind == Open && !lines[0].js
    && lines[1].kind == lines[2].kind == Prop && lines[1].brackets == lines[2].brackets == 0
    && !lines[1].nested && !lines[2].nested && |lines[2].text| < |lines[1].text|
    && !lines[1].trailing && lines[2].trailing
    && lines[3].kind == Close && lines[3].brackets < 0
  }

  lemma {:induction false} TakingTokens(lines: seq<Line>)
    requires Taking(lines)
    ensures Tokens(lines, 0) == [Single(lines[0], 0), Single(lines[1], 1), Single(lines[2], 2), Single(lines[3], 3)]
  {
    hide Tokens, WellFormed;
    assert WellFormed(lines[2]) && !lines[2].continues by { PropDoesNotReopen(lines[2]); PropDoesNotContinue(lines[2]); }
    assert TokenEnd(lines, 0) == 1 && TokenEnd(lines, 1) == 2 && TokenEnd(lines, 2) == 3 && TokenEnd(lines, 3) == 4;
    OneLineToken(lines, 0);
    OneLineToken(lines, 1);
    OneLineToken(lines, 2);
    OneLineToken(lines, 3);
    TokensEnd(lines);
  }

  lemma {:induction false} OneLineToken(lines: seq<Line>, i: nat)
    requires i < |lines| && TokenEnd(lines, i) == i + 1
    ensures Tokens(lines, i) == [Single(lines[i], i)] + Tokens(lines, i + 1)
  {
    hide Tokens, TokenEnd;
    TokensStep(lines, i);
    assert lines[i..i + 1] == [lines[i]];
  }

  lemma {:induction false} PropDoesNotContinue(line: Line)
    requires WellFormed(line) && line.kind == Prop
    ensures !line.continues
  {
  }

  /** Sorted, the short property comes first and takes in the long one. */
  lemma {:induction false} TakingSorted(lines: seq<Line>)
    requires Taking(lines)
    ensures var toks := Tokens(lines, 0);
            && Ordered(Rewritten(toks), |toks|)
            && BalancedRuns(toks) && !SortStops(toks)
            && SortedBuffer(lines) == [lines[0], lines[2], lines[1], lines[3]]
  {
    hide Tokens, Rewritten, Rewrite, Runs, SortRun, Flatten, StackAt, InJs, WellFormed, Covered;
    TakingTokens(lines);
    var toks := Tokens(lines, 0);
    RewrittenFacts(toks);
    var r := Run(1, 3);
    StackStep(toks, 0);
    NoFrameYet(toks);
    assert toks[1..3] == [toks[1], toks[2]];
    SwapTwo(toks[1], toks[2]);
    assert IsRun(toks, r) && Eligible(toks, r);
    var p :| 0 <= p < |Rewritten(toks)| && Rewritten(toks)[p] == r;
    RewriteInside(toks, Rewritten(toks), p);
    IdUncovered(toks, 0);
    IdUncovered(toks, 3);
    RewriteOutside(toks, Rewritten(toks), 0);
    RewriteOutside(toks, Rewritten(toks), 3);
    var out := Sorted(toks);
    assert out[1] == out[1..3][0] && out[2] == out[1..3][1];
    assert out == [toks[0], toks[2], toks[1], toks[3]];
    FlattenFour(out);
    Takes(lines[2], lines[1]);
    assert !StopsAt(out, 1);
    forall q | q in Rewritten(toks)
      ensures forall k :: q.start <= k < q.end && k < |toks| ==> Head(toks[k]).brackets == 0
    {
      assert forall k :: q.start <= k < q.end ==> toks[k].kind == Prop;
    }
  }

  lemma {:induction false} Takes(line: Line, next: Line)
    requires line.kind == next.kind == Prop && line.trailing && next.brackets == 0
    ensures !Stops(Single(line, 2), next)
  {
    DepthOfOne(line);
  }

  lemma {:induction false} NoFrameYet(toks: seq<Token>)
    requires |toks| >= 1 && toks[0].kind == Open && !Head(toks[0]).js
    ensures !InJs(StackAt(toks, 1))
  {
    StackStep(toks, 0);
    assert StackAt(toks, 0) == [];
    assert !InJs([]);
  }

  lemma {:induction false} FlattenFour(toks: seq<Token>)
    requires |toks| == 4 && forall k :: 0 <= k < 4 ==> |toks[k].raws| == 1
    ensures Flatten(toks) == [toks[0].raws[0], toks[1].raws[0], toks[2].raws[0], toks[3].raws[0]]
  {
    hide Flatten;
    FlattenStep(toks);
    FlattenStep(toks[1..]);
    FlattenStep(toks[2..]);
    FlattenStep(toks[3..]);
    FlattenNothing();
    assert toks[1..][1..] == toks[2..] && toks[2..][1..] == toks[3..] && toks[3..][1..] == [];
  }

  lemma {:induction false} TakenTokens(lines: seq<Line>)
    requires Taking(lines)
    ensures var sorted := [lines[0], lines[2], lines[1], lines[3]];
            Tokens(sorted, 0)
            == [Single(lines[0], 0), Token([lines[2], lines[1]], Prop, 1), Single(lines[3], 3)]
  {
    hide Tokens, WellFormed;
    var sorted := [lines[0], lines[2], lines[1], lines[3]];
    assert Extend(sorted, 3, 0, lines[1], true) == 3;
    assert TokenEnd(sorted, 0) == 1 && TokenEnd(sorted, 1) == 3 && TokenEnd(sorted, 3) == 4;
    OneLineToken(sorted, 0);
    TokensStep(sorted, 1);
    assert sorted[1..3] == [lines[2], lines[1]];
    OneLineToken(sorted, 3);
    TokensEnd(sorted);
  }

  lemma {:induction false} NoIdNoAsk(toks: seq<Token>)
    requires forall k :: 0 <= k < |toks| ==> toks[k].kind != Id
    ensures Wanting(Verdicts(toks, 0, [])) == {}
  {
    hide Verdicts, Wanting;
    var verdicts := Verdicts(toks, 0, []);
    if k :| k in Wanting(verdicts) {
      WantingAre(verdicts, k);
      WantingIds(toks, 0, [], k);
    }
  }

  lemma {:induction false} NoneIn(runs: seq<Run>)
    ensures runs == [] || exists r :: r in runs
  {
    assert runs != [] ==> runs[0] in runs;
  }

  /** On such an object a sorted property takes in the line behind it, and one pass is enough all the same. */
  lemma {:induction false} TakingSettles(lines: seq<Line>)
    requires Taking(lines)
    ensures Ordered(Rewritten(Tokens(lines, 0)), |Tokens(lines, 0)|) && !SortStops(Tokens(lines, 0))
    ensures Fixed(lines) == [lines[0], lines[2], lines[1], lines[3]]
    ensures Ordered(Rewritten(Tokens(Fixed(lines), 0)), |Tokens(Fixed(lines), 0)|)
    ensures Fixed(Fixed(lines)) == Fixed(lines)
  {
    hide Tokens, Verdicts, Rewritten, Rewrite, Fixed, WellFormed, Wanting, SortStops, BalancedRuns, SortedBuffer, Insert,
      StackAt;
    TakingTokens(lines);
    TakingSorted(lines);
    TakenTokens(lines);
    SortedBufferFacts(lines);
    var toks := Tokens(SortedBuffer(lines), 0);
    NoIdNoAsk(Tokens(lines, 0));
    NoIdNoAsk(toks);
    NoBlanks(Tokens(lines, 0), Verdicts(Tokens(lines, 0), 0, []));
    BraceFree.NothingToInsert(SortedBuffer(lines), EMPTY);
    RewrittenFacts(toks);
    NoneIn(Rewritten(toks));
    BalancedPassSettles(lines);
  }

  /** The same on four lines of text: a comment's closing `/` counts as an operator. */
  lemma {:induction false} TakenLineSettles()
    ensures var lines := DescribeAll([HEADER, LONGER, TAKER, FOOTER]);
            && Ordered(Rewritten(Tokens(lines, 0)), |Tokens(lines, 0)|) && !SortStops(Tokens(lines, 0))
            && Texts(Fixed(lines)) == [HEADER, TAKER, LONGER, FOOTER]
            && var out := Fixed(lines);
               Ordered(Rewritten(Tokens(out, 0)), |Tokens(out, 0)|) && Fixed(out) == out
  {
    hide Describe, Tokens, Rewritten, Fixed, WellFormed, SortStops;
    var raws := [HEADER, LONGER, TAKER, FOOTER];
    var lines := DescribeAll(raws);
    HeaderSample();
    LongerSample();
    TakerSample();
    FooterSample();
    FooterCloses();
    assert lines[0] == Describe(HEADER) && lines[1] == Describe(LONGER) && lines[2] == Describe(TAKER)
        && lines[3] == Describe(FOOTER);
    forall k | 0 <= k < 4
      ensures WellFormed(lines[k]) && lines[k].text == raws[k]
    {
      DescribeWellFormed(raws[k]);
      DescribeKeepsText(raws[k]);
    }
    assert |LONGER| == 13 && |TAKER| == 12;
    TakingSettles(lines);
  }
}
