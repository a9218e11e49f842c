/** One run of the whole driver can be too few, without any stray bracket: a body blank splits a block of properties
    that was not sortable, and what is left of it can be sorted. */
module RunTwice {
  import opened Lines
  import opened Inserts
  import opened Tokenizer
  import opened PropertySort
  import opened QmlPass
  import opened QmlStable
  import opened QmlTwice
  import opened Fences
  import opened SourceFile
  import opened Samples
  import IdPlacement
  import BraceFree
  import Text

  /** A control line, its body, a property with a list, and two plain properties that are out of order. */
  ghost predicate Splittable(lines: seq<Line>) {
    && |lines| == 4 && AllWellFormed(lines)
    && (forall k :: 0 <= k < 4 ==> lines[k].brackets == 0 && !lines[k].trailing && lines[k].fence == Neither)
    && lines[0].kind == Other && lines[0].control && lines[1].kind == lines[2].kind == lines[3].kind == Prop
    && lines[0].indent < lines[1].indent && lines[2].indent <= lines[1].indent
    && lines[1].nested && !lines[1].braced && !lines[1].semicolon && !lines[1].attribute
    && !lines[2].nested && !lines[3].nested && |lines[3].text| < |lines[2].text|
    && !lines[2].separates && !lines[2].control && !lines[3].control
  }

  function WithBlank(lines: seq<Line>): seq<Line>
    requires |lines| == 4
  {
    [lines[0], lines[1], EMPTY, lines[2], lines[3]]
  }

  /** The only body ends behind the list, and a blank is asked for there. */
  lemma {:induction false} BlankAsked(lines: seq<Line>)
    requires Splittable(lines)
    ensures Unfenced(lines) == {1} && Insert(lines, {1}, EMPTY) == WithBlank(lines)
  {
    hide Insert, WellFormed;
    NoSlashes(lines[1]);
    assert BraceFree.BodyStart(lines, 1) == 1;
    assert BraceFree.Walk(lines, 1, 0, lines[1].indent) == 1;
    BraceFree.ScanStep(lines, 0);
    BraceFree.ScanSkips(lines, 2, 4);
    BraceFree.ScanEnds(lines);
    assert BraceFree.Scan(lines, 0) == [1];
    FirstFence(lines);
    FenceStep(lines, 0);
    assert Unfenced(lines) == {1};
    InsertFour(lines);
  }

  lemma {:induction false} NoSlashes(line: Line)
    requires WellFormed(line) && line.kind == Prop
    ensures !line.slashes
  {
  }

  lemma {:induction false} InsertFour(lines: seq<Line>)
    requires |lines| == 4
    ensures Insert(lines, {1}, EMPTY) == WithBlank(lines)
  {
    hide Insert;
    var at: set<nat> := {1};
    InsertNone(at);
    InsertLast(lines, at, EMPTY);
    InsertLast(lines[..3], at, EMPTY);
    InsertLast(lines[..2], at, EMPTY);
    InsertLast(lines[..1], at, EMPTY);
    assert lines[..3][..2] == lines[..2] && lines[..2][..1] == lines[..1] && lines[..1][..0] == [];
  }

  lemma {:induction false} InsertNone(at: set<nat>)
    ensures Insert([], at, EMPTY) == []
  {
  }

  /** Without openers no frame is ever pushed. */
  lemma {:induction false} NoFrameAtAll(toks: seq<Token>, k: nat)
    requires k <= |toks| && forall j :: 0 <= j < |toks| ==> toks[j].kind != Open && toks[j].kind != Close
    ensures StackAt(toks, k) == [] && !InJs(StackAt(toks, k))
  {
    if k > 0 {
      NoFrameAtAll(toks, k - 1);
      StackStep(toks, k - 1);
    }
  }

  lemma {:induction false} SplitTokens(lines: seq<Line>)
    requires Splittable(lines)
    ensures Tokens(lines, 0) == [Single(lines[0], 0), Single(lines[1], 1), Single(lines[2], 2), Single(lines[3], 3)]
    ensures Tokens(WithBlank(lines), 0)
            == [Single(lines[0], 0), Single(lines[1], 1), Single(EMPTY, 2), Single(lines[2], 3), Single(lines[3], 4)]
  {
    hide Tokens, WellFormed;
    PropDoesNotContinue(lines[1]);
    PropDoesNotContinue(lines[2]);
    PropDoesNotContinue(lines[3]);
    var more := WithBlank(lines);
    ApartTokens(lines, 0);
    ApartTokens(more, 0);
    ApartAt(lines, 0);
    ApartAt(lines, 1);
    ApartAt(lines, 2);
    ApartAt(lines, 3);
    ApartAt(more, 0);
    ApartAt(more, 1);
    ApartAt(more, 2);
    ApartAt(more, 3);
    ApartAt(more, 4);
  }

  lemma {:induction false} ApartAt(lines: seq<Line>, k: nat)
    requires k < |lines| && forall j :: 0 <= j < |lines| - 1 ==> Apart(lines[j], lines[j + 1])
    ensures |Tokens(lines, 0)| == |lines| && Tokens(lines, 0)[k] == Single(lines[k], k)
  {
    hide Tokens, Apart;
    ApartTokens(lines, 0);
    assert Tokens(lines, 0)[k - 0] == Single(lines[k], k);
  }

  /** The block of three properties is not safe to sort ... */
  lemma {:induction false} NothingSorted(lines: seq<Line>)
    requires Splittable(lines)
    ensures Rewritten(Tokens(lines, 0)) == []
  {
    hide Tokens, Rewritten, StackAt, WellFormed, SortedAscending;
    SplitTokens(lines);
    var toks := Tokens(lines, 0);
    RewrittenFacts(toks);
    forall r | IsRun(toks, r)
      ensures !Eligible(toks, r)
    {
      assert r.start <= 1;
      assert toks[r.start].kind == Prop;
      assert r.start == 1;
      assert toks[r.start..r.end][0] == toks[1];
    }
    NoneIn(Rewritten(toks));
  }

  /** ... and the two that are left behind the blank are. */
  lemma {:induction false} RestIsSorted(lines: seq<Line>)
    requires Splittable(lines)
    ensures Run(3, 5) in Rewritten(Tokens(WithBlank(lines), 0))
  {
    hide Tokens, Rewritten, StackAt, WellFormed;
    SplitTokens(lines);
    var toks := Tokens(WithBlank(lines), 0);
    RewrittenFacts(toks);
    NoFrameAtAll(toks, 3);
    assert toks[3..5] == [toks[3], toks[4]];
    SwapTwo(toks[3], toks[4]);
  }

  /** On such lines the run puts a blank behind the body and a second run changes the file again. */
  lemma {:induction false} OneRunMayNotSettle(lines: seq<Line>)
    requires Splittable(lines)
    ensures Processed(lines, true) == WithBlank(lines)
    ensures Processed(Processed(lines, true), true) != Processed(lines, true)
  {
    hide Tokens, Rewritten, Unfenced, WellFormed, Insert, Fixed, Processed, IdPlacement.Verdicts, IdPlacement.Wanting;
    BlankAsked(lines);
    SplitTokens(lines);
    NothingSorted(lines);
    NoIdNoAsk(Tokens(lines, 0));
    UnchangedExactly(lines);
    ProcessedIs(lines);
    RestIsSorted(lines);
    SecondRun(lines, true);
  }

  lemma {:induction false} ProcessedIs(lines: seq<Line>)
    ensures PropertySort.Ordered(Rewritten(Tokens(lines, 0)), |Tokens(lines, 0)|)
    ensures Processed(lines, true) == Insert(Fixed(lines), Unfenced(Fixed(lines)), EMPTY)
  {
    hide Tokens, Rewritten, Unfenced, Insert, Fixed;
    RewrittenFacts(Tokens(lines, 0));
  }

  /** The same on four lines of text. */
  lemma {:induction false} OneRunLeavesWork()
    ensures var lines := DescribeAll([CONTROL, BODY, LONGER, SHORT]);
            && Texts(Processed(lines, true)) == [CONTROL, BODY, "", LONGER, SHORT]
            && Processed(Processed(lines, true), true) != Processed(lines, true)
  {
    hide Describe, Processed, WellFormed;
    var raws := [CONTROL, BODY, LONGER, SHORT];
    var lines := DescribeAll(raws);
    ControlSample();
    BodySample();
    LongerSample();
    ShortSample();
    LongerIsPlain();
    ShortIsPlain();
    forall k | 0 <= k < 4
      ensures WellFormed(lines[k]) && lines[k].text == raws[k]
    {
      DescribeWellFormed(raws[k]);
      DescribeKeepsText(raws[k]);
    }
    assert lines[0] == Describe(CONTROL) && lines[1] == Describe(BODY) && lines[2] == Describe(LONGER)
        && lines[3] == Describe(SHORT);
    assert |LONGER| == 13 && |SHORT| == 4;
    OneRunMayNotSettle(lines);
  }
}
