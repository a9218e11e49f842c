/** `process_file` on the lines of a covered file: describe every physical line, run the QML pass
    on QML files and the brace-free pass on all, and write the texts back. */
module SourceFile {
  import opened Lines
  import opened Inserts
  import opened Fences
  import opened Tokenizer
  import opened QmlPass
  import opened Retokenize
  import opened QmlStable
  import opened QmlSettles
  import IdPlacement
  import PropertySort
  import BraceFree

  /** The buffer the brace-free pass starts from. */
  ghost function AfterQml(lines: seq<Line>, isQml: bool): seq<Line> {
    if isQml then
      RewrittenFacts(Tokens(lines, 0));
      Fixed(lines)
    else lines
  }

  ghost function Processed(lines: seq<Line>, isQml: bool): seq<Line> {
    var buffer := AfterQml(lines, isQml);
    Insert(buffer, Unfenced(buffer), EMPTY)
  }

  /** The three change flags of the source: a run sorted, an id blank asked for, a body blank asked for. */
  ghost predicate Flags(lines: seq<Line>, isQml: bool) {
    var toks := Tokens(lines, 0);
    || (isQml && Rewritten(toks) != [])
    || (isQml && IdPlacement.BlanksAfter(toks, IdPlacement.Verdicts(toks, 0, [])) != [])
    || Unfenced(AfterQml(lines, isQml)) != {}
  }

  method ProcessFile(raws: seq<string>, isQml: bool) returns (newRaws: seq<string>, changed: bool)
    ensures newRaws == Texts(Processed(DescribeAll(raws), isQml))
    ensures changed <==> newRaws != raws
  {
    hide Insert, Fixed, Unfenced, Describe, Tokens, Rewritten, IdPlacement.BlanksAfter, IdPlacement.Verdicts;
    var lines := DescribeAll(raws);
    var buffer := lines;
    var qmlChanged, idChanged := false, false;
    if isQml {
      var violations, unsorted, blanks;
      violations, unsorted, blanks, buffer := Process(lines);
      qmlChanged, idChanged := unsorted != [], blanks != [];
    }
    var out, bfChanged := BraceFreePass(buffer);
    newRaws := Texts(out);
    changed := qmlChanged || idChanged || bfChanged;
    TextChanges(raws, isQml);
  }

  // ----- The flags tell whether a line changed -----

  lemma {:induction false} NoBlankNoneAsked(toks: seq<Token>, verdicts: seq<IdPlacement.Verdict>)
    ensures IdPlacement.BlanksAfter(toks, verdicts) == [] <==> IdPlacement.Wanting(verdicts) == {}
  {
    if verdicts != [] {
      NoBlankNoneAsked(toks, verdicts[1..]);
      assert verdicts[0].NeedsBlank? ==> verdicts[0].k in IdPlacement.Wanting(verdicts);
    }
  }

  lemma {:induction false} NeverShorter(lines: seq<Line>, isQml: bool)
    requires AllWellFormed(lines)
    ensures |lines| <= |AfterQml(lines, isQml)| <= |Processed(lines, isQml)|
    ensures Unfenced(AfterQml(lines, isQml)) != {} ==> |AfterQml(lines, isQml)| < |Processed(lines, isQml)|
  {
    hide Insert, Fixed, Unfenced, AllWellFormed, Rewritten, Tokens, SortedBuffer, Asked, Pos;
    var buffer := AfterQml(lines, isQml);
    if isQml {
      SortedBufferFacts(lines);
      InsertLength(SortedBuffer(lines), Asked(lines), EMPTY);
    }
    InsertLength(buffer, Unfenced(buffer), EMPTY);
    if e :| e in Unfenced(buffer) {
      UnfencedInside(buffer, e);
      Longer(buffer, Unfenced(buffer), e);
    }
  }

  lemma {:induction false} UnfencedInside(lines: seq<Line>, e: nat)
    requires e in Unfenced(lines)
    ensures e + 1 < |lines|
  {
    hide BraceFree.Scan;
    BraceFree.ScanBounds(lines, 0, e);
    BraceFree.ScanFlagged(lines, 0, e);
  }

  /** The whole run leaves every line as it is if and only if no run is sorted and no blank asked for. */
  lemma {:induction false} UnchangedRun(lines: seq<Line>, isQml: bool)
    requires AllWellFormed(lines)
    ensures Processed(lines, isQml) == lines <==> !Flags(lines, isQml)
  {
    hide Insert, Fixed, Unfenced, AllWellFormed, Rewritten, Tokens, IdPlacement.BlanksAfter, IdPlacement.Verdicts,
      IdPlacement.Wanting;
    var buffer := AfterQml(lines, isQml);
    NeverShorter(lines, isQml);
    BraceFree.NothingToInsert(buffer, EMPTY);
    if isQml {
      UnchangedExactly(lines);
      NoBlankNoneAsked(Tokens(lines, 0), IdPlacement.Verdicts(Tokens(lines, 0), 0, []));
    }
  }

  lemma {:induction false} TextChanges(raws: seq<string>, isQml: bool)
    ensures Texts(Processed(DescribeAll(raws), isQml)) != raws <==> Flags(DescribeAll(raws), isQml)
  {
    hide Describe, Processed, Flags;
    var lines := DescribeAll(raws);
    var out := Processed(lines, isQml);
    DescribedInput(raws);
    DescribedIsWellFormed(lines);
    UnchangedRun(lines, isQml);
    ProcessedIsDescribed(raws, isQml);
    assert Texts(out) == raws ==> out == lines;
    forall k | 0 <= k < |raws|
      ensures lines[k].text == raws[k]
    {
      DescribeKeepsText(raws[k]);
    }
    assert Texts(lines) == raws;
  }

  // ----- Conservation -----

  lemma {:induction false} InsertedLines(lines: seq<Line>, at: set<nat>)
    requires Described(lines)
    ensures Described(Insert(lines, at, EMPTY))
  {
    hide Insert, Describe, Pos;
    var out := Insert(lines, at, EMPTY);
    forall p | 0 <= p < |out|
      ensures out[p] == Describe(out[p].text)
    {
      var k := Origin(lines, at, EMPTY, p);
      InsertAt(lines, at, EMPTY, k);
      EmptyIsDescribed();
    }
  }

  lemma {:induction false} SortedLines(lines: seq<Line>)
    requires Described(lines)
    ensures PropertySort.Ordered(Rewritten(Tokens(lines, 0)), |Tokens(lines, 0)|)
    ensures multiset(Flatten(Sorted(Tokens(lines, 0)))) == multiset(lines)
    ensures Described(Flatten(Sorted(Tokens(lines, 0))))
  {
    hide Describe, Tokens, Rewritten, Flatten;
    var toks := Tokens(lines, 0);
    SortPermutesLines(toks);
    TokensPartition(lines, 0);
    assert lines[0..] == lines;
    var out := Flatten(Sorted(toks));
    forall p | 0 <= p < |out|
      ensures out[p] == Describe(out[p].text)
    {
      assert out[p] in multiset(out);
      assert out[p] in lines;
    }
  }

  /** The positions of `gone` are empty lines, and without them `buffer` is a permutation of `lines`. */
  ghost predicate AddsBlanks(buffer: seq<Line>, gone: set<nat>, lines: seq<Line>) {
    BlankAt(buffer, gone) && multiset(Delete(buffer, gone)) == multiset(lines)
  }

  ghost predicate BlankAt(lines: seq<Line>, at: set<nat>) {
    forall p :: p in at ==> p < |lines| && lines[p] == EMPTY
  }

  lemma {:induction false} InsertedAreBlank(lines: seq<Line>, at: set<nat>)
    ensures BlankAt(Insert(lines, at, EMPTY), Inserted(at, |lines|))
  {
    hide Insert, Pos;
    forall p | p in Inserted(at, |lines|)
      ensures p < |Insert(lines, at, EMPTY)| && Insert(lines, at, EMPTY)[p] == EMPTY
    {
      var k :| k in at && k < |lines| && p == Pos(at, k) + 1;
      InsertAt(lines, at, EMPTY, k);
      PosStep(at, k);
    }
  }

  /** Nothing is lost and only empty lines are added: two sets of positions that hold empty lines
      can be deleted from the output so that a permutation of the input is left, the input itself
      when the file is not QML. Running the brace-free pass again changes nothing. */
  lemma {:induction false} ProcessConserves(raws: seq<string>, isQml: bool)
    ensures var lines := DescribeAll(raws);
            var buffer := AfterQml(lines, isQml);
            var out := Processed(lines, isQml);
            var added := Inserted(Unfenced(buffer), |buffer|);
            && BlankAt(out, added) && Delete(out, added) == buffer
            && (!isQml ==> buffer == lines)
            && (isQml ==> exists gone :: AddsBlanks(buffer, gone, lines))
            && DescribeAll(Texts(out)) == out
            && Insert(out, Unfenced(out), EMPTY) == out
  {
    hide Describe, Insert, Unfenced, Delete, Tokens, Rewritten, Inserted, Flatten, Described, AllWellFormed, BlankAt;
    var lines := DescribeAll(raws);
    var buffer := AfterQml(lines, isQml);
    var out := Processed(lines, isQml);
    DescribedInput(raws);
    if isQml {
      RewrittenFacts(Tokens(lines, 0));
      SortedLines(lines);
      var sorted := Flatten(Sorted(Tokens(lines, 0)));
      var at := Elements(IdPlacement.BlanksAfter(Tokens(lines, 0), IdPlacement.Verdicts(Tokens(lines, 0), 0, [])));
      InsertedLines(sorted, at);
      DeleteInserted(sorted, at, EMPTY);
      InsertedAreBlank(sorted, at);
      assert AddsBlanks(buffer, Inserted(at, |sorted|), lines);
    }
    DescribedIsWellFormed(buffer);
    PassIsStable(buffer);
    InsertedAreBlank(buffer, Unfenced(buffer));
    InsertedLines(buffer, Unfenced(buffer));
    DescribedAgain(out);
  }

  lemma {:induction false} ProcessedIsDescribed(raws: seq<string>, isQml: bool)
    ensures var lines, out := DescribeAll(raws), Processed(DescribeAll(raws), isQml);
            Described(lines) && Described(out) && DescribeAll(Texts(out)) == out
  {
    hide Describe, Insert, Unfenced, Delete, Inserted, Described, BlankAt, AddsBlanks;
    DescribedInput(raws);
    ProcessConserves(raws, isQml);
    DescribedInput(Texts(Processed(DescribeAll(raws), isQml)));
  }

  /** Running the whole driver on its own output changes nothing if and only if the output, with the body blanks in it,
      gives the QML pass no run to sort and no `id:` that asks for a blank. */
  lemma {:induction false} SecondRun(lines: seq<Line>, isQml: bool)
    requires AllWellFormed(lines)
    ensures var out := Processed(lines, isQml);
            var toks := Tokens(out, 0);
            Processed(out, isQml) == out
            <==> (isQml ==> Rewritten(toks) == [] && IdPlacement.Wanting(IdPlacement.Verdicts(toks, 0, [])) == {})
  {
    hide Insert, Fixed, Unfenced, AllWellFormed, Rewritten, Tokens, IdPlacement.BlanksAfter, IdPlacement.Verdicts,
      IdPlacement.Wanting;
    var buffer, out := AfterQml(lines, isQml), Processed(lines, isQml);
    if isQml { FixedWellFormed(lines); }
    InsertedWellFormed(buffer, Unfenced(buffer));
    PassIsStable(buffer);
    UnchangedRun(out, isQml);
    NoBlankNoneAsked(Tokens(out, 0), IdPlacement.Verdicts(Tokens(out, 0), 0, []));
    if isQml { UnchangedExactly(out); }
  }

  /** The tokens behind whose last lines the body blanks go. */
  ghost function BlankTokens(toks: seq<Token>, at: set<nat>): set<nat> {
    set k | 0 <= k < |toks| && IdPlacement.LastLine(toks, k) in at
  }

  /** Every body blank goes behind the last line of a logical line. */
  ghost predicate BetweenTokens(toks: seq<Token>, at: set<nat>) {
    forall e :: e in at ==> EndsToken(toks, e)
  }

  ghost predicate EndsToken(toks: seq<Token>, e: nat) {
    exists k :: 0 <= k < |toks| && IdPlacement.LastLine(toks, k) == e
  }

  lemma {:induction false} BlanksBetween(lines: seq<Line>, at: set<nat>)
    requires AllWellFormed(lines) && BetweenTokens(Tokens(lines, 0), at)
    ensures var toks := Tokens(lines, 0);
            Tokens(Insert(lines, at, EMPTY), 0)
            == Restart(Insert(toks, BlankTokens(toks, at), IdPlacement.BLANK_TOKEN))
  {
    hide Tokens, Insert, Flatten, Ends, Grouped, StopsAt, IdPlacement.TokensWellFormed, Restart;
    var toks := Tokens(lines, 0);
    var chosen := BlankTokens(toks, at);
    TokensSound(lines);
    TokensPartition(lines, 0);
    assert lines[0..] == lines;
    forall k | 0 <= k < |toks|
      ensures toks[k].raws != []
    {
      GroupedNonEmpty(toks[k]);
    }
    forall e: nat
      ensures e in at <==> e in Ends(toks, chosen)
    {
      EndsAre(toks, chosen, e);
      if e in at {
        assert EndsToken(toks, e);
        var k :| 0 <= k < |toks| && IdPlacement.LastLine(toks, k) == e;
        assert k in chosen;
      }
    }
    assert at == Ends(toks, chosen);
    BlanksRetokenize(toks, chosen);
  }

  lemma {:induction false} RestartRuns(toks: seq<Token>)
    ensures Rewritten(Restart(toks)) == [] <==> Rewritten(toks) == []
  {
    hide Rewritten, Restart, Alike, PropertySort.IsRun, PropertySort.Eligible;
    RewrittenFacts(toks);
    RewrittenFacts(Restart(toks));
    RestartAlike(toks);
    AlikeBack(toks, Restart(toks));
    if Rewritten(toks) != [] {
      assert Rewritten(toks)[0] in Rewritten(toks);
      RunAlike(toks, Restart(toks), Rewritten(toks)[0]);
    }
    if Rewritten(Restart(toks)) != [] {
      assert Rewritten(Restart(toks))[0] in Rewritten(Restart(toks));
      RunAlike(Restart(toks), toks, Rewritten(Restart(toks))[0]);
    }
  }

  lemma {:induction false} RunAlike(xs: seq<Token>, ys: seq<Token>, r: PropertySort.Run)
    requires Alike(xs, ys) && PropertySort.IsRun(xs, r) && PropertySort.Eligible(xs, r)
    ensures PropertySort.IsRun(ys, r) && PropertySort.Eligible(ys, r)
  {
    hide PropertySort.StackAt, PropertySort.Eligible;
    AlikeRun(xs, ys, r);
    assert SameLines(xs, r, ys, r);
    EligibleMoves(xs, r, ys, r);
  }

  /** When every body blank goes between two logical lines, the test can be made before any of them is written: on the
      tokens of the buffer the QML pass left, with blank tokens at those places. */
  lemma {:induction false} SecondRunBetween(lines: seq<Line>)
    requires AllWellFormed(lines)
    requires var buffer := AfterQml(lines, true); BetweenTokens(Tokens(buffer, 0), Unfenced(buffer))
    ensures var buffer, out := AfterQml(lines, true), Processed(lines, true);
            var toks := Tokens(buffer, 0);
            var more := Insert(toks, BlankTokens(toks, Unfenced(buffer)), IdPlacement.BLANK_TOKEN);
            Processed(out, true) == out
            <==> Rewritten(more) == [] && IdPlacement.Wanting(IdPlacement.Verdicts(more, 0, [])) == {}
  {
    hide Insert, Fixed, Unfenced, AllWellFormed, Rewritten, Tokens, IdPlacement.Verdicts, IdPlacement.Wanting, Restart,
      BetweenTokens, BlankTokens, SameShape;
    var buffer := AfterQml(lines, true);
    FixedWellFormed(lines);
    BlanksBetween(buffer, Unfenced(buffer));
    var more := Insert(Tokens(buffer, 0), BlankTokens(Tokens(buffer, 0), Unfenced(buffer)), IdPlacement.BLANK_TOKEN);
    RestartRuns(more);
    RestartShape(more);
    VerdictsSame(Restart(more), more, 0, []);
    SecondRun(lines, true);
  }

  // ----- The last line -----

  lemma {:induction false} AskedInside(lines: seq<Line>, e: nat)
    requires AllWellFormed(lines) && e in Asked(lines)
    ensures e + 1 < |lines|
  {
    hide Tokens, Asked, Rewritten, PropertySort.Rewrite, SortedBuffer;
    var k := AskedToken(lines, e);
    SortedAt(lines, k);
    SortedAt(lines, k + 1);
  }

  /** The sort keeps the last line, or puts another property in the place of one. */
  lemma {:induction false} SortedLast(lines: seq<Line>)
    requires AllWellFormed(lines) && lines != []
    ensures |SortedBuffer(lines)| == |lines|
    ensures var sorted, n := SortedBuffer(lines), |lines| - 1;
            sorted[n] == lines[n] || sorted[n].kind == lines[n].kind == Prop
  {
    hide Tokens, Rewritten, PropertySort.Rewrite, SortedBuffer, Flatten, PropertySort.Covered, Grouped, StopsAt,
      IdPlacement.TokensWellFormed;
    var toks := Tokens(lines, 0);
    TokensPartition(lines, 0);
    assert lines[0..] == lines;
    TokensSound(lines);
    FlattenSize(toks);
    SomeToken(lines);
    var k := |toks| - 1;
    WholeSize(toks, k);
    SortedAt(lines, k);
    RawsInBuffer(toks, k);
    SortedToken(toks, k);
    var p := Size(toks[..k]);
    assert lines[|lines| - 1] == lines[p..|lines|][|toks[k].raws| - 1];
    assert SortedBuffer(lines)[|lines| - 1] == SortedBuffer(lines)[p..|lines|][|toks[k].raws| - 1];
    if PropertySort.Covered(Rewritten(toks), k) {
      var m :| 0 <= m < |toks| && PropertySort.Covered(Rewritten(toks), m) && toks[m] == Sorted(toks)[k];
      IdLine(toks[k]);
      IdLine(toks[m]);
    }
  }

  lemma {:induction false} SomeToken(lines: seq<Line>)
    requires lines != []
    ensures Tokens(lines, 0) != []
  {
    hide Tokens;
    TokensStep(lines, 0);
  }

  lemma {:induction false} InsideKeepsLast(lines: seq<Line>, at: set<nat>)
    requires lines != [] && forall e :: e in at ==> e + 1 < |lines|
    ensures var out := Insert(lines, at, EMPTY);
            && out != [] && out[|out| - 1] == lines[|lines| - 1]
            && (|lines| == 1 ==> |out| == 1)
  {
    hide Insert;
    InsertLast(lines, at, EMPTY);
    assert |lines| == 1 ==> lines[..|lines| - 1] == [];
    InsertLength(lines[..|lines| - 1], at, EMPTY);
    PosZero(at);
  }

  /** No blank is put behind the last line, and the sort leaves it or puts a property for a property there. */
  lemma {:induction false} LastLineStays(lines: seq<Line>, isQml: bool)
    requires AllWellFormed(lines) && lines != []
    ensures var out := Processed(lines, isQml);
            && out != [] && (|lines| == 1 ==> |out| == 1)
            && var last, was := out[|out| - 1], lines[|lines| - 1];
               last == was || last.kind == was.kind == Prop
  {
    hide Insert, Unfenced, AllWellFormed, Tokens, Rewritten, SortedBuffer, Asked, Fixed;
    var buffer := AfterQml(lines, isQml);
    if isQml {
      SortedBufferFacts(lines);
      SortedLast(lines);
      forall e | e in Asked(lines) ensures e + 1 < |lines| { AskedInside(lines, e); }
      InsideKeepsLast(SortedBuffer(lines), Asked(lines));
    }
    forall e | e in Unfenced(buffer) ensures e + 1 < |buffer| { UnfencedInside(buffer, e); }
    InsideKeepsLast(buffer, Unfenced(buffer));
  }

  lemma {:induction false} NothingToProcess(isQml: bool)
    ensures Processed([], isQml) == []
  {
    hide Insert, Unfenced, Tokens, Rewritten, SortedBuffer, Asked, Fixed, Pos;
    var none: seq<Line> := [];
    var buffer := AfterQml(none, isQml);
    if isQml {
      SortedBufferFacts(none);
      InsertLength(SortedBuffer(none), Asked(none), EMPTY);
      PosZero(Asked(none));
    }
    InsertLength(buffer, Unfenced(buffer), EMPTY);
    PosZero(Unfenced(buffer));
  }
}
