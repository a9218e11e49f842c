/** Exactly when one QML pass is enough, also when a sorted property takes in the line behind it: a test on
    the sorted buffer, made before any blank is written. */
module QmlSettles {
  import opened Lines
  import opened Inserts
  import opened Tokenizer
  import opened PropertySort
  import opened IdPlacement
  import opened Retokenize
  import opened QmlPass
  import opened QmlStable

  /** The buffer after the sort, before the blanks. */
  ghost function SortedBuffer(lines: seq<Line>): seq<Line> {
    RewrittenFacts(Tokens(lines, 0));
    Flatten(Sorted(Tokens(lines, 0)))
  }

  /** The lines behind which the first check asks for a blank. */
  ghost function Asked(lines: seq<Line>): set<nat> {
    Elements(BlanksAfter(Tokens(lines, 0), Verdicts(Tokens(lines, 0), 0, [])))
  }

  /** The `id:` tokens that start on an asked line. */
  function AskedTokens(toks: seq<Token>, asked: set<nat>): set<nat> {
    set k | 0 <= k < |toks| && toks[k].kind == Id && toks[k].start in asked
  }

  /** In the sorted buffer every asking `id:` still starts a logical line. */
  ghost predicate AsksSurvive(lines: seq<Line>) {
    forall p :: p in Asked(lines) ==> StartsId(Tokens(SortedBuffer(lines), 0), p)
  }

  ghost predicate StartsId(toks: seq<Token>, p: nat) {
    exists k :: 0 <= k < |toks| && toks[k].kind == Id && toks[k].start == p
  }

  lemma {:induction false} SortedBufferFacts(lines: seq<Line>)
    requires AllWellFormed(lines)
    ensures AllWellFormed(SortedBuffer(lines)) && |SortedBuffer(lines)| == |lines|
    ensures Ordered(Rewritten(Tokens(lines, 0)), |Tokens(lines, 0)|)
    ensures Fixed(lines) == Insert(SortedBuffer(lines), Asked(lines), EMPTY)
  {
    hide Tokens, Rewritten, Rewrite, Insert, WellFormed, Flatten, Elements, BlanksAfter, Verdicts;
    var toks := Tokens(lines, 0);
    SortPermutesLines(toks);
    TokensPartition(lines, 0);
    assert lines[0..] == lines;
    var sorted := Flatten(Sorted(toks));
    assert |multiset(sorted)| == |multiset(lines)|;
    forall k | 0 <= k < |sorted|
      ensures WellFormed(sorted[k])
    {
      assert sorted[k] in multiset(sorted);
      assert sorted[k] in lines;
    }
  }

  /** A property run of a list is one of the list with blanks behind ids. */
  lemma {:induction false} RunMovesOn(toks: seq<Token>, at: set<nat>, q: Run) returns (r: Run)
    requires forall j :: j in at && j < |toks| ==> toks[j].kind == Id
    requires IsRun(toks, q)
    ensures IsRun(Insert(toks, at, BLANK_TOKEN), r) && SameLines(toks, q, Insert(toks, at, BLANK_TOKEN), r)
  {
    hide Insert, StackAt, Pos, SameLines;
    var out := Insert(toks, at, BLANK_TOKEN);
    var n := q.end - q.start;
    BlockMovesOn(toks, at, q.start, n);
    r := Run(Pos(at, q.start), Pos(at, q.start) + n);
    StackMoves(toks, at, q.start);
    if q.start > 0 {
      InsertAt(toks, at, BLANK_TOKEN, q.start - 1);
      PosStep(at, q.start - 1);
      assert out[r.start - 1].kind != Prop;
    } else {
      PosZero(at);
    }
  }

  /** Consecutive properties stay consecutive. */
  lemma {:induction false} BlockMovesOn(toks: seq<Token>, at: set<nat>, a: nat, m: nat)
    requires forall j :: j in at && j < |toks| ==> toks[j].kind == Id
    requires 1 <= m && a + m <= |toks| && forall k :: a <= k < a + m ==> toks[k].kind == Prop
    ensures var out := Insert(toks, at, BLANK_TOKEN);
            && Pos(at, a + m) == Pos(at, a) + m <= |out|
            && (forall k :: Pos(at, a) <= k < Pos(at, a) + m ==> out[k].kind == Prop)
            && SameLines(toks, Run(a, a + m), out, Run(Pos(at, a), Pos(at, a) + m))
            && (a + m < |toks| ==> Pos(at, a) + m < |out| && out[Pos(at, a) + m] == toks[a + m])
            && (a + m == |toks| <==> Pos(at, a) + m == |out|)
    decreases m
  {
    hide Insert, Pos;
    InsertAt(toks, at, BLANK_TOKEN, a);
    if m > 1 {
      BlockMovesOn(toks, at, a, m - 1);
    }
    NextStep(toks, at, a + m - 1);
    if a + m < |toks| {
      InsertAt(toks, at, BLANK_TOKEN, a + m);
    }
  }

  /** Blanks behind ids neither make nor unmake a run to sort. */
  lemma {:induction false} BlanksKeepRuns(toks: seq<Token>, at: set<nat>)
    requires forall j :: j in at && j < |toks| ==> toks[j].kind == Id
    ensures Rewritten(Restart(Insert(toks, at, BLANK_TOKEN))) == [] <==> Rewritten(toks) == []
  {
    hide Rewritten, Insert, Restart, IsRun, Eligible, Alike, SameLines;
    var plain := Insert(toks, at, BLANK_TOKEN);
    var out := Restart(plain);
    RewrittenFacts(out);
    RewrittenFacts(toks);
    RestartAlike(plain);
    if Rewritten(out) != [] {
      var r := Rewritten(out)[0];
      assert r in Rewritten(out);
      AlikeRun(out, plain, r);
      var q := RunMovesBack(toks, at, r);
      RestartLines(plain, r, toks, q);
      EligibleMoves(out, r, toks, q);
      assert q in Rewritten(toks);
    }
    if Rewritten(toks) != [] {
      var q := Rewritten(toks)[0];
      assert q in Rewritten(toks);
      var r := RunMovesOn(toks, at, q);
      AlikeBack(plain, out);
      AlikeRun(plain, out, r);
      LinesRestart(toks, q, plain, r);
      EligibleMoves(toks, q, out, r);
      assert r in Rewritten(out);
    }
  }

  lemma {:induction false} AlikeBack(xs: seq<Token>, ys: seq<Token>)
    requires Alike(ys, xs)
    ensures Alike(xs, ys)
  {
  }

  lemma {:induction false} LinesRestart(xs: seq<Token>, r: Run, ys: seq<Token>, q: Run)
    requires SameLines(xs, r, ys, q)
    ensures SameLines(xs, r, Restart(ys), q)
  {
  }

  /** The tokens of the fixed buffer: those of the sorted buffer, with blank tokens behind the asking ids. */
  lemma {:induction false} FixedRetokenizes(lines: seq<Line>)
    requires AllWellFormed(lines) && AsksSurvive(lines)
    ensures Ordered(Rewritten(Tokens(lines, 0)), |Tokens(lines, 0)|)
    ensures var toks := Tokens(SortedBuffer(lines), 0);
            Tokens(Fixed(lines), 0) == Restart(Insert(toks, AskedTokens(toks, Asked(lines)), BLANK_TOKEN))
  {
    hide Tokens, Rewritten, Rewrite, Insert, AllWellFormed, SortedBuffer, Asked, Flatten, Ends, Grouped, StopsAt, Restart,
      Fixed;
    var sorted := SortedBuffer(lines);
    var toks := Tokens(sorted, 0);
    var asked := Asked(lines);
    var at := AskedTokens(toks, asked);
    SortedBufferFacts(lines);
    TokensSound(sorted);
    TokensPartition(sorted, 0);
    assert sorted[0..] == sorted;
    forall k | 0 <= k < |toks|
      ensures toks[k].raws != [] && (toks[k].kind == Id ==> |toks[k].raws| == 1)
    {
      GroupedNonEmpty(toks[k]);
      if toks[k].kind == Id { IdIsOneLine(toks[k]); }
    }
    forall p: nat
      ensures p in asked <==> p in Ends(toks, at)
    {
      EndsAre(toks, at, p);
    }
    assert asked == Ends(toks, at);
    BlanksRetokenize(toks, at);
  }

  lemma {:induction false} IdIsOneLine(t: Token)
    requires Grouped(t) && t.kind == Id
    ensures |t.raws| == 1
  {
  }

  /** What the second pass finds. Its id check says of the tokens of the sorted buffer what the first one would, with
      the asked blanks in place, so it asks for a blank exactly when that list asks for another one; and it finds a
      run to sort exactly when that list has one. */
  lemma {:induction false} SecondPassFinds(lines: seq<Line>)
    requires AllWellFormed(lines) && AsksSurvive(lines)
    ensures Ordered(Rewritten(Tokens(lines, 0)), |Tokens(lines, 0)|)
    ensures var toks := Tokens(SortedBuffer(lines), 0);
            var at := AskedTokens(toks, Asked(lines));
            var after := Verdicts(Tokens(Fixed(lines), 0), 0, []);
            && after == AllAfter(at, Verdicts(toks, 0, []))
            && (Wanting(after) == {} <==> Wanting(Verdicts(toks, 0, [])) <= at)
            && (Rewritten(Tokens(Fixed(lines), 0)) == [] <==> Rewritten(toks) == [])
  {
    hide Tokens, Verdicts, Rewritten, Rewrite, Wanting, Insert, AllWellFormed, Fixed, SortedBuffer, Asked, AsksSurvive,
      Grouped, StopsAt, TokensWellFormed, SameShape, AllAfter, Restart;
    var sorted := SortedBuffer(lines);
    var toks := Tokens(sorted, 0);
    var at := AskedTokens(toks, Asked(lines));
    SortedBufferFacts(lines);
    FixedRetokenizes(lines);
    TokensSound(sorted);
    BlanksKeepRuns(toks, at);
    var out := Insert(toks, at, BLANK_TOKEN);
    VerdictsMove(toks, at, 0, []);
    PosZero(at);
    assert MoveStack(at, []) == [];
    RestartShape(out);
    VerdictsSame(Restart(out), out, 0, []);
    WantingAfter(at, Verdicts(toks, 0, []));
  }

  /** Main result: when every asking `id:` still starts a logical line of the sorted buffer, a second pass changes
      nothing if and only if that buffer holds no run to sort and asks for no blank but the asked ones. */
  lemma {:induction false} OnePassSettles(lines: seq<Line>)
    requires AllWellFormed(lines) && AsksSurvive(lines)
    ensures Ordered(Rewritten(Tokens(lines, 0)), |Tokens(lines, 0)|)
    ensures Ordered(Rewritten(Tokens(Fixed(lines), 0)), |Tokens(Fixed(lines), 0)|)
    ensures var toks := Tokens(SortedBuffer(lines), 0);
            Fixed(Fixed(lines)) == Fixed(lines)
            <==> Rewritten(toks) == [] && Wanting(Verdicts(toks, 0, [])) <= AskedTokens(toks, Asked(lines))
  {
    hide Tokens, Verdicts, Rewritten, Wanting, AllWellFormed, Fixed, SortedBuffer, Asked, AsksSurvive, AllAfter,
      AskedTokens;
    SecondPassFinds(lines);
    FixedWellFormed(lines);
    UnchangedExactly(Fixed(lines));
  }

  lemma {:induction false} AskedToken(lines: seq<Line>, p: nat) returns (k: nat)
    requires AllWellFormed(lines) && p in Asked(lines)
    ensures var toks := Tokens(lines, 0);
            k + 1 < |toks| && toks[k].kind == Id && toks[k].start == p && |toks[k].raws| == 1
  {
    hide Tokens, Verdicts, BlanksAfter, Grouped, StopsAt, TokensWellFormed;
    var toks := Tokens(lines, 0);
    var verdicts := Verdicts(toks, 0, []);
    BlanksAfterAre(toks, verdicts, p);
    k :| NeedsBlank(k) in verdicts && p == LastLine(toks, k);
    WantingIds(toks, 0, [], k);
    TokensSound(lines);
    IdIsOneLine(toks[k]);
  }

  // ----- Runs whose lines balance their brackets -----

  /** Every line of a rewritten run balances its brackets. */
  predicate BalancedRuns(toks: seq<Token>) {
    forall r :: r in Rewritten(toks) ==> forall k :: r.start <= k < r.end && k < |toks| ==> Head(toks[k]).brackets == 0
  }

  /** Some logical line of the buffer starts at `p`, or the buffer ends there. */
  ghost predicate Starts(lines: seq<Line>, p: nat)
    requires p <= |lines|
  {
    exists j :: 0 <= j <= |Tokens(lines, 0)| && Tokens(lines, 0)[j..] == Tokens(lines, p)
  }

  lemma {:induction false} StartsFirst(lines: seq<Line>)
    ensures Starts(lines, 0)
  {
    hide Tokens;
    assert Tokens(lines, 0)[0..] == Tokens(lines, 0);
  }

  lemma {:induction false} StartsNext(lines: seq<Line>, i: nat)
    requires i < |lines| && Starts(lines, i)
    ensures Starts(lines, TokenEnd(lines, i))
  {
    hide Tokens, TokenEnd;
    var j :| 0 <= j <= |Tokens(lines, 0)| && Tokens(lines, 0)[j..] == Tokens(lines, i);
    TokensStep(lines, i);
    assert Tokens(lines, 0)[j..][1..] == Tokens(lines, 0)[j + 1..];
  }

  /** Logical lines that start before `p` and never reach over it leave `p` a start. */
  lemma {:induction false} StartsAt(lines: seq<Line>, i: nat, p: nat)
    requires i <= p <= |lines| && Starts(lines, i)
    requires forall x :: i <= x < p ==> TokenEnd(lines, x) <= p
    ensures Starts(lines, p)
    decreases p - i
  {
    hide Starts, TokenEnd;
    if i < p {
      StartsNext(lines, i);
      StartsAt(lines, TokenEnd(lines, i), p);
    }
  }

  /** Nothing at depth 0 takes in `next`, whatever it ends on. */
  predicate Bars(next: Line) {
    next.kind == Blank || next.brackets < 0
  }

  lemma {:induction false} ExtendBarred(lines: seq<Line>, j: nat, last: Line, inner: bool, p: nat)
    requires j <= p <= |lines| && forall x :: j <= x < p ==> lines[x].brackets == 0
    requires p == |lines| || Bars(lines[p])
    ensures Extend(lines, j, 0, last, inner) <= p
    decreases p - j
  {
    if j < p {
      ExtendBarred(lines, j + 1, lines[j], true, p);
    }
  }

  /** Balanced lines up to `p` never reach over it, when what stands there bars them, or when no line of them ends on an
      operator and none of what follows continues. */
  lemma {:induction false} NeverOver(lines: seq<Line>, i: nat, p: nat)
    requires i <= p <= |lines| && forall x :: i <= x < p ==> lines[x].brackets == 0 && lines[x].kind == Prop
    requires forall x :: i <= x < p ==> !lines[x].continues
    requires p == |lines| || Bars(lines[p]) ||
             (!lines[p].continues && forall x :: i <= x < p ==> !lines[x].trailing)
    ensures forall x :: i <= x < p ==> TokenEnd(lines, x) <= p
  {
    forall x | i <= x < p
      ensures TokenEnd(lines, x) <= p
    {
      if p == |lines| || Bars(lines[p]) {
        ExtendBarred(lines, x + 1, lines[x], false, p);
      }
    }
  }

  /** A token list's sorted form has its lines at the same offsets. */
  lemma {:induction false} SortedAt(lines: seq<Line>, k: nat)
    requires AllWellFormed(lines) && k < |Tokens(lines, 0)|
    ensures var toks := Tokens(lines, 0);
            && Ordered(Rewritten(toks), |toks|)
            && var p := Size(toks[..k]);
               && toks[k].start == p
               && p + |toks[k].raws| == Size(toks[..k + 1]) <= |lines| == |SortedBuffer(lines)|
               && |toks[k].raws| > 0
               && SortedBuffer(lines)[p..p + |toks[k].raws|] == Sorted(toks)[k].raws
               && |Sorted(toks)[k].raws| == |toks[k].raws|
  {
    hide Tokens, Rewritten, Rewrite, Flatten, Grouped;
    var toks := Tokens(lines, 0);
    SortedBufferFacts(lines);
    TokensPartition(lines, 0);
    assert lines[0..] == lines;
    PartitionAt(toks, 0, k);
    GroupedNonEmpty(toks[k]);
    SortKeepsSizes(toks, k);
    RawsInBuffer(toks, k);
    RawsInBuffer(Sorted(toks), k);
    assert toks[..k + 1][..k] == toks[..k];
  }

  /** The line behind token `k` in the sorted buffer is not taken in, when it was not taken in before. */
  lemma {:induction false} OutsideEnds(lines: seq<Line>, k: nat)
    requires AllWellFormed(lines) && BalancedRuns(Tokens(lines, 0))
    requires k < |Tokens(lines, 0)| && !Covered(Rewritten(Tokens(lines, 0)), k)
    ensures var p := Size(Tokens(lines, 0)[..k]);
            && p < |SortedBuffer(lines)|
            && TokenEnd(SortedBuffer(lines), p) == Size(Tokens(lines, 0)[..k + 1])
  {
    hide Tokens, Rewritten, Rewrite, Flatten, Grouped, Stops, Covered, BalancedRuns, SortedBuffer, Extend;
    var toks := Tokens(lines, 0);
    var sorted := SortedBuffer(lines);
    var p := Size(toks[..k]);
    var t := toks[k];
    SortedAt(lines, k);
    SortedToken(toks, k);
    TokensSound(lines);
    var e := p + |t.raws|;
    if e < |sorted| {
      StopsStill(lines, k);
    }
    TokenEndIs(sorted, p, t);
  }

  lemma {:induction false} TokenEndIs(lines: seq<Line>, p: nat, t: Token)
    requires Grouped(t) && p + |t.raws| <= |lines| && lines[p..p + |t.raws|] == t.raws
    requires p + |t.raws| < |lines| ==> Stops(t, lines[p + |t.raws|])
    ensures TokenEnd(lines, p) == p + |t.raws|
  {
    assert lines[p] == t.raws[0];
    if Grows(t.kind) {
      assert t.raws[..1] == [lines[p]];
      DepthOfOne(lines[p]);
      ExtendMeets(lines, p, t, 1);
    }
  }

  lemma {:induction false} StopsStill(lines: seq<Line>, k: nat)
    requires AllWellFormed(lines) && BalancedRuns(Tokens(lines, 0))
    requires k < |Tokens(lines, 0)| && !Covered(Rewritten(Tokens(lines, 0)), k)
    requires Size(Tokens(lines, 0)[..k + 1]) < |SortedBuffer(lines)|
    ensures |Tokens(lines, 0)[k].raws| > 0
    ensures Stops(Tokens(lines, 0)[k], SortedBuffer(lines)[Size(Tokens(lines, 0)[..k + 1])])
  {
    hide Tokens, Rewritten, Rewrite, Flatten, Grouped, Stops, Covered, BalancedRuns, SortedBuffer;
    var toks := Tokens(lines, 0);
    SortedAt(lines, k);
    TokensSound(lines);
    MoreTokens(lines, k);
    SortedAt(lines, k + 1);
    SortedToken(toks, k + 1);
    assert StopsAt(toks, k);
    var q := Size(toks[..k + 1]);
    assert SortedBuffer(lines)[q] == Sorted(toks)[k + 1].raws[0];
    if Covered(Rewritten(toks), k + 1) {
      var m :| 0 <= m < |toks| && Covered(Rewritten(toks), m) && toks[m] == Sorted(toks)[k + 1];
      RunHead(toks, k + 1);
      RunHead(toks, m);
      StopsBeforeBalanced(toks[k], toks[k + 1].raws[0], toks[m].raws[0]);
    }
  }

  lemma {:induction false} MoreTokens(lines: seq<Line>, k: nat)
    requires AllWellFormed(lines) && k < |Tokens(lines, 0)|
    requires Size(Tokens(lines, 0)[..k + 1]) < |lines|
    ensures k + 1 < |Tokens(lines, 0)|
  {
    hide Tokens, Flatten;
    var toks := Tokens(lines, 0);
    TokensPartition(lines, 0);
    assert lines[0..] == lines;
    FlattenSize(toks);
    WholeSize(toks, k);
  }

  lemma {:induction false} WholeSize(toks: seq<Token>, k: nat)
    requires k < |toks|
    ensures k + 1 == |toks| ==> Size(toks[..k + 1]) == Size(toks)
  {
    assert toks[..|toks|] == toks;
  }

  lemma {:induction false} RunHead(toks: seq<Token>, k: nat)
    requires BalancedRuns(toks) && k < |toks| && Covered(Rewritten(toks), k)
    requires Grouped(toks[k]) && AllWellFormed(toks[k].raws)
    ensures var line := toks[k].raws[0];
            && line == Head(toks[k]) && line.kind == Prop && line.brackets == 0 && !line.continues
  {
    hide Rewritten;
    RewrittenFacts(toks);
    var r, m := InRewritten(toks, k);
    assert WellFormed(toks[k].raws[0]);
  }

  lemma {:induction false} StopsBeforeBalanced(t: Token, p: Line, q: Line)
    requires |t.raws| > 0 && Stops(t, p)
    requires p.kind == Prop && q.kind == Prop && p.brackets == 0 && q.brackets == 0 && !q.continues
    ensures Stops(t, q)
  {
  }

  /** The lines of a rewritten run, one to a token, in the sorted buffer. */
  lemma {:induction false} RunLine(lines: seq<Line>, r: Run, k: nat) returns (m: nat)
    requires AllWellFormed(lines) && BalancedRuns(Tokens(lines, 0))
    requires r in Rewritten(Tokens(lines, 0)) && r.start <= k < r.end
    ensures var toks := Tokens(lines, 0);
            && r.start <= m < r.end <= |toks| && |toks[m].raws| == 1
            && var p := Size(toks[..k]);
               && Size(toks[..k + 1]) == p + 1 <= |SortedBuffer(lines)| == |lines|
               && SortedBuffer(lines)[p] == toks[m].raws[0]
               && toks[m].raws[0].kind == Prop == toks[m].kind && toks[m].raws[0].brackets == 0
               && !toks[m].raws[0].continues
  {
    hide Tokens, Rewritten, Rewrite, Flatten, Grouped, Stops, BalancedRuns, SortedBuffer, IsRun, Eligible, SortRun;
    var toks := Tokens(lines, 0);
    RewrittenFacts(toks);
    Inside(toks, r);
    InRuns(Rewritten(toks), r, k);
    var q;
    q, m := InRewritten(toks, k);
    RunsMeet(toks, q, r, k);
    InRuns(Rewritten(toks), r, m);
    SortedAt(lines, k);
    TokensSound(lines);
    RunHead(toks, m);
  }

  lemma {:induction false} InRuns(runs: seq<Run>, r: Run, k: nat)
    requires r in runs && r.start <= k < r.end
    ensures Covered(runs, k)
  {
  }

  lemma {:induction false} RunOffsets(lines: seq<Line>, r: Run, k: nat)
    requires AllWellFormed(lines) && BalancedRuns(Tokens(lines, 0))
    requires r in Rewritten(Tokens(lines, 0)) && r.start <= k <= r.end
    ensures var toks := Tokens(lines, 0);
            && r.end <= |toks| && Size(toks[..k]) == Size(toks[..r.start]) + (k - r.start) <= |lines|
    decreases k
  {
    hide Tokens, Rewritten, BalancedRuns, SortedBuffer, Covered;
    if r.start < k {
      var m := RunLine(lines, r, k - 1);
      RunOffsets(lines, r, k - 1);
    } else {
      RunStartFits(lines, r);
    }
  }

  lemma {:induction false} RunStartFits(lines: seq<Line>, r: Run)
    requires AllWellFormed(lines) && r in Rewritten(Tokens(lines, 0))
    ensures var toks := Tokens(lines, 0);
            r.start < r.end <= |toks| && Size(toks[..r.start]) <= |lines|
  {
    hide Tokens, Rewritten, SortedBuffer;
    RewrittenFacts(Tokens(lines, 0));
    SortedAt(lines, r.start);
  }

  /** In the original order no property of the run but the last ends on an operator, and the last one stops before
      what follows the run. */
  lemma {:induction false} QuietRun(lines: seq<Line>, r: Run, m: nat)
    requires AllWellFormed(lines) && BalancedRuns(Tokens(lines, 0))
    requires r in Rewritten(Tokens(lines, 0)) && r.start <= m < r.end
    ensures var toks := Tokens(lines, 0);
            && r.end <= |toks| && |toks[m].raws| == 1
            && (m + 1 < r.end ==> !toks[m].raws[0].trailing)
            && (m + 1 == r.end < |toks| ==>
                  && |toks[r.end].raws| > 0
                  && (Bars(toks[r.end].raws[0]) ||
                      (!toks[r.end].raws[0].continues && !toks[m].raws[0].trailing)))
  {
    hide Tokens, Rewritten, Rewrite, Flatten, Grouped, Stops, BalancedRuns, SortedBuffer, IsRun, Eligible;
    var toks := Tokens(lines, 0);
    RewrittenFacts(toks);
    Inside(toks, r);
    EligibleAt(toks, r, m);
    TokensSound(lines);
    InRuns(Rewritten(toks), r, m);
    RunHead(toks, m);
    if m + 1 < |toks| {
      assert StopsAt(toks, m);
      StopsBalanced(toks[m], toks[m + 1].raws[0]);
      if m + 1 < r.end {
        InRuns(Rewritten(toks), r, m + 1);
        RunHead(toks, m + 1);
      }
    }
  }

  lemma {:induction false} StopsBalanced(t: Token, next: Line)
    requires |t.raws| == 1 && t.kind == Prop && t.raws[0].brackets == 0 && Stops(t, next)
    ensures Bars(next) || (!next.continues && !t.raws[0].trailing)
  {
    assert t.raws == [t.raws[0]];
    DepthOfOne(t.raws[0]);
  }

  /** What stands behind a run in the sorted buffer stood there before. */
  lemma {:induction false} BehindRun(lines: seq<Line>, r: Run)
    requires AllWellFormed(lines) && r in Rewritten(Tokens(lines, 0))
    ensures var toks := Tokens(lines, 0);
            var e := if r.end <= |toks| then Size(toks[..r.end]) else 0;
            && r.end <= |toks|
            && (r.end == |toks| ==> e == |lines| == |SortedBuffer(lines)|)
            && (r.end < |toks| ==> |toks[r.end].raws| > 0 && e < |lines| == |SortedBuffer(lines)| &&
                                   SortedBuffer(lines)[e] == toks[r.end].raws[0])
  {
    hide Tokens, Rewritten, Rewrite, Flatten, SortedBuffer, Eligible, Covered, StackAt;
    var toks := Tokens(lines, 0);
    RewrittenFacts(toks);
    SortedBufferFacts(lines);
    if r.end < |toks| {
      SortedAt(lines, r.end);
      IdUncovered(toks, r.end);
      SortedToken(toks, r.end);
    } else {
      TokensPartition(lines, 0);
      assert lines[0..] == lines;
      FlattenSize(toks);
      WholeSize(toks, r.end - 1);
    }
  }

  /** Where a balanced run ends in the file, a logical line of the sorted buffer starts. */
  lemma {:induction false} RunStarts(lines: seq<Line>, r: Run)
    requires AllWellFormed(lines) && BalancedRuns(Tokens(lines, 0))
    requires r in Rewritten(Tokens(lines, 0))
    requires r.start <= |Tokens(lines, 0)| && Size(Tokens(lines, 0)[..r.start]) <= |SortedBuffer(lines)|
    requires Starts(SortedBuffer(lines), Size(Tokens(lines, 0)[..r.start]))
    ensures r.end <= |Tokens(lines, 0)| && Size(Tokens(lines, 0)[..r.end]) <= |SortedBuffer(lines)|
    ensures Starts(SortedBuffer(lines), Size(Tokens(lines, 0)[..r.end]))
  {
    hide Tokens, Rewritten, Rewrite, Flatten, SortedBuffer, BalancedRuns, Size, Starts, TokenEnd, Bars;
    var toks := Tokens(lines, 0);
    var sorted := SortedBuffer(lines);
    RunStartFits(lines, r);
    RunOffsets(lines, r, r.end);
    BehindRun(lines, r);
    SortedBufferFacts(lines);
    var a, e := Size(toks[..r.start]), Size(toks[..r.end]);
    forall x | a <= x < e
      ensures var line := sorted[x];
              && line.brackets == 0 && line.kind == Prop && !line.continues
              && (e < |sorted| ==> Bars(sorted[e]) || (!line.trailing && !sorted[e].continues))
    {
      var k := r.start + (x - a);
      RunOffsets(lines, r, k);
      var m := RunLine(lines, r, k);
      QuietRun(lines, r, m);
      QuietRun(lines, r, r.end - 1);
    }
    if e < |sorted| && !Bars(sorted[e]) {
      assert a < e && sorted[a].kind == Prop;
    }
    NeverOver(sorted, a, e);
    StartsAt(sorted, a, e);
  }

  /** No rewritten run reaches over the boundary in front of token `k`. */
  ghost predicate Boundary(toks: seq<Token>, k: nat) {
    forall r :: r in Rewritten(toks) ==> !(r.start < k < r.end)
  }

  lemma {:induction false} BoundaryStarts(lines: seq<Line>, k: nat)
    requires AllWellFormed(lines) && BalancedRuns(Tokens(lines, 0))
    requires k <= |Tokens(lines, 0)| && Boundary(Tokens(lines, 0), k)
    ensures Size(Tokens(lines, 0)[..k]) <= |SortedBuffer(lines)|
    ensures Starts(SortedBuffer(lines), Size(Tokens(lines, 0)[..k]))
    decreases k
  {
    hide Tokens, Rewritten, Rewrite, Flatten, SortedBuffer, BalancedRuns, Starts, TokenEnd, Covered, IsRun, Eligible,
      SortRun;
    var toks := Tokens(lines, 0);
    RewrittenFacts(toks);
    if k == 0 {
      StartsFirst(SortedBuffer(lines));
    } else if Covered(Rewritten(toks), k - 1) {
      var r, m := InRewritten(toks, k - 1);
      assert r.end == k;
      BoundaryAtStart(toks, r);
      BoundaryStarts(lines, r.start);
      RunStarts(lines, r);
    } else {
      BoundaryOutside(toks, k - 1);
      BoundaryStarts(lines, k - 1);
      OutsideEnds(lines, k - 1);
      StartsNext(SortedBuffer(lines), Size(toks[..k - 1]));
    }
  }

  lemma {:induction false} BoundaryAtStart(toks: seq<Token>, r: Run)
    requires r in Rewritten(toks)
    ensures Boundary(toks, r.start)
  {
    hide Rewritten, Eligible, IsRun;
    RewrittenFacts(toks);
    forall q | q in Rewritten(toks)
      ensures !(q.start < r.start < q.end)
    {
      Inside(toks, r);
      StartIn(toks, r);
      if q.start < r.start < q.end { RunsMeet(toks, q, r, r.start); }
    }
  }

  lemma {:induction false} StartIn(toks: seq<Token>, r: Run)
    requires IsRun(toks, r)
    ensures r.start < r.end
  {
  }

  lemma {:induction false} BoundaryOutside(toks: seq<Token>, k: nat)
    requires !Covered(Rewritten(toks), k)
    ensures Boundary(toks, k)
  {
    hide Rewritten;
  }

  lemma {:induction false} StartsWithId(lines: seq<Line>, p: nat)
    requires p < |lines| && Starts(lines, p) && lines[p].kind == Id
    ensures StartsId(Tokens(lines, 0), p)
  {
    hide Tokens, TokenEnd;
    var toks := Tokens(lines, 0);
    var j :| 0 <= j <= |toks| && toks[j..] == Tokens(lines, p);
    TokensStep(lines, p);
    assert toks[j..][0] == toks[j];
  }

  /** When the sorted lines balance their brackets, every asking `id:` still starts a logical line: a run that ends
      on an operator takes in properties of its own run only. */
  lemma {:induction false} BalancedAsksSurvive(lines: seq<Line>)
    requires AllWellFormed(lines) && BalancedRuns(Tokens(lines, 0))
    ensures AsksSurvive(lines)
  {
    hide Tokens, SortedBuffer, BalancedRuns, StartsId, Asked;
    forall p | p in Asked(lines)
      ensures StartsId(Tokens(SortedBuffer(lines), 0), p)
    {
      var k := AskedToken(lines, p);
      AskStarts(lines, k);
    }
  }

  lemma {:induction false} AskStarts(lines: seq<Line>, k: nat)
    requires AllWellFormed(lines) && BalancedRuns(Tokens(lines, 0))
    requires k < |Tokens(lines, 0)| && Tokens(lines, 0)[k].kind == Id
    ensures StartsId(Tokens(SortedBuffer(lines), 0), Tokens(lines, 0)[k].start)
  {
    hide Tokens, Rewritten, Rewrite, Flatten, SortedBuffer, BalancedRuns, Starts, Covered, StartsId, Grouped;
    var toks := Tokens(lines, 0);
    IdUncovered(toks, k);
    BoundaryOutside(toks, k);
    BoundaryStarts(lines, k);
    SortedAt(lines, k);
    SortedToken(toks, k);
    TokensSound(lines);
    IdIsOneLine(toks[k]);
    assert toks[k].raws[0].kind == Id by { IdLine(toks[k]); }
    StartsWithId(SortedBuffer(lines), Size(toks[..k]));
  }

  lemma {:induction false} IdLine(t: Token)
    requires Grouped(t)
    ensures |t.raws| > 0 && t.raws[0].kind == t.kind
  {
  }

  /** In particular, with balanced lines in the sorted runs. */
  lemma {:induction false} BalancedPassSettles(lines: seq<Line>)
    requires AllWellFormed(lines) && BalancedRuns(Tokens(lines, 0))
    ensures Ordered(Rewritten(Tokens(lines, 0)), |Tokens(lines, 0)|)
    ensures Ordered(Rewritten(Tokens(Fixed(lines), 0)), |Tokens(Fixed(lines), 0)|)
    ensures var toks := Tokens(SortedBuffer(lines), 0);
            Fixed(Fixed(lines)) == Fixed(lines)
            <==> Rewritten(toks) == [] && Wanting(Verdicts(toks, 0, [])) <= AskedTokens(toks, Asked(lines))
  {
    hide Tokens, Verdicts, Rewritten, Wanting, AllWellFormed, Fixed, SortedBuffer, Asked, AsksSurvive, BalancedRuns;
    BalancedAsksSurvive(lines);
    OnePassSettles(lines);
  }

  // ----- Runs of which no line takes in the next -----

  /** Later tokens start on later lines. */
  lemma {:induction false} SizesRise(toks: seq<Token>, i: nat, j: nat)
    requires i < j <= |toks| && forall k :: 0 <= k < |toks| ==> toks[k].raws != []
    ensures Size(toks[..i]) < Size(toks[..j])
    decreases j
  {
    assert toks[..j][..j - 1] == toks[..j - 1];
    if i < j - 1 { SizesRise(toks, i, j - 1); }
  }

  lemma {:induction false} SameStart(toks: seq<Token>, i: nat, j: nat)
    requires i < |toks| && j < |toks| && forall k :: 0 <= k < |toks| ==> toks[k].raws != []
    requires Size(toks[..i]) == Size(toks[..j])
    ensures i == j
  {
    if i < j { SizesRise(toks, i, j); }
    if j < i { SizesRise(toks, j, i); }
  }

  /** An asked line is the line of an asking token. */
  lemma {:induction false} AskedIs(lines: seq<Line>, k: nat)
    requires AllWellFormed(lines) && k < |Tokens(lines, 0)|
    ensures var toks := Tokens(lines, 0);
            toks[k].kind == Id && toks[k].start in Asked(lines) <==> k in Wanting(Verdicts(toks, 0, []))
  {
    hide Tokens, Verdicts, Wanting, BlanksAfter, Grouped, StopsAt, TokensWellFormed;
    var toks := Tokens(lines, 0);
    var verdicts := Verdicts(toks, 0, []);
    TokensSound(lines);
    forall j | 0 <= j < |toks|
      ensures toks[j].raws != [] && (toks[j].kind == Id ==> |toks[j].raws| == 1)
    {
      GroupedNonEmpty(toks[j]);
      if toks[j].kind == Id { IdIsOneLine(toks[j]); }
    }
    BlanksAfterAre(toks, verdicts, toks[k].start);
    WantingAre(verdicts, k);
    if k in Wanting(verdicts) {
      WantingIds(toks, 0, [], k);
    }
    if toks[k].kind == Id && toks[k].start in Asked(lines) {
      var j: nat :| NeedsBlank(j) in verdicts && toks[k].start == LastLine(toks, j);
      WantingIds(toks, 0, [], j);
      SameStart(toks, j, k);
    }
  }

  /** When no sorted property takes in the line behind it, the sorted buffer has the sorted tokens: every asking `id:`
      is one of them, and no run is left to sort. */
  lemma {:induction false} StopsAsksSurvive(lines: seq<Line>)
    requires AllWellFormed(lines) && SortStops(Tokens(lines, 0))
    ensures Ordered(Rewritten(Tokens(lines, 0)), |Tokens(lines, 0)|)
    ensures var toks, sorted := Tokens(lines, 0), Tokens(SortedBuffer(lines), 0);
            && sorted == Restart(Sorted(toks)) && AsksSurvive(lines)
            && Rewritten(sorted) == []
            && AskedTokens(sorted, Asked(lines)) == Wanting(Verdicts(toks, 0, []))
            && Verdicts(sorted, 0, []) == Verdicts(Sorted(toks), 0, [])
  {
    hide Tokens, Verdicts, Rewritten, Rewrite, Wanting, Asked, StopsAt, SortStops, Grouped, TokensWellFormed, StartsId,
      SameShape, Flatten;
    var toks := Tokens(lines, 0);
    SortRetokenizes(lines);
    TokensSound(lines);
    var sorted := Restart(Sorted(toks));
    RestartShape(Sorted(toks));
    VerdictsSame(sorted, Sorted(toks), 0, []);
    SortedHasNoRun(toks);
    forall k | 0 <= k < |toks|
      ensures sorted[k].kind == toks[k].kind && sorted[k].start == toks[k].start
      ensures k in AskedTokens(sorted, Asked(lines)) <==> k in Wanting(Verdicts(toks, 0, []))
    {
      SortKeepsSizes(toks, k);
      SortedKind(toks, k);
      AskedIs(lines, k);
    }
    forall k | k in Wanting(Verdicts(toks, 0, []))
      ensures k < |toks|
    {
      WantingAre(Verdicts(toks, 0, []), k);
      WantingIds(toks, 0, [], k);
    }
    assert AskedTokens(sorted, Asked(lines)) == Wanting(Verdicts(toks, 0, []));
    forall p | p in Asked(lines)
      ensures StartsId(sorted, p)
    {
      var k := AskedToken(lines, p);
      assert StartsId(sorted, p) by { StartsIdAt(sorted, k); }
    }
  }

  lemma {:induction false} StartsIdAt(toks: seq<Token>, k: nat)
    requires k < |toks| && toks[k].kind == Id
    ensures StartsId(toks, toks[k].start)
  {
  }

  lemma {:induction false} SortedHasNoRun(toks: seq<Token>)
    ensures Ordered(Rewritten(toks), |toks|)
    ensures Rewritten(Restart(Sorted(toks))) == []
  {
    hide Rewritten, Rewrite, IsRun, Eligible, Restart, Alike;
    RewrittenFacts(toks);
    var sorted := Restart(Sorted(toks));
    RewrittenFacts(sorted);
    if Rewritten(sorted) != [] {
      var r := Rewritten(sorted)[0];
      assert r in Rewritten(sorted);
      RestartAlike(Sorted(toks));
      AlikeRun(sorted, Sorted(toks), r);
      Inside(Sorted(toks), r);
      assert SameLines(sorted, r, Sorted(toks), r);
      EligibleMoves(sorted, r, Sorted(toks), r);
      SortedIsRun(toks, r);
      RunIsSettled(toks, r);
    }
  }

  /** So with no line taken in anew the sorted order decides: a second pass changes nothing if and only if that order
      asks for no blank the original order did not ask for. */
  lemma {:induction false} SortedOrderSettles(lines: seq<Line>)
    requires AllWellFormed(lines) && SortStops(Tokens(lines, 0))
    ensures Ordered(Rewritten(Tokens(lines, 0)), |Tokens(lines, 0)|)
    ensures Rewritten(Tokens(Fixed(lines), 0)) == []
    ensures var toks := Tokens(lines, 0);
            Fixed(Fixed(lines)) == Fixed(lines)
            <==> Wanting(Verdicts(Sorted(toks), 0, [])) <= Wanting(Verdicts(toks, 0, []))
  {
    hide Tokens, Verdicts, Rewritten, Rewrite, Wanting, Insert, AllWellFormed, SortStops, Fixed, SortedBuffer, Asked,
      AsksSurvive, AllAfter, Restart, AskedTokens;
    StopsAsksSurvive(lines);
    SecondPassFinds(lines);
    OnePassSettles(lines);
  }

  /** In particular one pass is enough when the rewritten lines are plain and hold no stray brace. */
  lemma {:induction false} PlainPassSettles(lines: seq<Line>)
    requires AllWellFormed(lines)
    requires PlainRuns(Tokens(lines, 0)) && BracedRuns(Tokens(lines, 0))
    ensures Ordered(Rewritten(Tokens(lines, 0)), |Tokens(lines, 0)|)
    ensures Rewritten(Tokens(Fixed(lines), 0)) == [] && Fixed(Fixed(lines)) == Fixed(lines)
    ensures forall k :: Misplaced(k) in Verdicts(Tokens(lines, 0), 0, []) ==>
              Misplaced(Pos(Wanting(Verdicts(Tokens(lines, 0), 0, [])), k)) in Verdicts(Tokens(Fixed(lines), 0), 0, [])
  {
    hide Tokens, Verdicts, Rewritten, Rewrite, Wanting, Insert, PlainRuns, BracedRuns, AllWellFormed, SortStops, Fixed,
      SameShape, Grouped, StopsAt, TokensWellFormed, SortedBuffer, Asked, AsksSurvive, Restart, AskedTokens;
    var toks := Tokens(lines, 0);
    PlainRunsStop(lines);
    TokensSound(lines);
    SortedShape(toks);
    VerdictsSame(Sorted(toks), toks, 0, []);
    SortedOrderSettles(lines);
    StopsAsksSurvive(lines);
    SecondPassFinds(lines);
    NoneWanting(Wanting(Verdicts(toks, 0, [])), Verdicts(toks, 0, []));
  }
}
