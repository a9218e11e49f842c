/** What a second QML pass sees: how blanks and sorted runs change the token list, the verdicts on ids and the
    runs to sort, and exactly when a pass changes nothing. */
module QmlStable {
  import opened Lines
  import opened Inserts
  import opened Tokenizer
  import opened PropertySort
  import opened IdPlacement
  import opened Retokenize
  import opened QmlPass
  import Text
  import BraceFree

  /** No logical line of the sorted list takes in the line behind it. */
  ghost predicate SortStops(toks: seq<Token>) {
    RewrittenFacts(toks);
    forall k: nat :: k + 1 < |toks| ==> StopsAt(Sorted(toks), k)
  }

  /** What every token of the sorted list is: untouched, or a property of its run. */
  lemma {:induction false} SortedToken(toks: seq<Token>, k: nat)
    requires k < |toks|
    ensures Ordered(Rewritten(toks), |toks|)
    ensures !Covered(Rewritten(toks), k) ==> Sorted(toks)[k] == toks[k]
    ensures Covered(Rewritten(toks), k) ==>
              && toks[k].kind == Prop == Sorted(toks)[k].kind
              && |toks[k].raws| == 1 == |Sorted(toks)[k].raws|
              && exists m :: 0 <= m < |toks| && Covered(Rewritten(toks), m) && toks[m] == Sorted(toks)[k]
  {
    hide Rewrite, Rewritten;
    RewrittenFacts(toks);
    if Covered(Rewritten(toks), k) {
      var r, m := InRewritten(toks, k);
      assert Covered(Rewritten(toks), m);
    } else {
      RewriteOutside(toks, Rewritten(toks), k);
    }
  }

  lemma {:induction false} SortedGrouped(toks: seq<Token>, k: nat)
    requires k < |toks|
    requires forall j :: 0 <= j < |toks| ==> Grouped(toks[j])
    ensures Ordered(Rewritten(toks), |toks|)
    ensures Grouped(Sorted(toks)[k])
  {
    hide Rewrite, Rewritten, Covered, Grouped;
    SortedToken(toks, k);
  }

  lemma {:induction false} SortedKind(toks: seq<Token>, k: nat)
    requires k < |toks|
    ensures Ordered(Rewritten(toks), |toks|)
    ensures Sorted(toks)[k].kind == toks[k].kind
    ensures toks[k].kind == Id ==> Sorted(toks)[k] == toks[k]
  {
    hide Rewrite, Rewritten, Covered;
    SortedToken(toks, k);
  }

  /** The sorted buffer tokenizes to the sorted tokens exactly when no line is taken in anew. */
  lemma {:induction false} SortRetokenizes(lines: seq<Line>)
    requires AllWellFormed(lines)
    ensures var toks := Tokens(lines, 0);
            && Ordered(Rewritten(toks), |toks|)
            && (forall k :: 0 <= k < |toks| ==> Grouped(Sorted(toks)[k]))
            && (Tokens(Flatten(Sorted(toks)), 0) == Restart(Sorted(toks)) <==> SortStops(toks))
  {
    hide Rewrite, Rewritten, Tokens, Grouped, StopsAt, AllWellFormed, Restart;
    var toks := Tokens(lines, 0);
    RewrittenFacts(toks);
    TokensSound(lines);
    var out := Sorted(toks);
    forall k | 0 <= k < |toks|
      ensures Grouped(out[k])
    {
      SortedGrouped(toks, k);
    }
    if SortStops(toks) {
      RestartTokens(out);
    }
    if Tokens(Flatten(out), 0) == Restart(out) {
      TokensPartition(Flatten(out), 0);
      forall k: nat | k + 1 < |toks|
        ensures StopsAt(out, k)
      {
        RestartStops(out, k);
      }
    }
  }

  lemma {:induction false} RestartStops(toks: seq<Token>, k: nat)
    requires k + 1 < |toks| && Partition(Restart(toks), 0)
    ensures StopsAt(toks, k)
  {
    hide Stops;
    var r := Restart(toks);
    PartitionAt(r, 0, k);
    GroupedNonEmpty(r[k]);
    StopsAlike(r[k], toks[k], r[k + 1].raws[0]);
  }

  // ----- Plain runs: a test on single lines -----

  /** A property line that takes in nothing wherever it stands in its run. */
  predicate Plain(line: Line) {
    line.brackets == 0 && !line.trailing
  }

  predicate PlainRuns(toks: seq<Token>) {
    forall r :: r in Rewritten(toks) ==> forall k :: r.start <= k < r.end && k < |toks| ==> Plain(Head(toks[k]))
  }

  /** No literal in a rewritten run holds a stray brace. */
  predicate BracedRuns(toks: seq<Token>) {
    forall r :: r in Rewritten(toks) ==> forall k :: r.start <= k < r.end && k < |toks| ==> Head(toks[k]).rawBraces == 0
  }

  lemma {:induction false} CoveredIsPlain(toks: seq<Token>, k: nat)
    requires k < |toks| && Covered(Rewritten(toks), k)
    ensures PlainRuns(toks) ==> Plain(Head(toks[k]))
    ensures BracedRuns(toks) ==> Head(toks[k]).rawBraces == 0
  {
    hide Rewritten, Plain;
  }

  /** A plain property claims the next line only by that line's own prefix. */
  lemma {:induction false} PlainStops(p: Token, q: Token, next: Line)
    requires |p.raws| == 1 && |q.raws| == 1 && Plain(p.raws[0]) && Plain(q.raws[0]) && p.kind == q.kind
    requires Stops(p, next)
    ensures Stops(q, next)
  {
    assert p.raws == [p.raws[0]] && q.raws == [q.raws[0]];
    DepthOfOne(p.raws[0]);
    DepthOfOne(q.raws[0]);
  }

  /** No token that stops before one plain property claims another. */
  lemma {:induction false} StopsBeforePlain(t: Token, p: Line, q: Line)
    requires |t.raws| > 0 && Stops(t, p)
    requires p.kind == Prop && q.kind == Prop && Plain(p) && Plain(q)
    requires WellFormed(p) && WellFormed(q)
    ensures Stops(t, q)
  {
  }

  lemma {:induction false} PlainSortStops(toks: seq<Token>, k: nat)
    requires PlainRuns(toks) && k + 1 < |toks|
    requires forall j :: 0 <= j < |toks| ==> Grouped(toks[j]) && AllWellFormed(toks[j].raws)
    requires StopsAt(toks, k)
    ensures Ordered(Rewritten(toks), |toks|)
    ensures StopsAt(Sorted(toks), k)
  {
    hide Rewrite, Rewritten, Covered, Stops, Plain, PlainRuns;
    SortedToken(toks, k);
    SortedToken(toks, k + 1);
    var out := Sorted(toks);
    SortedGrouped(toks, k + 1);
    assert out[k + 1].raws != [] by { GroupedNonEmpty(out[k + 1]); }
    if Covered(Rewritten(toks), k) {
      var m :| 0 <= m < |toks| && Covered(Rewritten(toks), m) && toks[m] == out[k];
      CoveredIsPlain(toks, k);
      CoveredIsPlain(toks, m);
      PlainStops(toks[k], out[k], toks[k + 1].raws[0]);
    }
    if Covered(Rewritten(toks), k + 1) {
      var m :| 0 <= m < |toks| && Covered(Rewritten(toks), m) && toks[m] == out[k + 1];
      CoveredIsPlain(toks, k + 1);
      CoveredIsPlain(toks, m);
      assert toks[k + 1].raws[0].kind == Prop && toks[m].raws[0].kind == Prop;
      StopsBeforePlain(out[k], toks[k + 1].raws[0], out[k + 1].raws[0]);
    }
  }

  /** With plain runs nothing is taken in anew. */
  lemma {:induction false} PlainRunsStop(lines: seq<Line>)
    requires AllWellFormed(lines) && PlainRuns(Tokens(lines, 0))
    ensures SortStops(Tokens(lines, 0))
  {
    hide Rewrite, Rewritten, PlainRuns, Tokens, Grouped, StopsAt, AllWellFormed;
    var toks := Tokens(lines, 0);
    RewrittenFacts(toks);
    TokensSound(lines);
    forall k: nat | k + 1 < |toks|
      ensures StopsAt(Sorted(toks), k)
    {
      PlainSortStops(toks, k);
    }
  }

  lemma {:induction false} TokensSound(lines: seq<Line>)
    requires AllWellFormed(lines)
    ensures var toks := Tokens(lines, 0);
            && (forall k :: 0 <= k < |toks| ==> Grouped(toks[k]) && AllWellFormed(toks[k].raws))
            && (forall k :: 0 <= k < |toks| ==> toks[k].start == Size(toks[..k]))
            && (forall k: nat :: k + 1 < |toks| ==> StopsAt(toks, k))
            && TokensWellFormed(toks)
  {
    hide Tokens, Grouped, Stops;
    var toks := Tokens(lines, 0);
    TokensPartition(lines, 0);
    assert lines[0..] == lines;
    forall k | 0 <= k < |toks|
      ensures Grouped(toks[k]) && AllWellFormed(toks[k].raws) && toks[k].start == Size(toks[..k])
      ensures k + 1 < |toks| ==> StopsAt(toks, k)
    {
      PartitionAt(toks, 0, k);
      GroupedNonEmpty(toks[k]);
      RawsInBuffer(toks, k);
      var lo := Size(toks[..k]);
      forall i | 0 <= i < |toks[k].raws|
        ensures WellFormed(toks[k].raws[i])
      {
        assert toks[k].raws[i] == Flatten(toks)[lo..lo + |toks[k].raws|][i] == lines[lo + i];
      }
    }
    forall k | 0 <= k < |toks| && toks[k].kind == Id
      ensures !Reopens(toks[k])
    {
      IdDoesNotReopen(toks[k]);
    }
  }

  lemma {:induction false} IdDoesNotReopen(t: Token)
    requires Grouped(t) && AllWellFormed(t.raws) && t.kind == Id
    ensures !Reopens(t)
  {
  }

  // ----- What the id check and the run search read of a token -----

  /** The two lists differ in nothing the id check reads. */
  ghost predicate SameShape(xs: seq<Token>, ys: seq<Token>) {
    && |xs| == |ys|
    && forall k :: 0 <= k < |xs| ==>
         xs[k].kind == ys[k].kind && Brace(xs[k]) == Brace(ys[k]) && Reopens(xs[k]) == Reopens(ys[k])
  }

  lemma {:induction false} WalkSame(xs: seq<Token>, ys: seq<Token>, i: nat, end: nat, depth: int, content: Text.Option<nat>)
    requires SameShape(xs, ys) && end <= |xs|
    ensures Walk(xs, i, end, depth, content) == Walk(ys, i, end, depth, content)
    decreases end - i
  {
    hide Brace, Reopens;
    if i < end {
      WalkSame(xs, ys, i + 1, end, depth, content);
      WalkSame(xs, ys, i + 1, end, depth + Brace(xs[i]), if depth == 0 && content.None? then Text.Some(i) else content);
    }
  }

  lemma {:induction false} VerdictsSame(xs: seq<Token>, ys: seq<Token>, i: nat, stack: seq<nat>)
    requires SameShape(xs, ys) && i <= |xs|
    ensures Verdicts(xs, i, stack) == Verdicts(ys, i, stack)
    decreases |xs| - i
  {
    hide Brace, Reopens, Walk, Verdicts, NextStack;
    if i == |xs| {
      VerdictsEnd(xs, stack);
      VerdictsEnd(ys, stack);
    } else {
      VerdictsUnfold(xs, i, stack);
      VerdictsUnfold(ys, i, stack);
      if stack != [] { WalkSame(xs, ys, Top(stack), i, 0, Text.None); }
      VerdictsSame(xs, ys, i + 1, NextStack(EventOf(xs[i]), stack, i + 1));
    }
  }

  /** Without stray braces the sort changes nothing the id check reads. */
  lemma {:induction false} SortedShape(toks: seq<Token>)
    requires BracedRuns(toks)
    requires forall j :: 0 <= j < |toks| ==> AllWellFormed(toks[j].raws) && Grouped(toks[j])
    ensures Ordered(Rewritten(toks), |toks|)
    ensures SameShape(Sorted(toks), toks)
  {
    hide Rewrite, Rewritten, Covered, BracedRuns;
    RewrittenFacts(toks);
    forall k | 0 <= k < |toks|
      ensures var out := Sorted(toks)[k];
              out.kind == toks[k].kind && Brace(out) == Brace(toks[k]) && Reopens(out) == Reopens(toks[k])
    {
      SortedToken(toks, k);
      if Covered(Rewritten(toks), k) {
        var m :| 0 <= m < |toks| && Covered(Rewritten(toks), m) && toks[m] == Sorted(toks)[k];
        CoveredIsPlain(toks, k);
        CoveredIsPlain(toks, m);
        BracedShape(toks[k]);
        BracedShape(toks[m]);
      }
    }
  }

  lemma {:induction false} BracedShape(t: Token)
    requires Grouped(t) && AllWellFormed(t.raws) && t.kind == Prop && |t.raws| == 1 && t.raws[0].rawBraces == 0
    ensures Brace(t) == 0 && !Reopens(t)
  {
    assert t.raws[..|t.raws| - 1] == [];
    assert RawBraces(t.raws) == RawBraces([]) + t.raws[|t.raws| - 1].rawBraces;
  }

  lemma {:induction false} RestartShape(toks: seq<Token>)
    ensures SameShape(Restart(toks), toks)
  {
    hide RawBraces;
  }

  // ----- The inserted lines are the lines the verdicts name -----

  lemma {:induction false} EndsAre(toks: seq<Token>, at: set<nat>, p: nat)
    requires forall k :: 0 <= k < |toks| ==> toks[k].raws != []
    ensures p in Ends(toks, at) <==>
            exists k :: k in at && k < |toks| && p == Size(toks[..k]) + |toks[k].raws| - 1
    decreases |toks|
  {
    hide Size;
    if toks != [] {
      var n := |toks| - 1;
      var front := toks[..n];
      EndsAre(front, at, p);
      assert forall k :: 0 <= k <= n ==> front[..k] == toks[..k];
      if p in Ends(front, at) {
        var k :| k in at && k < |front| && p == Size(front[..k]) + |front[k].raws| - 1;
        assert k in at && k < |toks| && p == Size(toks[..k]) + |toks[k].raws| - 1;
      }
    }
  }

  lemma {:induction false} BlanksAfterAre(toks: seq<Token>, verdicts: seq<Verdict>, p: nat)
    ensures p in BlanksAfter(toks, verdicts) <==> exists k :: NeedsBlank(k) in verdicts && p == LastLine(toks, k)
  {
    hide LastLine;
    if verdicts != [] {
      BlanksAfterAre(toks, verdicts[1..], p);
      assert verdicts == [verdicts[0]] + verdicts[1..];
      if verdicts[0].NeedsBlank? && p == LastLine(toks, verdicts[0].k) {
        assert NeedsBlank(verdicts[0].k) in verdicts;
      }
    }
  }

  lemma {:induction false} OneInsertion(toks: seq<Token>, verdicts: seq<Verdict>, p: nat)
    requires forall k :: 0 <= k < |toks| ==> toks[k].raws != [] && toks[k].start == Size(toks[..k])
    requires verdicts == Verdicts(toks, 0, [])
    ensures p in BlanksAfter(toks, verdicts) <==> p in Ends(toks, Wanting(verdicts))
  {
    hide Verdicts, Ends, BlanksAfter, Wanting;
    EndsAre(toks, Wanting(verdicts), p);
    BlanksAfterAre(toks, verdicts, p);
    if p in BlanksAfter(toks, verdicts) {
      var k: nat :| NeedsBlank(k) in verdicts && p == LastLine(toks, k);
      WantingIds(toks, 0, [], k);
      WantingAre(verdicts, k);
      assert p == Size(toks[..k]) + |toks[k].raws| - 1;
    }
    if p in Ends(toks, Wanting(verdicts)) {
      var k :| k in Wanting(verdicts) && k < |toks| && p == Size(toks[..k]) + |toks[k].raws| - 1;
      WantingAre(verdicts, k);
    }
  }

  /** The id fix alone, on every input: inserting its blanks adds blank tokens and nothing
      else to the token list, and the check repeated on the result asks for no blank. */
  lemma {:induction false} IdBlanksCommute(lines: seq<Line>)
    requires AllWellFormed(lines)
    ensures var toks := Tokens(lines, 0);
            var verdicts := Verdicts(toks, 0, []);
            var fixed := Insert(lines, Elements(BlanksAfter(toks, verdicts)), EMPTY);
            && Tokens(fixed, 0) == Restart(Insert(toks, Wanting(verdicts), BLANK_TOKEN))
            && Wanting(Verdicts(Tokens(fixed, 0), 0, [])) == {}
  {
    hide Tokens, Verdicts, Ends, BlanksAfter, Wanting, Grouped, StopsAt, Insert, AllWellFormed, SameShape, TokensWellFormed;
    var toks := Tokens(lines, 0);
    var verdicts := Verdicts(toks, 0, []);
    var at := Wanting(verdicts);
    TokensSound(lines);
    TokensPartition(lines, 0);
    assert lines[0..] == lines;
    forall k | 0 <= k < |toks|
      ensures toks[k].raws != []
      ensures k in at ==> toks[k].kind == Id
    {
      GroupedNonEmpty(toks[k]);
      WantingAre(verdicts, k);
      if k in at { WantingIds(toks, 0, [], k); }
    }
    forall p: nat
      ensures p in BlanksAfter(toks, verdicts) <==> p in Ends(toks, at)
    {
      OneInsertion(toks, verdicts, p);
    }
    assert Elements(BlanksAfter(toks, verdicts)) == Ends(toks, at);
    BlanksRetokenize(toks, at);
    BlanksSettleIds(toks);
    RestartShape(Insert(toks, at, BLANK_TOKEN));
    VerdictsSame(Restart(Insert(toks, at, BLANK_TOKEN)), Insert(toks, at, BLANK_TOKEN), 0, []);
  }

  // ----- What a second pass finds -----

  /** Exactly the asks outside `at` are left. */
  lemma {:induction false} WantingAfter(at: set<nat>, verdicts: seq<Verdict>)
    ensures Wanting(AllAfter(at, verdicts)) == {} <==> Wanting(verdicts) <= at
  {
    if verdicts != [] {
      WantingAfter(at, verdicts[1..]);
      AllAfterCons(at, verdicts[0], verdicts[1..]);
      assert verdicts == [verdicts[0]] + verdicts[1..];
      assert AllAfter(at, verdicts)[1..] == AllAfter(at, verdicts[1..]);
      if verdicts[0].NeedsBlank? && verdicts[0].k !in at {
        assert Pos(at, verdicts[0].k) in Wanting(AllAfter(at, verdicts));
        assert verdicts[0].k in Wanting(verdicts);
      }
    }
  }

  // The second run search. Blank tokens and sorted properties move no frame, so a run of the
  // fixed buffer is a run of the original one, at its new place and in order.

  lemma {:induction false} StackSorted(toks: seq<Token>, k: nat)
    requires k <= |toks|
    ensures Ordered(Rewritten(toks), |toks|)
    ensures StackAt(Sorted(toks), k) == StackAt(toks, k)
  {
    hide Rewrite, Rewritten, Covered;
    RewrittenFacts(toks);
    if k > 0 {
      StackSorted(toks, k - 1);
      SortedToken(toks, k - 1);
    }
  }

  lemma {:induction false} AdvanceAlike(stack: seq<bool>, s: Token, t: Token)
    requires s.kind == t.kind && s.raws == t.raws
    ensures Advance(stack, s) == Advance(stack, t)
  {
  }

  lemma {:induction false} StackMoves(toks: seq<Token>, at: set<nat>, k: nat)
    requires k <= |toks|
    requires forall j :: j in at && j < |toks| ==> toks[j].kind == Id
    ensures Pos(at, k) <= |Insert(toks, at, BLANK_TOKEN)|
    ensures StackAt(Insert(toks, at, BLANK_TOKEN), Pos(at, k)) == StackAt(toks, k)
  {
    hide Insert, Push, Pop;
    var out := Insert(toks, at, BLANK_TOKEN);
    if k > 0 {
      hide StackAt, Pos;
      StackMoves(toks, at, k - 1);
      InsertAt(toks, at, BLANK_TOKEN, k - 1);
      PosStep(at, k - 1);
      StackStep(toks, k - 1);
      StackStep(out, Pos(at, k - 1));
      if k - 1 in at { StackStep(out, Pos(at, k - 1) + 1); }
    }
  }

  lemma {:induction false} AlikeStack(xs: seq<Token>, ys: seq<Token>, k: nat)
    requires Alike(xs, ys) && k <= |xs|
    ensures StackAt(xs, k) == StackAt(ys, k)
  {
    if k > 0 {
      AlikeStack(xs, ys, k - 1);
      AdvanceAlike(StackAt(xs, k - 1), xs[k - 1], ys[k - 1]);
    }
  }

  lemma {:induction false} AlikeRun(xs: seq<Token>, ys: seq<Token>, r: Run)
    requires Alike(xs, ys) && IsRun(xs, r)
    ensures IsRun(ys, r)
  {
    hide StackAt;
    AlikeStack(xs, ys, r.start);
  }

  /** The tokens of the two ranges hold the same lines. */
  ghost predicate SameLines(xs: seq<Token>, r: Run, ys: seq<Token>, q: Run) {
    && r.start <= r.end <= |xs| && q.start <= q.end <= |ys| && q.end - q.start == r.end - r.start
    && forall k :: r.start <= k < r.end ==> xs[k].raws == ys[k - r.start + q.start].raws
  }

  /** Behind a property token comes the next old token, or the end. */
  lemma {:induction false} NextStep(toks: seq<Token>, at: set<nat>, k: nat)
    requires k < |toks| && toks[k].kind == Prop
    requires forall j :: j in at && j < |toks| ==> toks[j].kind == Id
    ensures var out := Insert(toks, at, BLANK_TOKEN);
            && Pos(at, k + 1) == Pos(at, k) + 1 <= |out|
            && (k + 1 == |toks| <==> Pos(at, k + 1) == |out|)
            && (k + 1 < |toks| ==> out[Pos(at, k) + 1] == toks[k + 1])
  {
    hide Insert, Pos;
    PosStep(at, k);
    InsertLength(toks, at, BLANK_TOKEN);
    InsertAt(toks, at, BLANK_TOKEN, k);
    if k + 1 < |toks| {
      InsertAt(toks, at, BLANK_TOKEN, k + 1);
    }
  }

  /** A block of properties in the buffer with blanks is one in the buffer without them. */
  lemma {:induction false} BlockMovesBack(toks: seq<Token>, at: set<nat>, r: Run, a: nat, m: nat)
    requires forall j :: j in at && j < |toks| ==> toks[j].kind == Id
    requires r.start < r.end <= |Insert(toks, at, BLANK_TOKEN)| && 1 <= m <= r.end - r.start
    requires forall k :: r.start <= k < r.end ==> Insert(toks, at, BLANK_TOKEN)[k].kind == Prop
    requires a < |toks| && r.start == Pos(at, a)
    ensures a + m <= |toks| && Pos(at, a + m) == r.start + m
    ensures forall k :: a <= k < a + m ==> toks[k].kind == Prop
    ensures SameLines(Insert(toks, at, BLANK_TOKEN), Run(r.start, r.start + m), toks, Run(a, a + m))
    ensures a + m == |toks| <==> r.start + m == |Insert(toks, at, BLANK_TOKEN)|
    ensures a + m < |toks| ==> Insert(toks, at, BLANK_TOKEN)[r.start + m] == toks[a + m]
    decreases m
  {
    hide Insert, Pos;
    InsertAt(toks, at, BLANK_TOKEN, a);
    if m > 1 {
      BlockMovesBack(toks, at, r, a, m - 1);
    }
    NextStep(toks, at, a + m - 1);
  }

  /** So a run of the buffer with blanks is a run of the buffer without them. */
  lemma {:induction false} RunMovesBack(toks: seq<Token>, at: set<nat>, r: Run) returns (q: Run)
    requires forall j :: j in at && j < |toks| ==> toks[j].kind == Id
    requires IsRun(Insert(toks, at, BLANK_TOKEN), r)
    ensures IsRun(toks, q) && SameLines(Insert(toks, at, BLANK_TOKEN), r, toks, q)
  {
    hide Insert, StackAt, Pos, SameLines;
    var out := Insert(toks, at, BLANK_TOKEN);
    var a := Origin(toks, at, BLANK_TOKEN, r.start);
    InsertAt(toks, at, BLANK_TOKEN, a);
    assert out[r.start].kind == Prop;
    BlockMovesBack(toks, at, r, a, r.end - r.start);
    q := Run(a, a + (r.end - r.start));
    if a > 0 {
      InsertAt(toks, at, BLANK_TOKEN, a - 1);
      PosStep(at, a - 1);
    }
    StackMoves(toks, at, a);
  }

  lemma {:induction false} SortedAlike(xs: seq<Token>, ys: seq<Token>)
    requires |xs| == |ys| && forall k :: 0 <= k < |xs| ==> xs[k].raws == ys[k].raws
    ensures SortedAscending(xs) == SortedAscending(ys)
    decreases |xs|
  {
    if |xs| > 1 { SortedAlike(xs[1..], ys[1..]); }
  }

  /** Two runs that overlap are the same run. */
  lemma {:induction false} RunsMeet(toks: seq<Token>, q: Run, r: Run, k: nat)
    requires IsRun(toks, q) && IsRun(toks, r)
    requires q.start <= k < q.end && r.start <= k < r.end
    ensures q == r
  {
    hide StackAt;
    assert forall j :: q.start <= j < q.end ==> toks[j].kind == Prop;
    assert q.start == r.start && q.end == r.end;
  }

  /** After the rewrite every run is in order or unsafe. */
  lemma {:induction false} RunIsSettled(toks: seq<Token>, q: Run)
    requires IsRun(toks, q)
    ensures Ordered(Rewritten(toks), |toks|)
    ensures !Eligible(Sorted(toks), q)
  {
    hide Rewrite, Rewritten, IsRun, SortRun;
    var runs := Rewritten(toks);
    RewrittenFacts(toks);
    if q in runs {
      var p :| 0 <= p < |runs| && runs[p] == q;
      RewriteInside(toks, runs, p);
      SortRunStable(toks[q.start..q.end]);
    } else {
      Inside(toks, q);
      forall k | q.start <= k < q.end
        ensures Sorted(toks)[k] == toks[k]
      {
        if Covered(runs, k) {
          var r, m := InRewritten(toks, k);
          RunsMeet(toks, q, r, k);
        }
        RewriteOutside(toks, runs, k);
      }
      SameSlice(Sorted(toks), toks, q.start, q.end);
    }
  }

  lemma {:induction false} Inside(toks: seq<Token>, q: Run)
    requires IsRun(toks, q)
    ensures q.start <= q.end <= |toks|
  {
  }

  lemma {:induction false} SortedIsRun(toks: seq<Token>, q: Run)
    requires Ordered(Rewritten(toks), |toks|)
    requires IsRun(Sorted(toks), q)
    ensures IsRun(toks, q)
  {
    hide Rewrite, Rewritten, StackAt, Covered;
    forall k | 0 <= k < |toks|
      ensures Sorted(toks)[k].kind == toks[k].kind
    {
      SortedKind(toks, k);
    }
    StackSorted(toks, q.start);
  }

  lemma {:induction false} RestartAlike(toks: seq<Token>)
    ensures Alike(Restart(toks), toks)
  {
  }

  lemma {:induction false} RestartLines(xs: seq<Token>, r: Run, ys: seq<Token>, q: Run)
    requires SameLines(xs, r, ys, q)
    ensures SameLines(Restart(xs), r, ys, q)
  {
  }

  lemma {:induction false} EligibleMoves(xs: seq<Token>, r: Run, ys: seq<Token>, q: Run)
    requires IsRun(xs, r) && IsRun(ys, q)
    requires SameLines(xs, r, ys, q)
    requires Eligible(xs, r)
    ensures Eligible(ys, q)
  {
    hide StackAt, SortedAscending;
    var a, b := xs[r.start..r.end], ys[q.start..q.end];
    forall i | 0 <= i < |a|
      ensures a[i].raws == b[i].raws && a[i].kind == Prop == b[i].kind
    {
      assert a[i] == xs[r.start + i] && b[i] == ys[q.start + i];
    }
    SortedAlike(a, b);
  }

  lemma {:induction false} NothingRewritten(toks: seq<Token>)
    requires Rewritten(toks) == []
    ensures Sorted(toks) == toks
  {
    hide Rewritten;
  }

  // ----- Exactly when a pass changes nothing -----

  /** A rewritten run does change: some line of it is not where it was. */
  lemma {:induction false} RunChanges(toks: seq<Token>, r: Run) returns (k: nat)
    requires r in Rewritten(toks)
    ensures Ordered(Rewritten(toks), |toks|)
    ensures r.start <= k < r.end <= |toks| && Sorted(toks)[k].raws != toks[k].raws
    ensures |toks[k].raws| == 1 == |Sorted(toks)[k].raws|
  {
    hide Rewrite, Rewritten, SortRun, IsRun, Covered;
    RewrittenFacts(toks);
    var runs, out := Rewritten(toks), Sorted(toks);
    var p :| 0 <= p < |runs| && runs[p] == r;
    RewriteInside(toks, runs, p);
    SortRunStable(toks[r.start..r.end]);
    if forall j :: r.start <= j < r.end ==> out[j].raws == toks[j].raws {
      forall i | 0 <= i < r.end - r.start
        ensures out[r.start..r.end][i].raws == toks[r.start..r.end][i].raws
      {
        assert out[r.start..r.end][i] == out[r.start + i] && toks[r.start..r.end][i] == toks[r.start + i];
      }
      SortedAlike(out[r.start..r.end], toks[r.start..r.end]);
    }
    k :| r.start <= k < r.end && out[k].raws != toks[k].raws;
    assert Covered(runs, k) by { RunCovers(runs, p, k); }
    SortedToken(toks, k);
  }

  lemma {:induction false} RunCovers(runs: seq<Run>, p: nat, k: nat)
    requires p < |runs| && runs[p].start <= k < runs[p].end
    ensures Covered(runs, k)
  {
  }

  /** The line of a moved property differs in the buffer. */
  lemma {:induction false} LineChanges(toks: seq<Token>, k: nat)
    requires k < |toks| && Ordered(Rewritten(toks), |toks|)
    requires |toks[k].raws| == 1 == |Sorted(toks)[k].raws| && Sorted(toks)[k].raws != toks[k].raws
    ensures var p := Size(toks[..k]);
            p < |Flatten(toks)| && p < |Flatten(Sorted(toks))| && Flatten(Sorted(toks))[p] != Flatten(toks)[p]
  {
    hide Rewritten, Rewrite, Flatten;
    SortKeepsSizes(toks, k);
    RawsInBuffer(toks, k);
    RawsInBuffer(Sorted(toks), k);
    var p := Size(toks[..k]);
    assert toks[k].raws == [toks[k].raws[0]] && Sorted(toks)[k].raws == [Sorted(toks)[k].raws[0]];
    assert Flatten(toks)[p..p + 1][0] == toks[k].raws[0];
    assert Flatten(Sorted(toks))[p..p + 1][0] == Sorted(toks)[k].raws[0];
  }

  lemma {:induction false} Longer(lines: seq<Line>, at: set<nat>, e: nat)
    requires e in at && e < |lines|
    ensures |Insert(lines, at, EMPTY)| > |lines|
  {
    hide Insert;
    InsertLength(lines, at, EMPTY);
    PosIncreases(at, e, |lines|);
    PosSpread(at, e, |lines|);
  }

  lemma {:induction false} PosSpread(at: set<nat>, j: nat, k: nat)
    requires j < k && j in at
    ensures Pos(at, k) > k
    decreases k
  {
    if j < k - 1 { PosSpread(at, j, k - 1); }
  }

  /** A pass leaves a buffer as it is exactly when it finds no run to sort and no blank to ask for. */
  lemma {:induction false} UnchangedExactly(lines: seq<Line>)
    requires AllWellFormed(lines)
    ensures Ordered(Rewritten(Tokens(lines, 0)), |Tokens(lines, 0)|)
    ensures var toks := Tokens(lines, 0);
            Fixed(lines) == lines <==> Rewritten(toks) == [] && Wanting(Verdicts(toks, 0, [])) == {}
  {
    hide Tokens, Verdicts, Rewritten, Rewrite, Wanting, Insert, AllWellFormed, BlanksAfter, Flatten;
    var toks := Tokens(lines, 0);
    var verdicts := Verdicts(toks, 0, []);
    RewrittenFacts(toks);
    TokensPartition(lines, 0);
    assert lines[0..] == lines;
    var sorted := Flatten(Sorted(toks));
    SortKeepsSizes(toks, |toks|);
    FlattenSize(toks);
    FlattenSize(Sorted(toks));
    assert toks[..|toks|] == toks && Sorted(toks)[..|toks|] == Sorted(toks);
    if Wanting(verdicts) == {} {
      NoBlanks(toks, verdicts);
      BraceFree.NothingToInsert(sorted, EMPTY);
      assert Fixed(lines) == sorted;
      if Rewritten(toks) == [] {
        NothingRewritten(toks);
      } else {
        assert Rewritten(toks)[0] in Rewritten(toks);
        var k := RunChanges(toks, Rewritten(toks)[0]);
        LineChanges(toks, k);
      }
    } else {
      var e := AskedLine(lines);
      Longer(sorted, Elements(BlanksAfter(toks, verdicts)), e);
    }
  }

  lemma {:induction false} AskedLine(lines: seq<Line>) returns (e: nat)
    requires AllWellFormed(lines) && Wanting(Verdicts(Tokens(lines, 0), 0, [])) != {}
    ensures e in Elements(BlanksAfter(Tokens(lines, 0), Verdicts(Tokens(lines, 0), 0, []))) && e < |lines|
  {
    hide Tokens, Verdicts, Wanting, Flatten, BlanksAfter, Grouped;
    var toks := Tokens(lines, 0);
    var verdicts := Verdicts(toks, 0, []);
    var k :| k in Wanting(verdicts);
    WantingAre(verdicts, k);
    WantingIds(toks, 0, [], k);
    TokensPartition(lines, 0);
    assert lines[0..] == lines;
    PartitionAt(toks, 0, k);
    GroupedNonEmpty(toks[k]);
    RawsInBuffer(toks, k);
    e := LastLine(toks, k);
    BlanksAfterAre(toks, verdicts, e);
  }

  lemma {:induction false} FixedWellFormed(lines: seq<Line>)
    requires AllWellFormed(lines)
    ensures Ordered(Rewritten(Tokens(lines, 0)), |Tokens(lines, 0)|)
    ensures AllWellFormed(Fixed(lines))
  {
    hide Tokens, Rewritten, Rewrite, Insert, WellFormed, Flatten, Elements, BlanksAfter, Verdicts, Pos;
    var toks := Tokens(lines, 0);
    SortPermutesLines(toks);
    TokensPartition(lines, 0);
    assert lines[0..] == lines;
    var sorted, out := Flatten(Sorted(toks)), Fixed(lines);
    var at := Elements(BlanksAfter(toks, Verdicts(toks, 0, [])));
    assert AllWellFormed(sorted) by {
      forall k | 0 <= k < |sorted|
        ensures WellFormed(sorted[k])
      {
        assert sorted[k] in multiset(sorted);
        assert sorted[k] in lines;
      }
    }
    InsertedWellFormed(sorted, at);
  }

  lemma {:induction false} InsertedWellFormed(lines: seq<Line>, at: set<nat>)
    requires AllWellFormed(lines)
    ensures AllWellFormed(Insert(lines, at, EMPTY))
  {
    hide Insert, WellFormed, Pos;
    EmptyIsWellFormed();
    forall p | 0 <= p < |Insert(lines, at, EMPTY)|
      ensures WellFormed(Insert(lines, at, EMPTY)[p])
    {
      var k := Origin(lines, at, EMPTY, p);
      InsertAt(lines, at, EMPTY, k);
    }
  }

  lemma {:induction false} NoBlanks(toks: seq<Token>, verdicts: seq<Verdict>)
    requires Wanting(verdicts) == {}
    ensures BlanksAfter(toks, verdicts) == [] && Elements(BlanksAfter(toks, verdicts)) == {}
  {
    if verdicts != [] { NoBlanks(toks, verdicts[1..]); }
  }
}
