/** The QML part of `process_file`: tokenize, check ids, sort runs, insert the id blanks.
    What it conserves on every input, and when one run of it is enough. */
module QmlPass {
  import opened Lines
  import opened Inserts
  import opened Tokenizer
  import opened PropertySort
  import opened IdPlacement
  import opened Retokenize
  import BraceFree

  /** The runs one pass rewrites. */
  function Rewritten(toks: seq<Token>): seq<Run> {
    Sortable(toks, Runs(toks, 0))
  }

  function Sorted(toks: seq<Token>): seq<Token>
    requires Ordered(Rewritten(toks), |toks|)
  {
    Rewrite(toks, Rewritten(toks))
  }

  lemma {:induction false} RewrittenFacts(toks: seq<Token>)
    ensures Ordered(Rewritten(toks), |toks|)
    ensures forall r :: r in Rewritten(toks) <==> IsRun(toks, r) && Eligible(toks, r)
  {
    hide Runs, Sortable, IsRun, Eligible;
    RunsOrdered(toks, 0);
    SortableOrdered(toks, Runs(toks, 0));
    forall r
      ensures r in Rewritten(toks) <==> IsRun(toks, r) && Eligible(toks, r)
    {
      SortableAre(toks, Runs(toks, 0), r);
      RunsExact(toks, r);
    }
  }

  // ----- What the sort conserves -----

  lemma {:induction false} SortedMember(run: seq<Token>, i: nat) returns (j: nat)
    requires i < |run|
    ensures j < |run| && |SortRun(run)| == |run| && SortRun(run)[i] == run[j]
  {
    hide SortRun;
    SortRunStable(run);
    assert SortRun(run)[i] in multiset(SortRun(run));
    assert SortRun(run)[i] in run;
    j :| 0 <= j < |run| && run[j] == SortRun(run)[i];
  }

  lemma {:induction false} EligibleAt(toks: seq<Token>, r: Run, k: nat)
    requires Eligible(toks, r) && r.start <= k < r.end
    ensures k < |toks| && toks[k].kind == Prop && |toks[k].raws| == 1
  {
    assert toks[r.start..r.end][k - r.start] == toks[k];
  }

  /** In a rewritten run every token, before and after, is one plain property line of the run. */
  lemma {:induction false} InRewritten(toks: seq<Token>, k: nat) returns (r: Run, m: nat)
    requires Ordered(Rewritten(toks), |toks|)
    requires k < |toks| && Covered(Rewritten(toks), k)
    ensures r in Rewritten(toks) && r.start <= k < r.end && r.start <= m < r.end <= |toks|
    ensures Sorted(toks)[k] == toks[m]
    ensures toks[k].kind == Prop && |toks[k].raws| == 1 && toks[m].kind == Prop && |toks[m].raws| == 1
    ensures Sorted(toks)[r.start..r.end] == SortRun(toks[r.start..r.end])
  {
    hide Rewritten, SortRun, Rewrite, Eligible, IsRun;
    var runs := Rewritten(toks);
    var p :| 0 <= p < |runs| && runs[p].start <= k < runs[p].end;
    r := runs[p];
    RewrittenFacts(toks);
    RewriteInside(toks, runs, p);
    var j := SortedMember(toks[r.start..r.end], k - r.start);
    m := r.start + j;
    EligibleAt(toks, r, k);
    EligibleAt(toks, r, m);
    assert Sorted(toks)[k] == Sorted(toks)[r.start..r.end][k - r.start];
  }

  lemma {:induction false} SameSizes(xs: seq<Token>, ys: seq<Token>, k: nat)
    requires k <= |xs| == |ys|
    requires forall j :: 0 <= j < |xs| ==> |xs[j].raws| == |ys[j].raws|
    ensures Size(xs[..k]) == Size(ys[..k])
  {
    if k > 0 {
      SameSizes(xs, ys, k - 1);
      assert xs[..k][..k - 1] == xs[..k - 1] && ys[..k][..k - 1] == ys[..k - 1];
    }
  }

  lemma {:induction false} SortKeepsSizes(toks: seq<Token>, k: nat)
    requires k <= |toks|
    ensures Ordered(Rewritten(toks), |toks|)
    ensures |Sorted(toks)| == |toks|
    ensures forall j :: 0 <= j < |toks| ==> |Sorted(toks)[j].raws| == |toks[j].raws|
    ensures Size(Sorted(toks)[..k]) == Size(toks[..k])
  {
    hide Rewritten, Rewrite, Covered;
    RewrittenFacts(toks);
    forall j | 0 <= j < |toks|
      ensures |Sorted(toks)[j].raws| == |toks[j].raws|
    {
      if Covered(Rewritten(toks), j) {
        var r, m := InRewritten(toks, j);
      } else {
        RewriteOutside(toks, Rewritten(toks), j);
      }
    }
    SameSizes(Sorted(toks), toks, k);
  }

  /** Every line of a token outside the rewritten runs keeps its physical index, so an index
      computed before the sort, such as the one behind an `id:` line, still names its line. */
  lemma {:induction false} SortKeepsPlaces(toks: seq<Token>, k: nat)
    requires k < |toks| && !Covered(Rewritten(toks), k)
    ensures Ordered(Rewritten(toks), |toks|)
    ensures var lo := Size(toks[..k]);
            var hi := lo + |toks[k].raws|;
            && hi <= |Flatten(toks)| == |Flatten(Sorted(toks))|
            && Flatten(Sorted(toks))[lo..hi] == Flatten(toks)[lo..hi] == toks[k].raws
  {
    hide Rewritten, Rewrite, Covered;
    RewrittenFacts(toks);
    RewriteOutside(toks, Rewritten(toks), k);
    SortKeepsSizes(toks, k);
    SortKeepsSizes(toks, |toks|);
    RawsInBuffer(toks, k);
    RawsInBuffer(Sorted(toks), k);
    FlattenSize(toks);
    FlattenSize(Sorted(toks));
    assert toks[..|toks|] == toks && Sorted(toks)[..|toks|] == Sorted(toks);
  }

  /** Taking one token out of a list takes its lines out of the buffer. */
  lemma {:induction false} Without(ys: seq<Token>, j: nat)
    requires j < |ys|
    ensures var rest := ys[..j] + ys[j + 1..];
            && multiset(ys) == multiset(rest) + multiset{ys[j]}
            && multiset(Flatten(ys)) == multiset(Flatten(rest)) + multiset(ys[j].raws)
  {
    hide Flatten;
    var front, tail := ys[..j], ys[j + 1..];
    assert ys == front + [ys[j]] + tail;
    FlattenAppend(front + [ys[j]], tail);
    FlattenOne(front, ys[j]);
    FlattenAppend(front, tail);
  }

  lemma {:induction false} PermutedFlatten(xs: seq<Token>, ys: seq<Token>)
    requires multiset(xs) == multiset(ys)
    ensures multiset(Flatten(xs)) == multiset(Flatten(ys))
    decreases |xs|
  {
    hide Flatten;
    if xs == [] {
      assert multiset(ys) == multiset{};
      assert |multiset(ys)| == |ys|;
    } else {
      assert xs[0] in multiset(ys);
      var j :| 0 <= j < |ys| && ys[j] == xs[0];
      Without(xs, 0);
      Without(ys, j);
      var xs', ys' := xs[..0] + xs[0 + 1..], ys[..j] + ys[j + 1..];
      assert multiset(xs') == multiset(xs) - multiset{xs[0]};
      assert multiset(ys') == multiset(ys) - multiset{xs[0]};
      PermutedFlatten(xs', ys');
    }
  }

  /** The sort permutes the physical lines of the file. */
  lemma {:induction false} SortPermutesLines(toks: seq<Token>)
    ensures Ordered(Rewritten(toks), |toks|)
    ensures multiset(Flatten(Sorted(toks))) == multiset(Flatten(toks))
  {
    hide Rewritten, Rewrite;
    RewrittenFacts(toks);
    RewritePermutes(toks, Rewritten(toks));
    PermutedFlatten(Sorted(toks), toks);
  }

  // ----- The pass -----

  /** The buffer after one QML pass. */
  ghost function Fixed(lines: seq<Line>): seq<Line>
    requires Ordered(Rewritten(Tokens(lines, 0)), |Tokens(lines, 0)|)
  {
    var toks := Tokens(lines, 0);
    Insert(Flatten(Sorted(toks)), Elements(BlanksAfter(toks, Verdicts(toks, 0, []))), EMPTY)
  }

  method FlattenTokens(toks: seq<Token>) returns (raws: seq<Line>)
    ensures raws == Flatten(toks)
  {
    raws := [];
    assert toks[..0] == [];
    for i := 0 to |toks|
      invariant raws == Flatten(toks[..i])
    {
      assert toks[..i + 1][..i] == toks[..i];
      FlattenLast(toks[..i + 1]);
      raws := raws + toks[i].raws;
    }
    assert toks[..|toks|] == toks;
  }

  /** The QML steps of `process_file` in the source's order. */
  method Process(lines: seq<Line>)
    returns (violations: seq<Violation>, unsorted: seq<Run>, blanks: seq<nat>, out: seq<Line>)
    ensures Ordered(Rewritten(Tokens(lines, 0)), |Tokens(lines, 0)|)
    ensures violations == Reported(Tokens(lines, 0), Verdicts(Tokens(lines, 0), 0, []))
    ensures unsorted == Rewritten(Tokens(lines, 0))
    ensures blanks == BlanksAfter(Tokens(lines, 0), Verdicts(Tokens(lines, 0), 0, []))
    ensures out == Fixed(lines)
  {
    hide Tokens, Rewrite, Runs, Sortable, Verdicts, Reported, BlanksAfter, Insert;
    var toks := Tokenize(lines);
    violations, blanks := CheckIdPlacement(toks);
    var sorted;
    sorted, unsorted := SortPass(toks);
    var raws := FlattenTokens(sorted);
    out := BraceFree.ApplyBraceFreeFixes(raws, blanks);
  }

  /** The index behind which a blank goes was computed before the sort, and still is the
      index of that `id:` line in the sorted buffer. */
  lemma {:induction false} IdIndexSurvives(lines: seq<Line>, k: nat)
    requires NeedsBlank(k) in Verdicts(Tokens(lines, 0), 0, [])
    ensures var toks := Tokens(lines, 0);
            && Ordered(Rewritten(toks), |toks|) && k < |toks|
            && LastLine(toks, k) < |lines| == |Flatten(Sorted(toks))|
            && lines[LastLine(toks, k)].kind == Id
            && Flatten(Sorted(toks))[LastLine(toks, k)] == lines[LastLine(toks, k)]
  {
    hide Rewritten, Rewrite, Verdicts, Tokens, Covered;
    var toks := Tokens(lines, 0);
    TokensPartition(lines, 0);
    assert lines[0..] == lines;
    WantingIds(toks, 0, [], k);
    PartitionAt(toks, 0, k);
    IdUncovered(toks, k);
    SortKeepsPlaces(toks, k);
    var lo := Size(toks[..k]);
    assert Flatten(toks)[lo..lo + 1][0] == toks[k].raws[0];
    assert Flatten(Sorted(toks))[lo..lo + 1][0] == toks[k].raws[0];
  }

  lemma {:induction false} IdUncovered(toks: seq<Token>, k: nat)
    requires k < |toks| && toks[k].kind != Prop
    ensures !Covered(Rewritten(toks), k)
  {
    hide Rewrite;
    RewrittenFacts(toks);
    if Covered(Rewritten(toks), k) {
      var r, m := InRewritten(toks, k);
    }
  }
}
