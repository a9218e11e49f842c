/** What the property sort does to a token list, in terms of the list alone: which properties stand in a script body,
    which blocks are sorted, and what a sorted block holds. */
module SortedProperties {
  import opened Lines
  import opened Tokenizer
  import opened PropertySort
  import opened QmlPass

  // ----- Script bodies -----

  /** How many braces an opening line opens, at least one, and a closing line closes, at least one. */
  function Braces(t: Token): nat {
    var n := if t.raws == [] then 0 else t.raws[0].braces;
    if t.kind == Open then (if n > 1 then n else 1)
    else if t.kind == Close then (if n < -1 then -n else 1)
    else 0
  }

  /** The open braces in front of token `k`; surplus closing ones are ignored. */
  function Deep(toks: seq<Token>, k: nat): nat
    requires k <= |toks|
  {
    if k == 0 then 0
    else
      var before := Deep(toks, k - 1);
      if toks[k - 1].kind == Open then before + Braces(toks[k - 1])
      else if toks[k - 1].kind == Close then (if before < Braces(toks[k - 1]) then 0 else before - Braces(toks[k - 1]))
      else before
  }

  /** Line `o` opens a script body. */
  predicate OpensScript(toks: seq<Token>, o: nat) {
    o < |toks| && toks[o].kind == Open && toks[o].raws != [] && toks[o].raws[0].js
  }

  /** Token `k` stands inside a script body: the depth has stayed above that of its opening line. */
  ghost predicate InScript(toks: seq<Token>, k: nat) {
    exists o: nat :: OpensScript(toks, o) && StaysAbove(toks, o, k)
  }

  ghost predicate StaysAbove(toks: seq<Token>, o: nat, k: nat) {
    o < k <= |toks| && forall j :: o < j <= k ==> Deep(toks, j) > Deep(toks, o)
  }

  /** The frames are as many as the open braces, and change only at the top. */
  lemma {:induction false} FramesAre(toks: seq<Token>, k: nat)
    requires k <= |toks|
    ensures |StackAt(toks, k)| == Deep(toks, k)
    ensures k < |toks| ==>
              var now, next := StackAt(toks, k), StackAt(toks, k + 1);
              && (forall m :: 0 <= m < |next| && m < |now| ==> next[m] == now[m])
              && (forall m :: |now| <= m < |next| ==>
                    next[m] == (OpensScript(toks, k) || InJs(now)) && toks[k].kind == Open)
  {
    hide InJs;
    if k > 0 {
      FramesAre(toks, k - 1);
    }
  }

  lemma {:induction false} StaysAboveMore(toks: seq<Token>, o: nat, k: nat)
    requires StaysAbove(toks, o, k) && k < |toks| && Deep(toks, k + 1) > Deep(toks, o)
    ensures StaysAbove(toks, o, k + 1)
  {
    hide Deep;
  }

  /** A script frame was opened by a script body that is still open. */
  lemma {:induction false} FrameOpener(toks: seq<Token>, k: nat, m: nat) returns (o: nat)
    requires k <= |toks| && m < |StackAt(toks, k)| && StackAt(toks, k)[m]
    ensures OpensScript(toks, o) && StaysAbove(toks, o, k) && Deep(toks, o) <= m
    decreases k, m
  {
    hide StackAt, Deep, OpensScript, StaysAbove;
    FramesAre(toks, k);
    if k == 0 {
      NoFrame(toks);
      assert false;
    } else {
      FramesAre(toks, k - 1);
      var before := StackAt(toks, k - 1);
      if m < |before| {
        o := FrameOpener(toks, k - 1, m);
        StaysAboveMore(toks, o, k - 1);
      } else if OpensScript(toks, k - 1) {
        o := k - 1;
        JustAbove(toks, o);
      } else {
        var n :| 0 <= n < |before| && before[n];
        o := FrameOpener(toks, k - 1, n);
        StaysAboveMore(toks, o, k - 1);
      }
    }
  }

  lemma {:induction false} NoFrame(toks: seq<Token>)
    ensures StackAt(toks, 0) == []
  {
  }

  lemma {:induction false} JustAbove(toks: seq<Token>, o: nat)
    requires o < |toks| && Deep(toks, o + 1) > Deep(toks, o)
    ensures StaysAbove(toks, o, o + 1)
  {
    hide Deep;
  }

  /** The lowest frame of a script body stays on the stack as long as the body is open. */
  lemma {:induction false} FrameStays(toks: seq<Token>, o: nat, k: nat)
    requires OpensScript(toks, o) && StaysAbove(toks, o, k)
    ensures var stack := StackAt(toks, k); Deep(toks, o) < |stack| && stack[Deep(toks, o)]
    decreases k
  {
    hide StackAt, Deep;
    FramesAre(toks, k);
    FramesAre(toks, k - 1);
    if o + 1 < k {
      FrameStays(toks, o, k - 1);
    }
  }

  /** The sort's frame stack says the same as the braces: a token is skipped if and only if it stands in a script
      body. */
  lemma {:induction false} InJsExactly(toks: seq<Token>, k: nat)
    requires k <= |toks|
    ensures InJs(StackAt(toks, k)) <==> InScript(toks, k)
  {
    hide StackAt, Deep, OpensScript, StaysAbove;
    if InJs(StackAt(toks, k)) {
      var m :| 0 <= m < |StackAt(toks, k)| && StackAt(toks, k)[m];
      var o := FrameOpener(toks, k, m);
    }
    if InScript(toks, k) {
      var o: nat :| OpensScript(toks, o) && StaysAbove(toks, o, k);
      FrameStays(toks, o, k);
    }
  }

  // ----- Blocks -----

  /** Two or more properties with no property at either side, outside every script body. */
  ghost predicate IsBlock(toks: seq<Token>, a: nat, b: nat) {
    && a + 2 <= b <= |toks|
    && (forall k :: a <= k < b ==> toks[k].kind == Prop)
    && (a > 0 ==> toks[a - 1].kind != Prop)
    && (b < |toks| ==> toks[b].kind != Prop)
    && !InScript(toks, a)
  }

  /** Every property is one physical line without a brace or square bracket in its code. */
  predicate IsMovable(toks: seq<Token>, a: nat, b: nat) {
    a <= b <= |toks| && forall k :: a <= k < b ==> |toks[k].raws| == 1 && !toks[k].raws[0].nested
  }

  function Width(t: Token): nat {
    if t.raws == [] then 0 else |t.raws[0].text|
  }

  /** The tokens of width `n`, in order. */
  function OfWidth(run: seq<Token>, n: nat): seq<Token> {
    if run == [] then [] else (if Width(run[0]) == n then [run[0]] else []) + OfWidth(run[1..], n)
  }

  /** Narrow lines first, and lines of one width in their old order. */
  ghost predicate IsStableSort(was: seq<Token>, now: seq<Token>) {
    && |now| == |was|
    && (forall i, j :: 0 <= i < j < |now| ==> Width(now[i]) <= Width(now[j]))
    && (forall n: nat :: OfWidth(now, n) == OfWidth(was, n))
  }

  /** The whole effect of the sort. */
  ghost predicate IsSorted(toks: seq<Token>, out: seq<Token>) {
    && |out| == |toks|
    && (forall a, b :: IsBlock(toks, a, b) ==> BlockSorted(toks, out, a, b))
    && (forall k: nat :: k < |toks| && !InSomeBlock(toks, k) ==> out[k] == toks[k])
  }

  ghost predicate BlockSorted(toks: seq<Token>, out: seq<Token>, a: nat, b: nat)
    requires |out| == |toks| && a <= b <= |toks|
  {
    if IsMovable(toks, a, b) then IsStableSort(toks[a..b], out[a..b]) else out[a..b] == toks[a..b]
  }

  ghost predicate InSomeBlock(toks: seq<Token>, k: nat) {
    exists a: nat, b: nat :: IsBlock(toks, a, b) && a <= k < b
  }

  lemma {:induction false} OfWidthIs(run: seq<Token>, n: nat)
    ensures OfWidth(run, n) == OfLength(run, n)
  {
    if run != [] { OfWidthIs(run[1..], n); }
  }

  lemma {:induction false} RisesThroughout(run: seq<Token>, i: nat, j: nat)
    requires SortedAscending(run) && i < j < |run|
    ensures Width(run[i]) <= Width(run[j])
  {
    if i == 0 {
      FirstIsLeast(run, j);
    } else {
      RisesThroughout(run[1..], i - 1, j - 1);
    }
  }

  lemma {:induction false} StableIs(was: seq<Token>, now: seq<Token>)
    requires StablySorted(was, now) && |now| == |was|
    ensures IsStableSort(was, now)
  {
    hide OfWidth, OfLength, Width, SortedAscending;
    forall i, j | 0 <= i < j < |now|
      ensures Width(now[i]) <= Width(now[j])
    {
      RisesThroughout(now, i, j);
    }
    forall n: nat
      ensures OfWidth(now, n) == OfWidth(was, n)
    {
      OfWidthIs(now, n);
      OfWidthIs(was, n);
      assert OfLength(now, n) == OfLength(was, n);
    }
  }

  lemma {:induction false} BlockIsRun(toks: seq<Token>, r: Run)
    ensures IsRun(toks, r) <==> IsBlock(toks, r.start, r.end)
  {
    hide StackAt, InScript, InJs;
    if r.start <= |toks| { InJsExactly(toks, r.start); }
  }

  lemma {:induction false} MovableIsSafe(toks: seq<Token>, r: Run)
    requires IsRun(toks, r)
    ensures Safe(toks[r.start..r.end]) <==> IsMovable(toks, r.start, r.end)
  {
    hide StackAt;
    var run := toks[r.start..r.end];
    if Safe(run) {
      forall k | r.start <= k < r.end
        ensures |toks[k].raws| == 1 && !toks[k].raws[0].nested
      {
        assert run[k - r.start] == toks[k];
      }
    }
  }

  lemma {:induction false} OneBlock(toks: seq<Token>, r: Run)
    requires IsRun(toks, r)
    ensures Ordered(Rewritten(toks), |toks|) && r.start <= r.end <= |toks|
    ensures BlockSorted(toks, Sorted(toks), r.start, r.end)
  {
    hide Rewritten, Rewrite, SortRun, IsRun, Safe, IsMovable, IsStableSort, SortedAscending, StablySorted;
    RewrittenFacts(toks);
    RunInside(toks, r);
    MovableIsSafe(toks, r);
    var run := toks[r.start..r.end];
    var runs := Rewritten(toks);
    if r in runs {
      var p :| 0 <= p < |runs| && runs[p] == r;
      RewriteInside(toks, runs, p);
      SortRunStable(run);
      StableIs(run, SortRun(run));
    } else {
      RunUntouched(toks, r);
      if Safe(run) {
        AlreadySorted(run);
        StableIs(run, run);
      }
    }
  }

  lemma {:induction false} RunInside(toks: seq<Token>, r: Run)
    requires IsRun(toks, r)
    ensures r.start + 2 <= r.end <= |toks|
  {
  }

  lemma {:induction false} AlreadySorted(run: seq<Token>)
    requires SortedAscending(run)
    ensures StablySorted(run, run)
  {
  }

  lemma {:induction false} SameRun(toks: seq<Token>, q: Run, r: Run, k: nat)
    requires IsRun(toks, q) && IsRun(toks, r) && q.start <= k < q.end && r.start <= k < r.end
    ensures q == r
  {
    hide StackAt;
    assert q.start == r.start && q.end == r.end;
  }

  lemma {:induction false} RunUntouched(toks: seq<Token>, r: Run)
    requires IsRun(toks, r) && r !in Rewritten(toks)
    ensures Ordered(Rewritten(toks), |toks|) && r.start <= r.end <= |toks|
    ensures Sorted(toks)[r.start..r.end] == toks[r.start..r.end]
  {
    hide Rewritten, Rewrite, IsRun, Eligible, Covered;
    RewrittenFacts(toks);
    RunInside(toks, r);
    var runs := Rewritten(toks);
    forall k | r.start <= k < r.end
      ensures Sorted(toks)[k] == toks[k]
    {
      if Covered(runs, k) {
        var q := CoveringRun(toks, k);
        SameRun(toks, q, r, k);
      }
      RewriteOutside(toks, runs, k);
    }
    SameSlice(Sorted(toks), toks, r.start, r.end);
  }

  lemma {:induction false} CoveringRun(toks: seq<Token>, k: nat) returns (q: Run)
    requires Covered(Rewritten(toks), k)
    ensures q in Rewritten(toks) && q.start <= k < q.end && IsRun(toks, q)
  {
    hide Rewritten, IsRun, Eligible;
    RewrittenFacts(toks);
    var p :| 0 <= p < |Rewritten(toks)| && Rewritten(toks)[p].start <= k < Rewritten(toks)[p].end;
    q := Rewritten(toks)[p];
  }

  lemma {:induction false} CoveredInBlock(toks: seq<Token>, k: nat)
    requires Covered(Rewritten(toks), k)
    ensures InSomeBlock(toks, k)
  {
    hide Rewritten, IsRun, IsBlock, Covered;
    var q := CoveringRun(toks, k);
    BlockIsRun(toks, q);
    assert IsBlock(toks, q.start, q.end);
  }

  /** Main result: the sort leaves every block of properties outside script bodies stably sorted by line width if all
      its properties are plain single lines, and every other token where it was. */
  lemma {:induction false} SortExactly(toks: seq<Token>)
    ensures Ordered(Rewritten(toks), |toks|)
    ensures IsSorted(toks, Sorted(toks))
  {
    hide Rewritten, Rewrite, IsRun, IsBlock, BlockSorted, Covered;
    RewrittenFacts(toks);
    var out := Sorted(toks);
    forall a: nat, b: nat | IsBlock(toks, a, b)
      ensures a <= b <= |toks| && BlockSorted(toks, out, a, b)
    {
      BlockIsRun(toks, Run(a, b));
      OneBlock(toks, Run(a, b));
    }
    forall k: nat | k < |toks| && !InSomeBlock(toks, k)
      ensures out[k] == toks[k]
    {
      if Covered(Rewritten(toks), k) { CoveredInBlock(toks, k); }
      RewriteOutside(toks, Rewritten(toks), k);
    }
    SortedIs(toks, out);
  }

  lemma {:induction false} SortedIs(toks: seq<Token>, out: seq<Token>)
    requires |out| == |toks|
    requires forall a: nat, b: nat :: IsBlock(toks, a, b) ==> a <= b <= |toks| && BlockSorted(toks, out, a, b)
    requires forall k: nat :: k < |toks| && !InSomeBlock(toks, k) ==> out[k] == toks[k]
    ensures IsSorted(toks, out)
  {
    hide BlockSorted, InSomeBlock;
  }
}
