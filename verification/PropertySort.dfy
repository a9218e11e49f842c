/** The christmas-tree pass: runs of properties outside JavaScript bodies are sorted by
    length, and only when every line of the run is a single plain property line. */
module PropertySort {
  import opened Lines
  import opened Tokenizer

  // ----- The JS / QML frame stack -----

  function Head(t: Token): Line {
    if t.raws == [] then EMPTY else t.raws[0]
  }

  function Max(a: int, b: int): int { if a < b then b else a }

  /** `any(js_stack)` */
  predicate InJs(stack: seq<bool>) {
    exists i :: 0 <= i < |stack| && stack[i]
  }

  function Repeat(b: bool, n: nat): (r: seq<bool>)
    ensures |r| == n && forall i :: 0 <= i < n ==> r[i] == b
  {
    seq(n, _ => b)
  }

  function Push(stack: seq<bool>, t: Token): seq<bool> {
    stack + Repeat(Head(t).js || InJs(stack), Max(1, Head(t).braces))
  }

  function Pop(stack: seq<bool>, t: Token): seq<bool> {
    stack[..Max(0, |stack| - Max(1, -Head(t).braces))]
  }

  /** The frames open in front of token `k`. */
  function StackAt(toks: seq<Token>, k: nat): seq<bool>
    requires k <= |toks|
  {
    if k == 0 then [] else Advance(StackAt(toks, k - 1), toks[k - 1])
  }

  function Advance(stack: seq<bool>, t: Token): seq<bool> {
    match t.kind
    case Open => Push(stack, t)
    case Close => Pop(stack, t)
    case _ => stack
  }

  lemma {:induction false} StackStep(toks: seq<Token>, k: nat)
    requires k < |toks|
    ensures StackAt(toks, k + 1) == Advance(StackAt(toks, k), toks[k])
  {
  }

  /** QML frames first, then JS frames: once in JavaScript, every inner frame is too. */
  ghost predicate QmlThenJs(stack: seq<bool>) {
    forall i, j :: 0 <= i <= j < |stack| && stack[i] ==> stack[j]
  }

  lemma {:induction false} StackShape(toks: seq<Token>, k: nat)
    requires k <= |toks|
    ensures QmlThenJs(StackAt(toks, k))
    ensures var stack := StackAt(toks, k); InJs(stack) == (stack != [] && stack[|stack| - 1])
  {
    if k > 0 {
      StackShape(toks, k - 1);
      var below := StackAt(toks, k - 1);
      var stack := StackAt(toks, k);
      if toks[k - 1].kind == Open {
        assert forall i :: 0 <= i < |below| ==> stack[i] == below[i];
        assert forall i :: |below| <= i < |stack| ==> stack[i] == (Head(toks[k - 1]).js || InJs(below));
      } else if toks[k - 1].kind == Close {
        assert forall i :: 0 <= i < |stack| ==> stack[i] == below[i];
      }
    }
    var stack := StackAt(toks, k);
    if InJs(stack) {
      var i :| 0 <= i < |stack| && stack[i];
      assert stack[|stack| - 1];
    }
  }

  // ----- Runs -----

  datatype Run = Run(start: nat, end: nat)

  function PropEnd(toks: seq<Token>, j: nat): (e: nat)
    requires j <= |toks|
    ensures j <= e <= |toks|
    ensures forall k :: j <= k < e ==> toks[k].kind == Prop
    ensures e < |toks| ==> toks[e].kind != Prop
    decreases |toks| - j
  {
    if j < |toks| && toks[j].kind == Prop then PropEnd(toks, j + 1) else j
  }

  /** `find_property_runs` from token `i` on. */
  function Runs(toks: seq<Token>, i: nat): seq<Run>
    requires i <= |toks|
    decreases |toks| - i
  {
    if i == |toks| then []
    else if toks[i].kind != Prop || InJs(StackAt(toks, i)) then Runs(toks, i + 1)
    else
      var j := PropEnd(toks, i);
      (if j - i >= 2 then [Run(i, j)] else []) + Runs(toks, j)
  }

  lemma {:induction false} RunsStep(toks: seq<Token>, i: nat)
    requires i < |toks|
    ensures Runs(toks, i) ==
            if toks[i].kind != Prop || InJs(StackAt(toks, i)) then Runs(toks, i + 1)
            else if PropEnd(toks, i) - i >= 2
            then [Run(i, PropEnd(toks, i))] + Runs(toks, PropEnd(toks, i))
            else Runs(toks, PropEnd(toks, i))
  {
    hide StackAt;
  }

  lemma {:induction false} RunsEnd(toks: seq<Token>)
    ensures Runs(toks, |toks|) == []
  {
  }

  method PushFrames(stack: seq<bool>, line: Token) returns (jsStack: seq<bool>)
    ensures jsStack == Push(stack, line)
  {
    var isJs := Head(line).js || InJs(stack);
    var framesToPush := Max(1, Head(line).braces);
    jsStack := stack;
    for f := 0 to framesToPush
      invariant jsStack == stack + Repeat(isJs, f)
    {
      jsStack := jsStack + [isJs];
    }
  }

  method PopFrames(stack: seq<bool>, line: Token) returns (jsStack: seq<bool>)
    ensures jsStack == Pop(stack, line)
  {
    var net := Head(line).braces;
    var pops := if net < 0 then Max(1, -net) else 1;
    jsStack := stack;
    for f := 0 to pops
      invariant jsStack == stack[..Max(0, |stack| - f)]
    {
      if jsStack != [] {
        jsStack := jsStack[..|jsStack| - 1];
      }
    }
  }

  method FindPropertyRuns(toks: seq<Token>) returns (runs: seq<Run>)
    ensures runs == Runs(toks, 0)
  {
    hide Runs, StackAt, Push, Pop;
    runs := [];
    var jsStack := NoFrames(toks);
    var i := 0;
    while i < |toks|
      invariant i <= |toks|
      invariant jsStack == StackAt(toks, i)
      invariant runs + Runs(toks, i) == Runs(toks, 0)
    {
      var line := toks[i];
      RunsStep(toks, i);
      StackStep(toks, i);
      if line.kind == Open {
        jsStack := PushFrames(jsStack, line);
        i := i + 1;
        continue;
      }
      if line.kind == Close {
        jsStack := PopFrames(jsStack, line);
        i := i + 1;
        continue;
      }
      if InJs(jsStack) {
        i := i + 1;
        continue;
      }
      if line.kind == Prop {
        var j := i;
        while j < |toks| && toks[j].kind == Prop
          invariant i <= j <= |toks|
          invariant PropEnd(toks, j) == PropEnd(toks, i)
          invariant StackAt(toks, j) == jsStack
        {
          StackStep(toks, j);
          j := j + 1;
        }
        if j - i >= 2 {
          assert runs + ([Run(i, j)] + Runs(toks, j)) == (runs + [Run(i, j)]) + Runs(toks, j);
          runs := runs + [Run(i, j)];
        }
        i := j;
        continue;
      }
      i := i + 1;
    }
    RunsEnd(toks);
  }

  /** The empty stack in front of the first token. */
  function NoFrames(toks: seq<Token>): (stack: seq<bool>)
    ensures stack == StackAt(toks, 0)
  {
    []
  }

  /** A maximal block of at least two properties that stands in no JavaScript body. */
  ghost predicate IsRun(toks: seq<Token>, r: Run) {
    && r.start + 2 <= r.end <= |toks|
    && (forall k :: r.start <= k < r.end ==> toks[k].kind == Prop)
    && (r.end < |toks| ==> toks[r.end].kind != Prop)
    && (r.start > 0 ==> toks[r.start - 1].kind != Prop)
    && !InJs(StackAt(toks, r.start))
  }

  lemma {:induction false} StackOverProps(toks: seq<Token>, i: nat, j: nat)
    requires i <= j <= |toks|
    requires forall k :: i <= k < j ==> toks[k].kind == Prop
    ensures StackAt(toks, j) == StackAt(toks, i)
    decreases j - i
  {
    if i < j { StackOverProps(toks, i, j - 1); }
  }

  lemma {:induction false} RunsAre(toks: seq<Token>, i: nat, r: Run)
    requires i <= |toks|
    requires 0 < i < |toks| && toks[i - 1].kind == Prop ==> InJs(StackAt(toks, i)) || toks[i].kind != Prop
    ensures r in Runs(toks, i) <==> i <= r.start && IsRun(toks, r)
    decreases |toks| - i
  {
    hide Runs, StackAt;
    if i == |toks| {
      RunsEnd(toks);
    } else {
      RunsStep(toks, i);
      if toks[i].kind != Prop || InJs(StackAt(toks, i)) {
        if toks[i].kind == Prop { StackOverProps(toks, i, i + 1); }
        RunsAre(toks, i + 1, r);
      } else {
        var j := PropEnd(toks, i);
        RunsAre(toks, j, r);
        if i <= r.start < j && IsRun(toks, r) {
          assert r.start == i;
          assert r.end == j;
        }
      }
    }
  }

  /** The reported ranges are exactly the maximal property blocks outside JavaScript. */
  lemma {:induction false} RunsExact(toks: seq<Token>, r: Run)
    ensures r in Runs(toks, 0) <==> IsRun(toks, r)
  {
    RunsAre(toks, 0, r);
  }

  ghost predicate Ordered(runs: seq<Run>, n: nat) {
    && (forall p :: 0 <= p < |runs| ==> runs[p].start < runs[p].end <= n)
    && (forall p, q :: 0 <= p < q < |runs| ==> runs[p].end <= runs[q].start)
  }

  lemma {:induction false} RunsOrdered(toks: seq<Token>, i: nat)
    requires i <= |toks|
    ensures Ordered(Runs(toks, i), |toks|)
    ensures forall p :: 0 <= p < |Runs(toks, i)| ==> i <= Runs(toks, i)[p].start
    decreases |toks| - i
  {
    hide Runs, StackAt;
    if i == |toks| {
      RunsEnd(toks);
    } else {
      RunsStep(toks, i);
      if toks[i].kind != Prop || InJs(StackAt(toks, i)) {
        RunsOrdered(toks, i + 1);
      } else {
        RunsOrdered(toks, PropEnd(toks, i));
      }
    }
  }

  // ----- Sorting one run -----

  function Length(t: Token): nat { |Head(t).text| }

  predicate SortedAscending(run: seq<Token>) {
    |run| <= 1 || (Length(run[0]) <= Length(run[1]) && SortedAscending(run[1..]))
  }

  function Place(t: Token, sorted: seq<Token>): seq<Token> {
    if sorted == [] || Length(t) <= Length(sorted[0]) then [t] + sorted
    else [sorted[0]] + Place(t, sorted[1..])
  }

  /** Python's stable `sorted` by length. */
  function SortRun(run: seq<Token>): seq<Token> {
    if run == [] then [] else Place(run[0], SortRun(run[1..]))
  }

  /** The tokens of length `n`, in order. */
  function OfLength(run: seq<Token>, n: nat): seq<Token> {
    if run == [] then []
    else (if Length(run[0]) == n then [run[0]] else []) + OfLength(run[1..], n)
  }

  /** Ascending, and tokens of equal length keep their order. */
  ghost predicate StablySorted(run: seq<Token>, out: seq<Token>) {
    SortedAscending(out) && forall n: nat :: OfLength(out, n) == OfLength(run, n)
  }

  lemma {:induction false} PlaceSorted(t: Token, sorted: seq<Token>)
    requires SortedAscending(sorted)
    ensures SortedAscending(Place(t, sorted))
    ensures Place(t, sorted)[0] == t || (sorted != [] && Place(t, sorted)[0] == sorted[0])
  {
    if sorted != [] && Length(t) > Length(sorted[0]) {
      PlaceSorted(t, sorted[1..]);
      assert Place(t, sorted)[1..] == Place(t, sorted[1..]);
    } else {
      assert Place(t, sorted)[1..] == sorted;
    }
  }

  lemma {:induction false} OfLengthCons(x: Token, rest: seq<Token>, n: nat)
    ensures OfLength([x] + rest, n) == if Length(x) == n then [x] + OfLength(rest, n) else OfLength(rest, n)
  {
    assert ([x] + rest)[1..] == rest;
  }

  lemma {:induction false} PlaceKeeps(t: Token, sorted: seq<Token>, n: nat)
    ensures OfLength(Place(t, sorted), n) == if Length(t) == n then [t] + OfLength(sorted, n) else OfLength(sorted, n)
  {
    hide OfLength, Length;
    if sorted == [] || Length(t) <= Length(sorted[0]) {
      OfLengthCons(t, sorted, n);
    } else {
      PlaceKeeps(t, sorted[1..], n);
      OfLengthCons(sorted[0], Place(t, sorted[1..]), n);
      OfLengthCons(sorted[0], sorted[1..], n);
      assert sorted == [sorted[0]] + sorted[1..];
    }
  }

  lemma {:induction false} PlacePermutes(t: Token, sorted: seq<Token>)
    ensures multiset(Place(t, sorted)) == multiset{t} + multiset(sorted)
  {
    if sorted != [] && Length(t) > Length(sorted[0]) {
      PlacePermutes(t, sorted[1..]);
      assert sorted == [sorted[0]] + sorted[1..];
    }
  }

  lemma {:induction false} SortRunStable(run: seq<Token>)
    ensures StablySorted(run, SortRun(run))
    ensures multiset(SortRun(run)) == multiset(run)
    ensures |SortRun(run)| == |run|
  {
    if run != [] {
      SortRunStable(run[1..]);
      forall n: nat
        ensures OfLength(SortRun(run), n) == OfLength(run, n)
      {
        PlaceKeeps(run[0], SortRun(run[1..]), n);
        assert OfLength(SortRun(run[1..]), n) == OfLength(run[1..], n);
      }
      PlaceSorted(run[0], SortRun(run[1..]));
      PlacePermutes(run[0], SortRun(run[1..]));
      assert run == [run[0]] + run[1..];
      assert |multiset(SortRun(run))| == |multiset(run)|;
    }
  }

  lemma {:induction false} OfLengthMember(run: seq<Token>, n: nat, k: nat)
    requires k < |OfLength(run, n)|
    ensures Length(OfLength(run, n)[k]) == n && OfLength(run, n)[k] in run
  {
    if Length(run[0]) == n {
      if k > 0 { OfLengthMember(run[1..], n, k - 1); }
    } else {
      OfLengthMember(run[1..], n, k);
    }
  }

  lemma {:induction false} FirstIsLeast(run: seq<Token>, k: nat)
    requires SortedAscending(run) && k < |run|
    ensures Length(run[0]) <= Length(run[k])
    decreases k
  {
    if k > 0 { FirstIsLeast(run[1..], k - 1); }
  }

  lemma {:induction false} SameHead(xs: seq<Token>, ys: seq<Token>)
    requires SortedAscending(ys) && xs != []
    requires forall n: nat :: OfLength(xs, n) == OfLength(ys, n)
    ensures ys != [] && Length(ys[0]) <= Length(xs[0])
  {
    var n := Length(xs[0]);
    assert OfLength(xs, n)[0] == xs[0];
    assert OfLength(ys, n) == OfLength(xs, n);
    OfLengthMember(ys, n, 0);
    var k :| 0 <= k < |ys| && ys[k] == OfLength(ys, n)[0];
    FirstIsLeast(ys, k);
  }

  /** Stability and order leave no choice: there is one stably sorted form of a run. */
  lemma {:induction false} StableUnique(xs: seq<Token>, ys: seq<Token>)
    requires SortedAscending(xs) && SortedAscending(ys)
    requires forall n: nat :: OfLength(xs, n) == OfLength(ys, n)
    ensures xs == ys
  {
    if xs == [] {
      if ys != [] { SameHead(ys, xs); }
    } else {
      SameHead(xs, ys);
      SameHead(ys, xs);
      var n := Length(xs[0]);
      assert OfLength(xs, n)[0] == xs[0] && OfLength(ys, n)[0] == ys[0];
      forall m: nat
        ensures OfLength(xs[1..], m) == OfLength(ys[1..], m)
      {
        assert OfLength(xs, m) == OfLength(ys, m);
        TailOfLength(xs, m);
        TailOfLength(ys, m);
      }
      StableUnique(xs[1..], ys[1..]);
    }
  }

  lemma {:induction false} TailOfLength(xs: seq<Token>, m: nat)
    requires xs != []
    ensures OfLength(xs[1..], m) == if Length(xs[0]) == m then OfLength(xs, m)[1..] else OfLength(xs, m)
  {
  }

  // ----- Rewriting the runs -----

  /** `is_run_safe` */
  predicate Safe(run: seq<Token>) {
    forall i :: 0 <= i < |run| ==> run[i].kind == Prop && |run[i].raws| == 1 && !run[i].raws[0].nested
  }

  /** A run `process_file` rewrites: safe and out of order. */
  predicate Eligible(toks: seq<Token>, r: Run) {
    && r.start <= r.end <= |toks|
    && Safe(toks[r.start..r.end])
    && !SortedAscending(toks[r.start..r.end])
  }

  function Sortable(toks: seq<Token>, runs: seq<Run>): seq<Run> {
    if runs == [] then []
    else if Eligible(toks, runs[0]) then [runs[0]] + Sortable(toks, runs[1..])
    else Sortable(toks, runs[1..])
  }

  function Replace(toks: seq<Token>, r: Run): seq<Token>
    requires r.start <= r.end <= |toks|
  {
    toks[..r.start] + SortRun(toks[r.start..r.end]) + toks[r.end..]
  }

  /** The slices replaced from the last run to the first, as the source does it. */
  function Rewrite(toks: seq<Token>, runs: seq<Run>): (out: seq<Token>)
    requires forall p :: 0 <= p < |runs| ==> runs[p].start <= runs[p].end <= |toks|
    ensures |out| == |toks|
  {
    if runs == [] then toks
    else
      var later := Rewrite(toks, runs[1..]);
      SortRunStable(later[runs[0].start..runs[0].end]);
      Replace(later, runs[0])
  }

  method CollectSortable(toks: seq<Token>, runs: seq<Run>) returns (sortable: seq<Run>)
    ensures sortable == Sortable(toks, runs)
  {
    hide Eligible;
    sortable := [];
    var i := 0;
    while i < |runs|
      invariant i <= |runs|
      invariant sortable + Sortable(toks, runs[i..]) == Sortable(toks, runs)
    {
      ghost var rest := Sortable(toks, runs[i + 1..]);
      assert runs[i..] == [runs[i]] + runs[i + 1..];
      if Eligible(toks, runs[i]) {
        assert sortable + ([runs[i]] + rest) == (sortable + [runs[i]]) + rest;
        sortable := sortable + [runs[i]];
      }
      i := i + 1;
    }
    assert runs[|runs|..] == [];
  }

  method RewriteRuns(toks: seq<Token>, sortable: seq<Run>) returns (out: seq<Token>)
    requires forall p :: 0 <= p < |sortable| ==> sortable[p].start <= sortable[p].end <= |toks|
    ensures out == Rewrite(toks, sortable)
  {
    hide SortRun;
    out := toks;
    var j := |sortable|;
    assert sortable[j..] == [];
    while j > 0
      invariant 0 <= j <= |sortable|
      invariant out == Rewrite(toks, sortable[j..])
    {
      j := j - 1;
      assert sortable[j..] == [sortable[j]] + sortable[j + 1..];
      out := Replace(out, sortable[j]);
    }
    assert sortable[0..] == sortable;
  }

  lemma {:induction false} SortableAre(toks: seq<Token>, runs: seq<Run>, r: Run)
    ensures r in Sortable(toks, runs) <==> r in runs && Eligible(toks, r)
  {
    hide Eligible;
    if runs != [] {
      SortableAre(toks, runs[1..], r);
      assert runs == [runs[0]] + runs[1..];
    }
  }

  lemma {:induction false} SortableOrdered(toks: seq<Token>, runs: seq<Run>)
    requires Ordered(runs, |toks|)
    ensures Ordered(Sortable(toks, runs), |toks|)
  {
    hide Eligible;
    if runs != [] {
      var rest := Sortable(toks, runs[1..]);
      SortableOrdered(toks, runs[1..]);
      forall p | 0 <= p < |rest|
        ensures runs[0].end <= rest[p].start
      {
        SortableAre(toks, runs[1..], rest[p]);
        var q :| 0 <= q < |runs[1..]| && runs[1..][q] == rest[p];
        assert runs[q + 1] == rest[p];
      }
    }
  }

  /** The sort part of `process_file`, on logical lines. */
  method SortPass(toks: seq<Token>) returns (out: seq<Token>, sortable: seq<Run>)
    ensures Ordered(Runs(toks, 0), |toks|) && Ordered(sortable, |toks|)
    ensures sortable == Sortable(toks, Runs(toks, 0))
    ensures out == Rewrite(toks, sortable)
  {
    hide Runs, Sortable, Rewrite;
    var runs := FindPropertyRuns(toks);
    RunsOrdered(toks, 0);
    SortableOrdered(toks, runs);
    sortable := CollectSortable(toks, runs);
    out := RewriteRuns(toks, sortable);
  }

  /** Whether token `k` belongs to one of the runs. */
  predicate Covered(runs: seq<Run>, k: nat) {
    exists p :: 0 <= p < |runs| && runs[p].start <= k < runs[p].end
  }

  lemma {:induction false} CoveredTail(runs: seq<Run>, k: nat)
    requires runs != []
    ensures Covered(runs, k) <==> runs[0].start <= k < runs[0].end || Covered(runs[1..], k)
  {
    if Covered(runs[1..], k) {
      var p :| 0 <= p < |runs[1..]| && runs[1..][p].start <= k < runs[1..][p].end;
      assert runs[p + 1] == runs[1..][p];
    }
    if Covered(runs, k) && !(runs[0].start <= k < runs[0].end) {
      var p :| 0 <= p < |runs| && runs[p].start <= k < runs[p].end;
      assert runs[1..][p - 1] == runs[p];
    }
  }

  lemma {:induction false} ReplaceAt(toks: seq<Token>, r: Run)
    requires r.start <= r.end <= |toks|
    ensures |Replace(toks, r)| == |toks|
    ensures forall k :: 0 <= k < |toks| && !(r.start <= k < r.end) ==> Replace(toks, r)[k] == toks[k]
    ensures Replace(toks, r)[r.start..r.end] == SortRun(toks[r.start..r.end])
    ensures multiset(Replace(toks, r)) == multiset(toks)
  {
    hide SortRun;
    SortRunStable(toks[r.start..r.end]);
    assert toks == toks[..r.start] + toks[r.start..r.end] + toks[r.end..];
  }

  /** A token outside every rewritten run is where it was. */
  lemma {:induction false} RewriteOutside(toks: seq<Token>, runs: seq<Run>, k: nat)
    requires Ordered(runs, |toks|) && k < |toks| && !Covered(runs, k)
    ensures Rewrite(toks, runs)[k] == toks[k]
  {
    hide SortRun, Covered, Replace;
    if runs != [] {
      CoveredTail(runs, k);
      RewriteOutside(toks, runs[1..], k);
      ReplaceAt(Rewrite(toks, runs[1..]), runs[0]);
    }
  }

  /** Each rewritten run holds its own tokens, sorted. */
  lemma {:induction false} RewriteInside(toks: seq<Token>, runs: seq<Run>, p: nat)
    requires Ordered(runs, |toks|) && p < |runs|
    ensures Rewrite(toks, runs)[runs[p].start..runs[p].end] == SortRun(toks[runs[p].start..runs[p].end])
  {
    hide SortRun, Replace;
    var rest := runs[1..];
    var later := Rewrite(toks, rest);
    var r := runs[0];
    ReplaceAt(later, r);
    if p > 0 {
      assert rest[p - 1] == runs[p];
      RewriteInside(toks, rest, p - 1);
      SameSlice(Rewrite(toks, runs), later, runs[p].start, runs[p].end);
    } else {
      FirstUntouched(toks, runs);
    }
  }

  lemma {:induction false} SameSlice(xs: seq<Token>, ys: seq<Token>, a: nat, b: nat)
    requires a <= b <= |xs| == |ys|
    requires forall k :: a <= k < b ==> xs[k] == ys[k]
    ensures xs[a..b] == ys[a..b]
  {
  }

  lemma {:induction false} FirstUntouched(toks: seq<Token>, runs: seq<Run>)
    requires Ordered(runs, |toks|) && runs != []
    ensures Rewrite(toks, runs[1..])[runs[0].start..runs[0].end] == toks[runs[0].start..runs[0].end]
  {
    hide SortRun, Replace, Rewrite, Covered;
    var later := Rewrite(toks, runs[1..]);
    forall m | runs[0].start <= m < runs[0].end
      ensures later[m] == toks[m]
    {
      FirstAlone(toks, runs, m);
      RewriteOutside(toks, runs[1..], m);
    }
    SameSlice(later, toks, runs[0].start, runs[0].end);
  }

  lemma {:induction false} FirstAlone(toks: seq<Token>, runs: seq<Run>, m: nat)
    requires Ordered(runs, |toks|) && runs != [] && runs[0].start <= m < runs[0].end
    ensures !Covered(runs[1..], m)
  {
  }

  lemma {:induction false} RewritePermutes(toks: seq<Token>, runs: seq<Run>)
    requires forall p :: 0 <= p < |runs| ==> runs[p].start <= runs[p].end <= |toks|
    ensures multiset(Rewrite(toks, runs)) == multiset(toks)
  {
    hide SortRun, Replace;
    if runs != [] {
      RewritePermutes(toks, runs[1..]);
      ReplaceAt(Rewrite(toks, runs[1..]), runs[0]);
    }
  }
}
