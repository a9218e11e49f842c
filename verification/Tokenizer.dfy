/** `tokenize`: grouping physical lines into logical lines. A property or other line absorbs
    what its brackets, trailing operators or the next line's prefix claim for it. */
module Tokenizer {
  import opened Lines
  import Text

  /** `LogicalLine` */
  datatype Token = Token(raws: seq<Line>, kind: Kind, start: nat)

  predicate Grows(kind: Kind) { kind == Prop || kind == Other }

  /** Whether a logical line at bracket depth `depth`, ending in `last`, takes in `next`. */
  predicate Absorbs(depth: int, last: Line, inner: bool, next: Line) {
    && next.kind != Blank
    && !(next.brackets < 0 && depth + next.brackets < 0)
    && (depth > 0 || (if inner then last.trailingInner else last.trailing) || next.continues)
  }

  /** The first index from `j` on that is not absorbed. */
  function Extend(lines: seq<Line>, j: nat, depth: int, last: Line, inner: bool): (e: nat)
    requires j <= |lines|
    ensures j <= e <= |lines|
    decreases |lines| - j
  {
    if j < |lines| && Absorbs(depth, last, inner, lines[j])
    then Extend(lines, j + 1, depth + lines[j].brackets, lines[j], true)
    else j
  }

  function TokenEnd(lines: seq<Line>, i: nat): (e: nat)
    requires i < |lines|
    ensures i < e <= |lines|
  {
    if Grows(lines[i].kind) then Extend(lines, i + 1, lines[i].brackets, lines[i], false) else i + 1
  }

  function Tokens(lines: seq<Line>, i: nat): seq<Token>
    requires i <= |lines|
    decreases |lines| - i
  {
    if i == |lines| then []
    else
      var e := TokenEnd(lines, i);
      [Token(lines[i..e], lines[i].kind, i)] + Tokens(lines, e)
  }

  /** One step of the grouping, for proofs that should not unfold it further. */
  lemma {:induction false} TokensStep(lines: seq<Line>, i: nat)
    requires i < |lines|
    ensures Tokens(lines, i) ==
            [Token(lines[i..TokenEnd(lines, i)], lines[i].kind, i)] + Tokens(lines, TokenEnd(lines, i))
  {
    hide TokenEnd;
  }

  lemma {:induction false} TokensEnd(lines: seq<Line>)
    ensures Tokens(lines, |lines|) == []
  {
  }

  method Tokenize(lines: seq<Line>) returns (logical: seq<Token>)
    ensures logical == Tokens(lines, 0)
  {
    hide Tokens;
    logical := [];
    var i := 0;
    while i < |lines|
      invariant i <= |lines|
      invariant logical + Tokens(lines, i) == Tokens(lines, 0)
    {
      var line, end := Absorb(lines, i);
      TokensStep(lines, i);
      assert (logical + [line]) + Tokens(lines, end) == logical + ([line] + Tokens(lines, end));
      logical := logical + [line];
      i := end;
    }
    TokensEnd(lines);
  }

  /** The inner loop: the logical line that starts at `start`, and where the next one starts. */
  method Absorb(lines: seq<Line>, start: nat) returns (line: Token, i: nat)
    requires start < |lines|
    ensures i == TokenEnd(lines, start) && line == Token(lines[start..i], lines[start].kind, start)
  {
    var kind := lines[start].kind;
    var raws := [lines[start]];
    i := start + 1;
    if !Grows(kind) {
      return Token(raws, kind, start), i;
    }
    var depth := lines[start].brackets;
    var last := lines[start];
    var inner := false;
    while i < |lines|
      invariant start < i <= |lines| && raws == lines[start..i]
      invariant Extend(lines, i, depth, last, inner) == TokenEnd(lines, start)
    {
      var next := lines[i];
      if next.kind == Blank {
        break;
      }
      if next.brackets < 0 && depth + next.brackets < 0 {
        break;
      }
      var absorb := false;
      if depth > 0 {
        absorb := true;
      } else if if inner then last.trailingInner else last.trailing {
        absorb := true;
      } else if next.continues {
        absorb := true;
      }
      if !absorb {
        break;
      }
      raws := raws + [next];
      depth := depth + next.brackets;
      last := next;
      inner := true;
      i := i + 1;
    }
    line := Token(raws, kind, start);
  }

  // ----- What the token list means, without the algorithm -----

  /** Net bracket count of a group of lines. */
  function Depth(raws: seq<Line>): int {
    if raws == [] then 0 else Depth(raws[..|raws| - 1]) + raws[|raws| - 1].brackets
  }

  function Flatten(toks: seq<Token>): seq<Line> {
    if toks == [] then [] else toks[0].raws + Flatten(toks[1..])
  }

  /** Line `m` of a group is claimed by the lines before it. */
  predicate ClaimedAt(raws: seq<Line>, m: nat)
    requires 1 <= m < |raws|
  {
    Absorbs(Depth(raws[..m]), raws[m - 1], m > 1, raws[m])
  }

  /** Every line of the group was claimed by what precedes it. */
  ghost predicate Claimed(raws: seq<Line>) {
    forall m: nat :: 1 <= m < |raws| ==> ClaimedAt(raws, m)
  }

  ghost predicate Grouped(t: Token) {
    && |t.raws| > 0
    && t.kind == t.raws[0].kind
    && (!Grows(t.kind) ==> |t.raws| == 1)
    && Claimed(t.raws)
  }

  /** The group does not claim `next`. */
  ghost predicate Stops(t: Token, next: Line)
    requires |t.raws| > 0
  {
    Grows(t.kind) ==> !Absorbs(Depth(t.raws), t.raws[|t.raws| - 1], |t.raws| > 1, next)
  }

  /** Groups that claim their own lines and stop before the next one, at true offsets. */
  ghost predicate Partition(toks: seq<Token>, base: nat) {
    toks != [] ==>
      && Grouped(toks[0])
      && toks[0].start == base
      && (|toks| > 1 && |toks[1].raws| > 0 ==> Stops(toks[0], toks[1].raws[0]))
      && Partition(toks[1..], base + |toks[0].raws|)
  }

  lemma {:induction false} ClaimedGrows(raws: seq<Line>, next: Line)
    requires |raws| > 0 && Claimed(raws)
    requires Absorbs(Depth(raws), raws[|raws| - 1], |raws| > 1, next)
    ensures Claimed(raws + [next])
    ensures Depth(raws + [next]) == Depth(raws) + next.brackets
  {
    hide Absorbs;
    var more := raws + [next];
    assert more[..|raws|] == raws;
    forall m: nat | 1 <= m < |more|
      ensures ClaimedAt(more, m)
    {
      if m < |raws| {
        assert ClaimedAt(raws, m) && more[..m] == raws[..m];
      }
    }
  }

  lemma {:induction false} ExtendGroups(lines: seq<Line>, i: nat, j: nat)
    requires i < j <= |lines|
    requires Claimed(lines[i..j])
    ensures var e := Extend(lines, j, Depth(lines[i..j]), lines[j - 1], j - i > 1);
            && Claimed(lines[i..e])
            && (e < |lines| ==> !Absorbs(Depth(lines[i..e]), lines[e - 1], e - i > 1, lines[e]))
    decreases |lines| - j
  {
    hide Absorbs, Depth;
    if j < |lines| && Absorbs(Depth(lines[i..j]), lines[j - 1], j - i > 1, lines[j]) {
      assert lines[i..j + 1] == lines[i..j] + [lines[j]];
      ClaimedGrows(lines[i..j], lines[j]);
      ExtendGroups(lines, i, j + 1);
    }
  }

  lemma {:induction false} DepthOfOne(line: Line)
    ensures Depth([line]) == line.brackets
  {
    assert [line][..0] == [];
  }

  lemma {:induction false} TokenIsGrouped(lines: seq<Line>, i: nat)
    requires i < |lines|
    ensures var e := TokenEnd(lines, i);
            && Grouped(Token(lines[i..e], lines[i].kind, i))
            && (e < |lines| ==> Stops(Token(lines[i..e], lines[i].kind, i), lines[e]))
  {
    hide Absorbs, Depth, Extend;
    if Grows(lines[i].kind) {
      assert lines[i..i + 1] == [lines[i]];
      DepthOfOne(lines[i]);
      ExtendGroups(lines, i, i + 1);
    }
  }

  /** Lossless partition: joining the groups gives the input back, offsets are true, every
      group claims exactly its own lines, and none could have taken the line behind it. */
  lemma {:induction false} TokensPartition(lines: seq<Line>, i: nat)
    requires i <= |lines|
    ensures Partition(Tokens(lines, i), i)
    ensures Flatten(Tokens(lines, i)) == lines[i..]
    decreases |lines| - i
  {
    hide Extend, Absorbs, Grouped, Stops;
    if i < |lines| {
      var e := TokenEnd(lines, i);
      TokenIsGrouped(lines, i);
      TokensPartition(lines, e);
      var toks := Tokens(lines, i);
      assert toks[1..] == Tokens(lines, e);
      assert e < |lines| ==> toks[1].raws[0] == lines[e];
      assert lines[i..] == lines[i..e] + lines[e..];
    }
  }

  lemma {:induction false} ExtendMeets(lines: seq<Line>, i: nat, t: Token, m: nat)
    requires Grouped(t) && Grows(t.kind) && 1 <= m <= |t.raws|
    requires i + |t.raws| <= |lines| && lines[i..i + |t.raws|] == t.raws
    requires i + |t.raws| < |lines| ==> Stops(t, lines[i + |t.raws|])
    ensures Extend(lines, i + m, Depth(t.raws[..m]), t.raws[m - 1], m > 1) == i + |t.raws|
    decreases |t.raws| - m
  {
    hide Absorbs;
    if m < |t.raws| {
      assert ClaimedAt(t.raws, m);
      assert lines[i + m] == t.raws[m];
      assert t.raws[..m + 1][..m] == t.raws[..m];
      ExtendMeets(lines, i, t, m + 1);
    } else {
      assert t.raws[..m] == t.raws;
    }
  }

  /** The partition is unique, so these conditions say all there is to say about `tokenize`. */
  lemma {:induction false} PartitionUnique(lines: seq<Line>, i: nat, toks: seq<Token>)
    requires i <= |lines| && Partition(toks, i) && Flatten(toks) == lines[i..]
    ensures toks == Tokens(lines, i)
    decreases |lines| - i
  {
    hide Tokens, Extend, Absorbs, Depth;
    TokensEnd(lines);
    if toks != [] {
      var t := toks[0];
      var e := i + |t.raws|;
      assert Flatten(toks) == t.raws + Flatten(toks[1..]);
      assert lines[i..][..|t.raws|] == t.raws;
      assert lines[i..e] == t.raws && lines[i] == t.raws[0];
      assert lines[e..] == lines[i..][|t.raws|..] == Flatten(toks[1..]);
      if e < |lines| {
        assert toks[1..] != [] && |toks[1].raws| > 0;
        assert Flatten(toks[1..])[0] == toks[1].raws[0] == lines[e];
      }
      if Grows(t.kind) {
        assert t.raws[..1] == [lines[i]];
        DepthOfOne(lines[i]);
        ExtendMeets(lines, i, t, 1);
      }
      TokensStep(lines, i);
      PartitionUnique(lines, e, toks[1..]);
    }
  }

  lemma {:induction false} DepthNonNegative(t: Token, m: nat)
    requires Grouped(t) && 1 <= m <= |t.raws|
    requires t.raws[0].brackets >= 0
    ensures Depth(t.raws[..m]) >= 0
    decreases m
  {
    if m == 1 {
      assert t.raws[..1][..0] == [] && t.raws[..1][0] == t.raws[0];
    } else {
      DepthNonNegative(t, m - 1);
      assert ClaimedAt(t.raws, m - 1);
      assert t.raws[..m][..m - 1] == t.raws[..m - 1];
    }
  }

  /** A logical line that opens at a non-negative depth never closes more than it opened, and
      in any case no line is absorbed that would close a bracket of an outer block. */
  lemma {:induction false} NoOuterClose(lines: seq<Line>, k: nat, m: nat)
    requires k < |Tokens(lines, 0)| && 1 <= m <= |Tokens(lines, 0)[k].raws|
    ensures var t := Tokens(lines, 0)[k];
            && (t.raws[0].brackets >= 0 ==> Depth(t.raws[..m]) >= 0)
            && (m > 1 && t.raws[m - 1].brackets < 0 ==> Depth(t.raws[..m]) >= 0)
  {
    TokensPartition(lines, 0);
    PartitionAt(Tokens(lines, 0), 0, k);
    var t := Tokens(lines, 0)[k];
    if t.raws[0].brackets >= 0 {
      DepthNonNegative(t, m);
    }
    if m > 1 {
      assert ClaimedAt(t.raws, m - 1);
      assert t.raws[..m][..m - 1] == t.raws[..m - 1];
    }
  }

  function Size(toks: seq<Token>): nat {
    if toks == [] then 0 else Size(toks[..|toks| - 1]) + |toks[|toks| - 1].raws|
  }

  lemma {:induction false} FlattenAppend(xs: seq<Token>, ys: seq<Token>)
    ensures Flatten(xs + ys) == Flatten(xs) + Flatten(ys)
  {
    if xs == [] {
      assert xs + ys == ys;
    } else {
      assert (xs + ys)[1..] == xs[1..] + ys;
      FlattenAppend(xs[1..], ys);
    }
  }

  lemma {:induction false} FlattenSize(toks: seq<Token>)
    ensures |Flatten(toks)| == Size(toks)
    decreases |toks|
  {
    if toks != [] {
      var n := |toks| - 1;
      assert toks == toks[..n] + [toks[n]];
      FlattenAppend(toks[..n], [toks[n]]);
      assert Flatten([toks[n]]) == toks[n].raws + Flatten([]);
      FlattenSize(toks[..n]);
    }
  }

  /** Every group of a partition is grouped, starts where the ones before it end, and stops. */
  lemma {:induction false} PartitionAt(toks: seq<Token>, base: nat, k: nat)
    requires Partition(toks, base) && k < |toks|
    ensures Grouped(toks[k]) && toks[k].start == base + Size(toks[..k])
    ensures k + 1 < |toks| ==> |toks[k + 1].raws| > 0 && Stops(toks[k], toks[k + 1].raws[0])
    decreases k
  {
    if k > 0 {
      PartitionAt(toks[1..], base + |toks[0].raws|, k - 1);
      SizeSplit(toks[..k]);
      assert toks[..k][1..] == toks[1..][..k - 1];
    } else if |toks| > 1 {
      assert Grouped(toks[1..][0]);
    }
  }

  lemma {:induction false} SizeSplit(toks: seq<Token>)
    requires toks != []
    ensures Size(toks) == |toks[0].raws| + Size(toks[1..])
    decreases |toks|
  {
    var n := |toks| - 1;
    if n > 0 {
      SizeSplit(toks[..n]);
      assert toks[1..][..n - 1] == toks[..n][1..];
    } else {
      assert toks[1..] == [] && toks[..0] == [];
    }
  }

  /** Token `k` does not claim the first line of the token behind it. */
  ghost predicate StopsAt(toks: seq<Token>, k: nat)
    requires k + 1 < |toks|
  {
    |toks[k].raws| > 0 && |toks[k + 1].raws| > 0 && Stops(toks[k], toks[k + 1].raws[0])
  }

  /** And conversely, these pointwise facts make a partition. */
  lemma {:induction false} PartitionFrom(toks: seq<Token>, base: nat)
    requires forall k :: 0 <= k < |toks| ==> Grouped(toks[k]) && toks[k].start == base + Size(toks[..k])
    requires forall k: nat :: k + 1 < |toks| ==> StopsAt(toks, k)
    ensures Partition(toks, base)
    decreases |toks|
  {
    if toks != [] {
      var rest := toks[1..];
      forall k | 0 <= k < |rest|
        ensures Grouped(rest[k]) && rest[k].start == base + |toks[0].raws| + Size(rest[..k])
      {
        assert rest[k] == toks[k + 1];
        SizeSplit(toks[..k + 1]);
        assert toks[..k + 1][1..] == rest[..k];
      }
      forall k: nat | k + 1 < |rest|
        ensures StopsAt(rest, k)
      {
        assert StopsAt(toks, k + 1);
      }
      PartitionFrom(rest, base + |toks[0].raws|);
      assert toks[0].start == base + Size(toks[..0]);
      assert |toks| > 1 ==> StopsAt(toks, 0);
    }
  }

  /** The lines of token `k` stand in the buffer at its offset. */
  lemma {:induction false} RawsInBuffer(toks: seq<Token>, k: nat)
    requires k < |toks|
    ensures Size(toks[..k]) + |toks[k].raws| <= |Flatten(toks)|
    ensures Flatten(toks)[Size(toks[..k])..Size(toks[..k]) + |toks[k].raws|] == toks[k].raws
  {
    assert toks == toks[..k] + ([toks[k]] + toks[k + 1..]);
    FlattenAppend(toks[..k], [toks[k]] + toks[k + 1..]);
    assert ([toks[k]] + toks[k + 1..])[1..] == toks[k + 1..];
    FlattenSize(toks[..k]);
  }

  /** Comments are taken in wherever they follow: `/` and `*` count as continuation characters, so a
      comment starts a logical line of its own only behind a line that takes in nothing at all, or when
      its own text closes more brackets than are open. */
  lemma {:induction false} CommentIsTaken(lines: seq<Line>, k: nat)
    requires AllWellFormed(lines) && k + 1 < |Tokens(lines, 0)|
    ensures var toks := Tokens(lines, 0);
            && |toks[k].raws| > 0 && |toks[k + 1].raws| > 0
            && var c := toks[k + 1].raws[0];
               && (c.kind == Comment && Grows(toks[k].kind) ==> c.brackets < 0 && Depth(toks[k].raws) + c.brackets < 0)
               && (c.slashes ==> !Grows(toks[k].kind))
  {
    hide Tokens, Depth;
    var toks := Tokens(lines, 0);
    TokensPartition(lines, 0);
    assert lines[0..] == lines;
    PartitionAt(toks, 0, k);
    PartitionAt(toks, 0, k + 1);
    RawsInBuffer(toks, k + 1);
    var lo := Size(toks[..k + 1]);
    assert lines[lo] == Flatten(toks)[lo..lo + |toks[k + 1].raws|][0] == toks[k + 1].raws[0];
    assert WellFormed(lines[lo]);
  }

  /** On text: no `//` line starts a logical line behind a property or any other line that can grow. */
  lemma {:induction false} SlashesAreTaken(raws: seq<string>, k: nat)
    requires k + 1 < |Tokens(DescribeAll(raws), 0)|
    ensures var toks := Tokens(DescribeAll(raws), 0);
            && toks[k + 1].start < |raws|
            && (Text.StartsWith(Text.Strip(raws[toks[k + 1].start]), "//") ==> !Grows(toks[k].kind))
  {
    hide Tokens, Describe, WellFormed, Depth;
    var lines := DescribeAll(raws);
    var toks := Tokens(lines, 0);
    DescribedInput(raws);
    DescribedIsWellFormed(lines);
    CommentIsTaken(lines, k);
    TokensPartition(lines, 0);
    assert lines[0..] == lines;
    PartitionAt(toks, 0, k + 1);
    RawsInBuffer(toks, k + 1);
    var lo := Size(toks[..k + 1]);
    assert lines[lo] == Flatten(toks)[lo..lo + |toks[k + 1].raws|][0] == toks[k + 1].raws[0];
    DescribedSlashes(raws[lo]);
  }

  lemma {:induction false} DescribedSlashes(raw: string)
    ensures Describe(raw).slashes == Text.StartsWith(Text.Strip(raw), "//")
  {
    hide IsBraceFreeControl, HasTrailingOperator, IsContinuation, OpensJsBody, IsCloseThenOpen, IsFenceLine,
      PhysicalKind;
  }
}
