/** What a logical line is, in terms of its physical lines alone: which line it takes in, where it ends, and that
    nothing else is a grouping of this kind. */
module LogicalLines {
  import opened Lines
  import opened Tokenizer
  import Text

  /** The bracket sum of the lines `a` up to `b`. */
  function Net(lines: seq<Line>, a: nat, b: nat): int
    requires a <= b <= |lines|
  {
    if a == b then 0 else Net(lines, a, b - 1) + lines[b - 1].brackets
  }

  /** Of the lines from `a` on, with those up to `b` taken in: the last one ends on an operator. */
  predicate EndsOnOperator(lines: seq<Line>, a: nat, b: nat)
    requires a < b <= |lines|
  {
    if b == a + 1 then lines[a].trailing else lines[b - 1].trailingInner
  }

  /** Line `b` would close a bracket that was open in front of line `a`. */
  predicate ClosesOuter(lines: seq<Line>, a: nat, b: nat)
    requires a <= b < |lines|
  {
    lines[b].brackets < 0 && Net(lines, a, b + 1) < 0
  }

  /** Line `b` belongs to the logical line that started at `a` and has reached it. */
  predicate Belongs(lines: seq<Line>, a: nat, b: nat)
    requires a < b < |lines|
  {
    && (lines[a].kind == Prop || lines[a].kind == Other)
    && lines[b].kind != Blank
    && !ClosesOuter(lines, a, b)
    && (Net(lines, a, b) > 0 || EndsOnOperator(lines, a, b) || lines[b].continues)
  }

  /** The logical line at `a` is the lines up to `e`. */
  ghost predicate IsLogical(lines: seq<Line>, a: nat, e: nat) {
    && a < e <= |lines|
    && (forall b :: a < b < e ==> Belongs(lines, a, b))
    && (e < |lines| ==> !Belongs(lines, a, e))
  }

  /** One grouping: it starts at the first line, every group is a logical line with its own offset and kind, and the
      next one starts where it ends. */
  ghost predicate Grouping(lines: seq<Line>, toks: seq<Token>) {
    && (toks == [] <==> lines == [])
    && (forall k :: 0 <= k < |toks| ==> IsGroup(lines, toks[k], EndOf(lines, toks, k)))
    && (toks != [] ==> toks[0].start == 0)
  }

  ghost predicate IsGroup(lines: seq<Line>, t: Token, e: nat) {
    IsLogical(lines, t.start, e) && t.raws == lines[t.start..e] && t.kind == lines[t.start].kind
  }

  function EndOf(lines: seq<Line>, toks: seq<Token>, k: nat): nat
    requires k < |toks|
  {
    if k + 1 < |toks| then toks[k + 1].start else |lines|
  }

  lemma {:induction false} NetIsDepth(lines: seq<Line>, a: nat, b: nat)
    requires a <= b <= |lines|
    ensures Net(lines, a, b) == Depth(lines[a..b])
  {
    if a < b {
      NetIsDepth(lines, a, b - 1);
      assert lines[a..b][..b - a - 1] == lines[a..b - 1];
    }
  }

  /** The loop's test is membership. */
  lemma {:induction false} AbsorbsIs(lines: seq<Line>, a: nat, b: nat)
    requires a < b < |lines|
    ensures Belongs(lines, a, b) <==>
            Grows(lines[a].kind) && Absorbs(Net(lines, a, b), lines[b - 1], b > a + 1, lines[b])
  {
  }

  lemma {:induction false} ExtendIs(lines: seq<Line>, a: nat, j: nat)
    requires a < j <= |lines| && Grows(lines[a].kind)
    ensures var e := Extend(lines, j, Net(lines, a, j), lines[j - 1], j > a + 1);
            && j <= e <= |lines|
            && (forall b :: j <= b < e ==> Belongs(lines, a, b))
            && (e < |lines| ==> !Belongs(lines, a, e))
    decreases |lines| - j
  {
    hide Absorbs, Belongs;
    if j < |lines| {
      AbsorbsIs(lines, a, j);
      if Belongs(lines, a, j) {
        ExtendIs(lines, a, j + 1);
      }
    }
  }

  lemma {:induction false} TokenEndIs(lines: seq<Line>, a: nat)
    requires a < |lines|
    ensures IsLogical(lines, a, TokenEnd(lines, a))
  {
    hide Extend;
    if Grows(lines[a].kind) {
      assert Net(lines, a, a + 1) == lines[a].brackets;
      ExtendIs(lines, a, a + 1);
    }
  }

  /** There is one end only. */
  lemma {:induction false} LogicalUnique(lines: seq<Line>, a: nat, e: nat, f: nat)
    requires IsLogical(lines, a, e) && IsLogical(lines, a, f)
    ensures e == f
  {
    hide Belongs;
  }

  lemma {:induction false} TokensAre(lines: seq<Line>, i: nat, k: nat)
    requires i <= |lines| && k < |Tokens(lines, i)|
    ensures var toks := Tokens(lines, i); IsGroup(lines, toks[k], EndOf(lines, toks, k)) && toks[0].start == i
    decreases |lines| - i
  {
    hide Tokens, TokenEnd, IsLogical;
    if i == |lines| {
      TokensEnd(lines);
    } else {
      TokensStep(lines, i);
      TokenEndIs(lines, i);
      var e := TokenEnd(lines, i);
      if e < |lines| {
        TokensStep(lines, e);
      } else {
        TokensEnd(lines);
      }
      if k > 0 {
        TokensAre(lines, e, k - 1);
      }
    }
  }

  /** Main result: the tokens are the one grouping into logical lines. A property or other line takes in exactly the
      lines behind it that are not blank, close no outer bracket, and follow an open bracket or an operator or start
      with a continuation; every other line stands alone. */
  lemma {:induction false} TokensExactly(lines: seq<Line>, toks: seq<Token>)
    ensures toks == Tokens(lines, 0) <==> Grouping(lines, toks)
  {
    hide Tokens, TokenEnd, IsLogical;
    if toks == Tokens(lines, 0) {
      if lines != [] {
        TokensStep(lines, 0);
      } else {
        TokensEnd(lines);
      }
      forall k | 0 <= k < |toks|
        ensures IsGroup(lines, toks[k], EndOf(lines, toks, k)) && toks[0].start == 0
      {
        TokensAre(lines, 0, k);
      }
    }
    if Grouping(lines, toks) {
      if toks == [] {
        TokensEnd(lines);
      } else {
        GroupingTail(lines, toks, 0);
        assert toks[0..] == toks;
      }
    }
  }

  lemma {:induction false} GroupIsToken(lines: seq<Line>, t: Token, e: nat)
    requires IsGroup(lines, t, e)
    ensures t.start < e <= |lines|
    ensures Tokens(lines, t.start) == [t] + Tokens(lines, e)
  {
    hide Tokens, TokenEnd, Belongs;
    TokenEndIs(lines, t.start);
    LogicalUnique(lines, t.start, e, TokenEnd(lines, t.start));
    TokensStep(lines, t.start);
  }

  lemma {:induction false} GroupingTail(lines: seq<Line>, toks: seq<Token>, k: nat)
    requires Grouping(lines, toks) && k < |toks|
    ensures toks[k].start < |lines| && toks[k..] == Tokens(lines, toks[k].start)
    decreases |toks| - k
  {
    hide Tokens, IsGroup;
    var e := EndOf(lines, toks, k);
    GroupIsToken(lines, toks[k], e);
    assert toks[k..] == [toks[k]] + toks[k + 1..];
    if k + 1 < |toks| {
      GroupingTail(lines, toks, k + 1);
    } else {
      TokensEnd(lines);
      assert toks[k + 1..] == [];
    }
  }

  /** Behind a logical line whose brackets are open comes nothing but a blank line, or a line that closes more than
      is open. */
  lemma {:induction false} OpenBracketsTakeIn(lines: seq<Line>, k: nat)
    requires k + 1 < |Tokens(lines, 0)|
    ensures var toks := Tokens(lines, 0);
            var a, e := toks[k].start, toks[k + 1].start;
            && a < e < |lines| && toks[k].raws == lines[a..e]
            && (toks[k].kind == Prop || toks[k].kind == Other ==>
                  && (Net(lines, a, e) > 0 ==>
                        lines[e].kind == Blank || (lines[e].brackets < 0 && Net(lines, a, e) + lines[e].brackets < 0))
                  && (lines[e].kind != Blank && lines[e].brackets >= 0 ==>
                        Net(lines, a, e) <= 0 && !EndsOnOperator(lines, a, e) && !lines[e].continues))
  {
    hide Tokens;
    TokensExactly(lines, Tokens(lines, 0));
    var toks := Tokens(lines, 0);
    assert IsGroup(lines, toks[k], EndOf(lines, toks, k));
    assert IsGroup(lines, toks[k + 1], EndOf(lines, toks, k + 1));
  }
}
