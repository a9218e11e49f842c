/** How the two QML rewrites act on the token list: inserted blanks and sorted runs give a
    buffer whose tokens are the old ones with blank tokens added and runs permuted. */
module Retokenize {
  import opened Lines
  import opened Inserts
  import opened Tokenizer
  import opened IdPlacement

  /** The same tokens with offsets recomputed. */
  function Restart(toks: seq<Token>): (r: seq<Token>)
    ensures |r| == |toks|
    ensures forall k :: 0 <= k < |toks| ==>
              r[k].raws == toks[k].raws && r[k].kind == toks[k].kind && r[k].start == Size(toks[..k])
  {
    seq(|toks|, k requires 0 <= k < |toks| => toks[k].(start := Size(toks[..k])))
  }

  /** Equal up to offsets. */
  ghost predicate Alike(xs: seq<Token>, ys: seq<Token>) {
    |xs| == |ys| && forall k :: 0 <= k < |xs| ==> xs[k].raws == ys[k].raws && xs[k].kind == ys[k].kind
  }

  lemma {:induction false} AlikeSize(xs: seq<Token>, ys: seq<Token>)
    requires Alike(xs, ys)
    ensures Size(xs) == Size(ys) && Flatten(xs) == Flatten(ys)
    decreases |xs|
  {
    if xs != [] {
      var n := |xs| - 1;
      AlikeSize(xs[..n], ys[..n]);
      FlattenLast(xs);
      FlattenLast(ys);
    }
  }

  lemma {:induction false} FlattenLast(xs: seq<Token>)
    requires xs != []
    ensures Flatten(xs) == Flatten(xs[..|xs| - 1]) + xs[|xs| - 1].raws
  {
    var n := |xs| - 1;
    assert xs == xs[..n] + [xs[n]];
    FlattenAppend(xs[..n], [xs[n]]);
    assert Flatten([xs[n]]) == xs[n].raws + Flatten([]);
  }

  /** Grouped tokens that stop before each other are the tokens of their own lines. */
  lemma {:induction false} RestartTokens(toks: seq<Token>)
    requires forall k :: 0 <= k < |toks| ==> Grouped(toks[k])
    requires forall k: nat :: k + 1 < |toks| ==> StopsAt(toks, k)
    ensures Tokens(Flatten(toks), 0) == Restart(toks)
  {
    hide Grouped, Stops;
    var r := Restart(toks);
    forall k | 0 <= k < |r|
      ensures Grouped(r[k]) && r[k].start == 0 + Size(r[..k])
    {
      GroupedAlike(toks[k], r[k]);
      AlikeSize(r[..k], toks[..k]);
    }
    forall k: nat | k + 1 < |r|
      ensures StopsAt(r, k)
    {
      assert StopsAt(toks, k);
      StopsAlike(toks[k], r[k], r[k + 1].raws[0]);
    }
    PartitionFrom(r, 0);
    AlikeSize(r, toks);
    assert Flatten(toks)[0..] == Flatten(toks);
    PartitionUnique(Flatten(toks), 0, r);
  }

  lemma {:induction false} GroupedAlike(s: Token, t: Token)
    requires s.raws == t.raws && s.kind == t.kind && Grouped(s)
    ensures Grouped(t)
  {
  }

  lemma {:induction false} StopsAlike(s: Token, t: Token, next: Line)
    requires s.raws == t.raws && s.kind == t.kind && |s.raws| > 0 && Stops(s, next)
    ensures Stops(t, next)
  {
  }

  // ----- Blanks behind chosen tokens -----

  /** The physical index of the last line of every chosen token. */
  function Ends(toks: seq<Token>, at: set<nat>): set<nat> {
    if toks == [] then {}
    else
      var n := |toks| - 1;
      Ends(toks[..n], at) + if n in at && toks[n].raws != [] then {Size(toks[..n]) + |toks[n].raws| - 1} else {}
  }

  lemma {:induction false} EndsBelow(toks: seq<Token>, at: set<nat>)
    ensures forall p :: p in Ends(toks, at) ==> p < Size(toks)
    decreases |toks|
  {
    if toks != [] { EndsBelow(toks[..|toks| - 1], at); }
  }

  lemma {:induction false} InsertIrrelevant(xs: seq<Line>, g: set<nat>, h: set<nat>)
    requires forall p :: 0 <= p < |xs| ==> (p in g <==> p in h)
    ensures Insert(xs, g, EMPTY) == Insert(xs, h, EMPTY)
  {
    if xs != [] { InsertIrrelevant(xs[..|xs| - 1], g, h); }
  }

  /** Appended lines with no insertion among them are appended unchanged. */
  lemma {:induction false} InsertAppend(xs: seq<Line>, ys: seq<Line>, at: set<nat>)
    requires forall p :: |xs| <= p < |xs| + |ys| ==> p !in at
    ensures Insert(xs + ys, at, EMPTY) == Insert(xs, at, EMPTY) + ys
    decreases |ys|
  {
    hide Insert;
    if ys == [] {
      assert xs + ys == xs;
    } else {
      var m := |ys| - 1;
      assert (xs + ys)[..|xs| + m] == xs + ys[..m];
      InsertAppend(xs, ys[..m], at);
      InsertLast(xs + ys, at, EMPTY);
      assert ys == ys[..m] + [ys[m]];
    }
  }

  lemma {:induction false} InsertTail(xs: seq<Line>, ys: seq<Line>, at: set<nat>)
    requires ys != []
    requires forall p :: |xs| <= p < |xs| + |ys| - 1 ==> p !in at
    ensures Insert(xs + ys, at, EMPTY) ==
            if |xs| + |ys| - 1 in at then Insert(xs, at, EMPTY) + ys + [EMPTY] else Insert(xs, at, EMPTY) + ys
  {
    hide Insert;
    var m := |ys| - 1;
    assert (xs + ys)[..|xs| + m] == xs + ys[..m];
    InsertAppend(xs, ys[..m], at);
    InsertLast(xs + ys, at, EMPTY);
    assert ys == ys[..m] + [ys[m]];
  }

  /** Inserting a blank line behind the last line of a token is inserting a blank token. */
  lemma {:induction false} InsertCommutes(toks: seq<Token>, at: set<nat>)
    requires forall k :: 0 <= k < |toks| ==> toks[k].raws != []
    ensures Flatten(Insert(toks, at, BLANK_TOKEN)) == Insert(Flatten(toks), Ends(toks, at), EMPTY)
    decreases |toks|
  {
    hide Insert, Ends;
    if toks == [] {
      NoTokens(at);
    } else {
      var n := |toks| - 1;
      var front := toks[..n];
      InsertCommutes(front, at);
      FlattenLast(toks);
      InsertLast(toks, at, BLANK_TOKEN);
      FlattenSize(front);
      EndsLast(toks, at);
      InsertIrrelevant(Flatten(front), Ends(toks, at), Ends(front, at));
      InsertTail(Flatten(front), toks[n].raws, Ends(toks, at));
      FlattenOne(Insert(front, at, BLANK_TOKEN), toks[n]);
      FlattenOne(Insert(front, at, BLANK_TOKEN) + [toks[n]], BLANK_TOKEN);
    }
  }

  lemma {:induction false} NoTokens(at: set<nat>)
    ensures Flatten(Insert([], at, BLANK_TOKEN)) == Insert(Flatten([]), Ends([], at), EMPTY)
  {
  }

  lemma {:induction false} FlattenOne(xs: seq<Token>, t: Token)
    ensures Flatten(xs + [t]) == Flatten(xs) + t.raws
  {
    FlattenLast(xs + [t]);
    assert (xs + [t])[..|xs|] == xs;
  }

  lemma {:induction false} EndsLast(toks: seq<Token>, at: set<nat>)
    requires toks != [] && toks[|toks| - 1].raws != []
    ensures var n := |toks| - 1;
            var lo := Size(toks[..n]);
            var hi := lo + |toks[n].raws| - 1;
            && (forall p :: 0 <= p < lo ==> (p in Ends(toks, at) <==> p in Ends(toks[..n], at)))
            && (forall p :: lo <= p < hi ==> p !in Ends(toks, at))
            && (hi in Ends(toks, at) <==> n in at)
  {
    EndsBelow(toks[..|toks| - 1], at);
  }

  lemma {:induction false} BlankTokenFacts()
    ensures Grouped(BLANK_TOKEN) && !Grows(BLANK_TOKEN.kind) && BLANK_TOKEN.raws == [EMPTY]
    ensures forall t: Token :: |t.raws| > 0 ==> Stops(t, EMPTY)
  {
  }

  lemma {:induction false} BlankStopsNothing()
    ensures forall next: Line :: Stops(BLANK_TOKEN, next)
  {
  }

  /** Blank tokens behind any tokens leave every other token as it was. */
  lemma {:induction false} BlanksRetokenize(toks: seq<Token>, at: set<nat>)
    requires forall k :: 0 <= k < |toks| ==> Grouped(toks[k])
    requires forall k: nat :: k + 1 < |toks| ==> StopsAt(toks, k)
    ensures Tokens(Insert(Flatten(toks), Ends(toks, at), EMPTY), 0) == Restart(Insert(toks, at, BLANK_TOKEN))
  {
    hide Insert, Grouped, Pos, Ends;
    var out := Insert(toks, at, BLANK_TOKEN);
    BlankTokenFacts();
    forall p | 0 <= p < |out|
      ensures Grouped(out[p])
    {
      var k := Origin(toks, at, BLANK_TOKEN, p);
      InsertAt(toks, at, BLANK_TOKEN, k);
    }
    forall p: nat | p + 1 < |out|
      ensures StopsAt(out, p)
    {
      BlankStops(toks, at, p);
    }
    RestartTokens(out);
    forall k | 0 <= k < |toks|
      ensures toks[k].raws != []
    {
      GroupedNonEmpty(toks[k]);
    }
    InsertCommutes(toks, at);
  }

  lemma {:induction false} GroupedNonEmpty(t: Token)
    requires Grouped(t)
    ensures t.raws != []
  {
  }

  lemma {:induction false} BlankStops(toks: seq<Token>, at: set<nat>, p: nat)
    requires p + 1 < |Insert(toks, at, BLANK_TOKEN)|
    requires forall k :: 0 <= k < |toks| ==> Grouped(toks[k])
    requires forall k: nat :: k + 1 < |toks| ==> StopsAt(toks, k)
    ensures StopsAt(Insert(toks, at, BLANK_TOKEN), p)
  {
    hide Insert, Grouped, Pos, Absorbs, Stops;
    var out := Insert(toks, at, BLANK_TOKEN);
    var k := Origin(toks, at, BLANK_TOKEN, p);
    BlankTokenFacts();
    BlankStopsNothing();
    InsertLength(toks, at, BLANK_TOKEN);
    InsertAt(toks, at, BLANK_TOKEN, k);
    PosStep(at, k);
    GroupedNonEmpty(toks[k]);
    if k + 1 < |toks| {
      InsertAt(toks, at, BLANK_TOKEN, k + 1);
      GroupedNonEmpty(toks[k + 1]);
      assert StopsAt(toks, k);
    }
  }
}
