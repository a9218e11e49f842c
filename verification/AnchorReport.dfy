/** What the ordered anchor reports, entry by entry: the symbols the document does not name, and of the others those
    outside the kept run, which is pinned down among all longest ordered ones. */
module AnchorReport {
  import opened OrderedAnchor

  ghost predicate Rising(ks: seq<nat>) {
    forall i, j :: 0 <= i < j < |ks| ==> ks[i] < ks[j]
  }

  lemma {:induction false} RisingMore(ks: seq<nat>, n: nat)
    requires Rising(ks) && forall k :: k in ks ==> k < n
    ensures Rising(ks + [n])
  {
    var more := ks + [n];
    forall i, j | 0 <= i < j < |more|
      ensures more[i] < more[j]
    {
      if j == |ks| { assert ks[i] in ks; }
    }
  }

  // ----- The entries to move -----

  /** The indices `ks` are those below `n` outside `keep`, and `out` holds their symbols. */
  ghost predicate AreOutside(placed: seq<Placed>, keep: set<nat>, n: nat, ks: seq<nat>, out: seq<string>) {
    && Rising(ks)
    && (forall k: nat :: k in ks <==> k < n && k < |placed| && k !in keep)
    && |out| == |ks|
    && forall i :: 0 <= i < |ks| ==> ks[i] < |placed| && out[i] == placed[ks[i]].symbol
  }

  lemma {:induction false} OutsideStep(placed: seq<Placed>, keep: set<nat>, n: nat)
    requires n < |placed|
    ensures Outside(placed, keep, 0) == []
    ensures Outside(placed, keep, n + 1) == Outside(placed, keep, n) + if n in keep then [] else [placed[n].symbol]
  {
  }

  lemma {:induction false} OneMore(placed: seq<Placed>, keep: set<nat>, n: nat, ks: seq<nat>, out: seq<string>)
    requires n < |placed| && AreOutside(placed, keep, n, ks, out)
    ensures n in keep ==> AreOutside(placed, keep, n + 1, ks, out)
    ensures n !in keep ==> AreOutside(placed, keep, n + 1, ks + [n], out + [placed[n].symbol])
  {
    if n !in keep {
      RisingMore(ks, n);
    }
  }

  lemma {:induction false} OutsideAre(placed: seq<Placed>, keep: set<nat>, n: nat) returns (ks: seq<nat>)
    requires n <= |placed|
    ensures AreOutside(placed, keep, n, ks, Outside(placed, keep, n))
  {
    if n == 0 {
      ks := [];
      NoneOutside(placed, keep);
    } else {
      hide Outside, AreOutside;
      ks := OutsideAre(placed, keep, n - 1);
      OutsideStep(placed, keep, n - 1);
      OneMore(placed, keep, n - 1, ks, Outside(placed, keep, n - 1));
      if n - 1 in keep {
        assert Outside(placed, keep, n - 1) + [] == Outside(placed, keep, n - 1);
      } else {
        ks := ks + [n - 1];
      }
    }
  }

  lemma {:induction false} NoneOutside(placed: seq<Placed>, keep: set<nat>)
    ensures AreOutside(placed, keep, 0, [], Outside(placed, keep, 0))
  {
  }

  /** Main result: the symbols reported are, in source order, those of the entries outside the kept run. */
  lemma {:induction false} MisplacedAreOutside(placed: seq<Placed>)
    requires |placed| >= 2
    ensures exists ks :: AreOutside(placed, Kept(placed), |placed|, ks, Misplaced(placed))
  {
    hide Kept, Outside, AreOutside;
    var ks := OutsideAre(placed, Kept(placed), |placed|);
    assert AreOutside(placed, Kept(placed), |placed|, ks, Misplaced(placed));
  }

  // ----- Which run is kept -----

  /** `n` entries in order can end at entry `i`, and no more. */
  ghost predicate Longest(placed: seq<Placed>, i: nat, n: nat) {
    && (exists ks :: EndsAt(placed, ks, i) && |ks| == n)
    && (forall ks :: EndsAt(placed, ks, i) ==> |ks| <= n)
  }

  ghost predicate EndsAt(placed: seq<Placed>, ks: set<nat>, i: nat) {
    InOrder(placed, ks) && i in ks && forall k :: k in ks ==> k <= i
  }

  lemma {:induction false} BestIsLongest(placed: seq<Placed>, i: nat)
    requires i < |placed|
    ensures Longest(placed, i, Best(placed, i))
  {
    hide Best, Keep, InOrder;
    KeepInOrder(placed, i);
    assert EndsAt(placed, Keep(placed, i), i);
    forall ks | EndsAt(placed, ks, i)
      ensures |ks| <= Best(placed, i)
    {
      BestIsBound(placed, ks, i);
    }
  }

  lemma {:induction false} OneLongest(placed: seq<Placed>, i: nat, m: nat, n: nat)
    requires Longest(placed, i, m) && Longest(placed, i, n)
    ensures m == n
  {
    hide EndsAt;
    var ks :| EndsAt(placed, ks, i) && |ks| == m;
    var ls :| EndsAt(placed, ls, i) && |ls| == n;
  }

  lemma {:induction false} EndIsFirst(placed: seq<Placed>, n: nat, i: nat)
    requires i < n <= |placed|
    ensures Best(placed, i) <= Best(placed, End(placed, n))
    ensures i < End(placed, n) ==> Best(placed, i) < Best(placed, End(placed, n))
  {
    hide Best;
    if i < n - 1 { EndIsFirst(placed, n - 1, i); }
  }

  lemma {:induction false} PrevIsFirst(placed: seq<Placed>, i: nat, j: nat)
    requires j <= i < |placed|
    ensures var p, b := PrevTo(placed, i, j), BestTo(placed, i, j);
            && (p == -1 ==> b == 1)
            && (p != -1 ==> placed[p].offset < placed[i].offset && Best(placed, p) + 1 == b)
            && (forall m :: 0 <= m < j && placed[m].offset < placed[i].offset ==> Best(placed, m) + 1 <= b)
            && (forall m :: 0 <= m < p && placed[m].offset < placed[i].offset ==> Best(placed, m) + 1 < b)
    decreases j
  {
    if j > 0 {
      PrevIsFirst(placed, i, j - 1);
    }
  }

  /** Entry `p` can come right before entry `e` in a longest run, and no earlier one can. */
  ghost predicate FirstBefore(placed: seq<Placed>, p: nat, e: nat) {
    && p < e < |placed|
    && placed[p].offset < placed[e].offset && Best(placed, p) + 1 == Best(placed, e)
    && forall m :: 0 <= m < p && placed[m].offset < placed[e].offset ==> Best(placed, m) + 1 < Best(placed, e)
  }

  /** A run read from its end backwards: each entry is the first that can stand there. */
  ghost predicate FirstRun(placed: seq<Placed>, cs: seq<nat>) {
    && cs != [] && (forall i :: 0 <= i < |cs| ==> cs[i] < |placed|)
    && Best(placed, cs[0]) == 1
    && forall i :: 1 <= i < |cs| ==> FirstBefore(placed, cs[i - 1], cs[i])
  }

  lemma {:induction false} KeepIsRun(placed: seq<Placed>, e: nat) returns (cs: seq<nat>)
    requires e < |placed|
    ensures FirstRun(placed, cs) && cs[|cs| - 1] == e
    ensures forall k: nat :: k in Keep(placed, e) <==> k in cs
    decreases e
  {
    hide Best, FirstBefore;
    var p := PrevTo(placed, e, e);
    PrevIsFirst(placed, e, e);
    BestIsTable(placed, e);
    if p == -1 {
      cs := [e];
    } else {
      var front := KeepIsRun(placed, p);
      BeforeIs(placed, p, e);
      cs := front + [e];
    }
  }

  lemma {:induction false} BestIsTable(placed: seq<Placed>, e: nat)
    requires e < |placed|
    ensures Best(placed, e) == BestTo(placed, e, e)
  {
  }

  lemma {:induction false} BeforeIs(placed: seq<Placed>, p: nat, e: nat)
    requires p < e < |placed|
    requires placed[p].offset < placed[e].offset && Best(placed, p) + 1 == Best(placed, e)
    requires forall m :: 0 <= m < p && placed[m].offset < placed[e].offset ==> Best(placed, m) + 1 < Best(placed, e)
    ensures FirstBefore(placed, p, e)
  {
  }

  /** Main result on the choice: the kept run ends at the first entry at which a longest ordered run can end, and going
      back each entry is the first one that can come before the next in such a run. */
  lemma {:induction false} KeptIsFirstRun(placed: seq<Placed>)
    requires placed != []
    ensures exists cs ::
              && FirstRun(placed, cs) && (forall k: nat :: k in Kept(placed) <==> k in cs)
              && forall i :: 0 <= i < |placed| ==>
                   && Best(placed, i) <= Best(placed, cs[|cs| - 1])
                   && (i < cs[|cs| - 1] ==> Best(placed, i) < Best(placed, cs[|cs| - 1]))
  {
    hide Best, Keep, End;
    var e := End(placed, |placed|);
    var cs := KeepIsRun(placed, e);
    forall i | 0 <= i < |placed|
      ensures Best(placed, i) <= Best(placed, e) && (i < e ==> Best(placed, i) < Best(placed, e))
    {
      EndIsFirst(placed, |placed|, i);
    }
  }

  // ----- The findings -----

  /** The indices `ks` are those of the symbols the document names, and `placed` holds them with their offsets. */
  ghost predicate AreNamed(symbols: seq<string>, doc: map<string, nat>, ks: seq<nat>, placed: seq<Placed>) {
    && Rising(ks)
    && (forall k: nat :: k in ks <==> k < |symbols| && symbols[k] in doc)
    && |placed| == |ks|
    && forall i :: 0 <= i < |ks| ==>
         ks[i] < |symbols| && symbols[ks[i]] in doc && placed[i] == Placed(symbols[ks[i]], doc[symbols[ks[i]]])
  }

  /** Likewise for those it does not name. */
  ghost predicate AreUnnamed(symbols: seq<string>, doc: map<string, nat>, ks: seq<nat>, out: seq<Finding>) {
    && Rising(ks)
    && (forall k: nat :: k in ks <==> k < |symbols| && symbols[k] !in doc)
    && |out| == |ks|
    && forall i :: 0 <= i < |ks| ==> ks[i] < |symbols| && out[i] == Unnamed(symbols[ks[i]])
  }

  lemma {:induction false} PlacedLast(symbols: seq<string>, doc: map<string, nat>)
    requires symbols != []
    ensures var n := |symbols| - 1;
            && PlacedOf(symbols, doc) == PlacedOf(symbols[..n], doc)
                 + (if symbols[n] in doc then [Placed(symbols[n], doc[symbols[n]])] else [])
            && Missing(symbols, doc) == Missing(symbols[..n], doc)
                 + (if symbols[n] in doc then [] else [Unnamed(symbols[n])])
    decreases |symbols|
  {
    var n := |symbols| - 1;
    if n > 0 {
      PlacedLast(symbols[1..], doc);
      assert symbols[1..][..n - 1] == symbols[..n][1..];
    }
  }

  lemma {:induction false} NamedStep(symbols: seq<string>, doc: map<string, nat>, ks: seq<nat>, placed: seq<Placed>)
    requires symbols != [] && AreNamed(symbols[..|symbols| - 1], doc, ks, placed)
    ensures var n := |symbols| - 1;
            if symbols[n] in doc then AreNamed(symbols, doc, ks + [n], placed + [Placed(symbols[n], doc[symbols[n]])])
            else AreNamed(symbols, doc, ks, placed)
  {
    if symbols[|symbols| - 1] in doc { RisingMore(ks, |symbols| - 1); }
  }

  lemma {:induction false} UnnamedStep(symbols: seq<string>, doc: map<string, nat>, ks: seq<nat>, out: seq<Finding>)
    requires symbols != [] && AreUnnamed(symbols[..|symbols| - 1], doc, ks, out)
    ensures var n := |symbols| - 1;
            if symbols[n] in doc then AreUnnamed(symbols, doc, ks, out)
            else AreUnnamed(symbols, doc, ks + [n], out + [Unnamed(symbols[n])])
  {
    if symbols[|symbols| - 1] !in doc { RisingMore(ks, |symbols| - 1); }
  }

  lemma {:induction false} NothingListed(doc: map<string, nat>)
    ensures AreNamed([], doc, [], PlacedOf([], doc)) && AreUnnamed([], doc, [], Missing([], doc))
  {
  }

  lemma {:induction false} NamedAre(symbols: seq<string>, doc: map<string, nat>) returns (ks: seq<nat>)
    ensures AreNamed(symbols, doc, ks, PlacedOf(symbols, doc))
    decreases |symbols|
  {
    hide PlacedOf, Missing, AreNamed, AreUnnamed;
    if symbols == [] {
      ks := [];
      NothingListed(doc);
    } else {
      var n := |symbols| - 1;
      PlacedLast(symbols, doc);
      ks := NamedAre(symbols[..n], doc);
      NamedStep(symbols, doc, ks, PlacedOf(symbols[..n], doc));
      if symbols[n] in doc {
        ks := ks + [n];
      } else {
        assert PlacedOf(symbols[..n], doc) + [] == PlacedOf(symbols[..n], doc);
      }
    }
  }

  lemma {:induction false} UnnamedAre(symbols: seq<string>, doc: map<string, nat>) returns (ks: seq<nat>)
    ensures AreUnnamed(symbols, doc, ks, Missing(symbols, doc))
    decreases |symbols|
  {
    hide PlacedOf, Missing, AreNamed, AreUnnamed;
    if symbols == [] {
      ks := [];
      NothingListed(doc);
    } else {
      var n := |symbols| - 1;
      PlacedLast(symbols, doc);
      ks := UnnamedAre(symbols[..n], doc);
      UnnamedStep(symbols, doc, ks, Missing(symbols[..n], doc));
      if symbols[n] !in doc {
        ks := ks + [n];
      } else {
        assert Missing(symbols[..n], doc) + [] == Missing(symbols[..n], doc);
      }
    }
  }

  /** Findings of the second kind: the symbols, in source order, of the named entries outside the kept run. */
  ghost predicate AreMoved(placed: seq<Placed>, out: seq<Finding>) {
    if |placed| < 2 then out == []
    else
      exists ks ::
        && AreOutside(placed, Kept(placed), |placed|, ks, Misplaced(placed))
        && |out| == |ks|
        && forall i :: 0 <= i < |ks| ==> ks[i] < |placed| && out[i] == WrongPlace(placed[ks[i]].symbol)
  }

  /** Main result on the anchor: first the symbols the document does not name, in source order, then those named out of
      place, in source order. */
  lemma {:induction false} FindingsExactly(symbols: seq<string>, doc: map<string, nat>)
    ensures exists ms, ns ::
              && AreUnnamed(symbols, doc, ms, Missing(symbols, doc))
              && AreNamed(symbols, doc, ns, PlacedOf(symbols, doc))
    ensures AreMoved(PlacedOf(symbols, doc), Wrong(Misplaced(PlacedOf(symbols, doc))))
  {
    hide AreUnnamed, AreNamed, Missing, PlacedOf, Kept, Misplaced;
    var ms := UnnamedAre(symbols, doc);
    var ns := NamedAre(symbols, doc);
    var placed := PlacedOf(symbols, doc);
    if |placed| >= 2 {
      MisplacedAreOutside(placed);
    } else {
      Short(placed);
    }
  }
}
