/** The ordered anchor of `claim-verify.py`: a documented list must name its entries in the
    order of the source. What is reported is the complement of a longest increasing
    subsequence of offsets, found by a quadratic dynamic program with back-pointers. */
module OrderedAnchor {

  /** An entry, in source order, with the offset at which the document names it. */
  datatype Placed = Placed(symbol: string, offset: nat)

  // ----- Specification of the tables -----

  /** `best[i]` after the inner loop has looked at the first `j` entries. */
  function BestTo(placed: seq<Placed>, i: nat, j: nat): (b: nat)
    requires j <= i < |placed|
    ensures b >= 1
    decreases i, j
  {
    if j == 0 then 1
    else
      var b := BestTo(placed, i, j - 1);
      if Extends(placed, i, j - 1, b) then Best(placed, j - 1) + 1 else b
  }

  function Best(placed: seq<Placed>, i: nat): (b: nat)
    requires i < |placed|
    ensures b >= 1
    decreases i, i + 1
  {
    BestTo(placed, i, i)
  }

  predicate Extends(placed: seq<Placed>, i: nat, j: nat, b: nat)
    requires j < i < |placed|
    decreases i, 0
  {
    placed[j].offset < placed[i].offset && Best(placed, j) + 1 > b
  }

  /** `prev[i]` likewise. */
  function PrevTo(placed: seq<Placed>, i: nat, j: nat): (p: int)
    requires j <= i < |placed|
    ensures -1 <= p < j
  {
    if j == 0 then -1
    else if Extends(placed, i, j - 1, BestTo(placed, i, j - 1)) then j - 1
    else PrevTo(placed, i, j - 1)
  }

  /** `max(range(n), key=best)`: the first index of a largest value. */
  function End(placed: seq<Placed>, n: nat): (e: nat)
    requires 0 < n <= |placed|
    ensures e < n
  {
    if n == 1 then 0
    else
      var e := End(placed, n - 1);
      if Best(placed, n - 1) > Best(placed, e) then n - 1 else e
  }

  /** The back-pointer walk. */
  function Keep(placed: seq<Placed>, e: int): (keep: set<nat>)
    requires -1 <= e < |placed|
    ensures forall k :: k in keep ==> k <= e
    decreases e
  {
    if e == -1 then {} else Keep(placed, PrevTo(placed, e, e)) + {e}
  }

  /** The symbols of the first `n` entries that are not kept. */
  function Outside(placed: seq<Placed>, keep: set<nat>, n: nat): seq<string>
    requires n <= |placed|
  {
    if n == 0 then []
    else Outside(placed, keep, n - 1) + if n - 1 in keep then [] else [placed[n - 1].symbol]
  }

  function Kept(placed: seq<Placed>): set<nat>
    requires placed != []
  {
    Keep(placed, End(placed, |placed|))
  }

  function Misplaced(placed: seq<Placed>): seq<string> {
    if |placed| < 2 then [] else Outside(placed, Kept(placed), |placed|)
  }

  // ----- The loops of the source -----

  method FillTables(placed: seq<Placed>, best: array<int>, prev: array<int>)
    requires best.Length == prev.Length == |placed| && best != prev
    requires forall k :: 0 <= k < |placed| ==> best[k] == 1 && prev[k] == -1
    modifies best, prev
    ensures forall k :: 0 <= k < |placed| ==> best[k] == Best(placed, k) && prev[k] == PrevTo(placed, k, k)
  {
    for i := 0 to |placed|
      invariant forall k :: 0 <= k < i ==> best[k] == Best(placed, k) && prev[k] == PrevTo(placed, k, k)
      invariant forall k :: i <= k < |placed| ==> best[k] == 1 && prev[k] == -1
    {
      for j := 0 to i
        invariant best[i] == BestTo(placed, i, j) && prev[i] == PrevTo(placed, i, j)
        invariant forall k :: 0 <= k < i ==> best[k] == Best(placed, k) && prev[k] == PrevTo(placed, k, k)
        invariant forall k :: i < k < |placed| ==> best[k] == 1 && prev[k] == -1
      {
        if placed[j].offset < placed[i].offset && best[j] + 1 > best[i] {
          best[i] := best[j] + 1;
          prev[i] := j;
        }
      }
    }
  }

  method OutOfOrder(placed: seq<Placed>) returns (out: seq<string>)
    ensures out == Misplaced(placed)
  {
    if |placed| < 2 {
      return [];
    }
    var best := new int[|placed|](_ => 1);
    var prev := new int[|placed|](_ => -1);
    FillTables(placed, best, prev);
    var last := 0;
    for i := 1 to |placed|
      invariant last == End(placed, i)
    {
      if best[i] > best[last] {
        last := i;
      }
    }
    var keep: set<nat> := {};
    var end: int := last;
    while end != -1
      invariant -1 <= end < |placed|
      invariant keep + Keep(placed, end) == Keep(placed, last)
      decreases end
    {
      keep := keep + {end};
      end := prev[end];
    }
    out := [];
    for i := 0 to |placed|
      invariant out == Outside(placed, keep, i)
    {
      if i !in keep {
        out := out + [placed[i].symbol];
      }
    }
  }

  // ----- Optimality -----

  /** Entries `ks`, taken alone, follow source order. */
  ghost predicate InOrder(placed: seq<Placed>, ks: set<nat>) {
    && (forall k :: k in ks ==> k < |placed|)
    && (forall j, k :: j in ks && k in ks && j < k ==> placed[j].offset < placed[k].offset)
  }

  /** The table entry belongs to its back-pointer. */
  lemma {:induction false} BestOfPrev(placed: seq<Placed>, i: nat, j: nat)
    requires j <= i < |placed|
    ensures var p := PrevTo(placed, i, j);
            BestTo(placed, i, j) == if p == -1 then 1 else Best(placed, p) + 1
    ensures var p := PrevTo(placed, i, j);
            p != -1 ==> placed[p].offset < placed[i].offset
    decreases j
  {
    if j > 0 { BestOfPrev(placed, i, j - 1); }
  }

  /** The walk collects `best[e]` entries in order, the last of them `e`. */
  lemma {:induction false} KeepInOrder(placed: seq<Placed>, e: nat)
    requires e < |placed|
    ensures InOrder(placed, Keep(placed, e)) && e in Keep(placed, e)
    ensures |Keep(placed, e)| == Best(placed, e)
    ensures forall k :: k in Keep(placed, e) && k < e ==> placed[k].offset < placed[e].offset
    decreases e
  {
    var p := PrevTo(placed, e, e);
    BestOfPrev(placed, e, e);
    if p != -1 {
      KeepInOrder(placed, p);
      assert e !in Keep(placed, p);
    }
  }

  lemma {:induction false} BestAtLeast(placed: seq<Placed>, i: nat, j: nat, m: nat)
    requires m < j <= i < |placed| && placed[m].offset < placed[i].offset
    ensures BestTo(placed, i, j) >= Best(placed, m) + 1
    decreases j
  {
    if m < j - 1 { BestAtLeast(placed, i, j - 1, m); }
  }

  lemma {:induction false} LargestOf(ks: set<nat>) returns (m: nat)
    requires ks != {}
    ensures m in ks && forall k :: k in ks ==> k <= m
    decreases |ks|
  {
    m :| m in ks;
    if ks != {m} {
      var top := LargestOf(ks - {m});
      assert forall k :: k in ks ==> k == m || k in ks - {m};
      if m < top { m := top; }
    }
  }

  /** No ordered choice of entries that ends at `i` has more than `best[i]` of them. */
  lemma {:induction false} BestIsBound(placed: seq<Placed>, ks: set<nat>, i: nat)
    requires InOrder(placed, ks) && i in ks && forall k :: k in ks ==> k <= i
    ensures |ks| <= Best(placed, i)
    decreases |ks|
  {
    var rest := ks - {i};
    if rest != {} {
      var m := LargestOf(rest);
      BestIsBound(placed, rest, m);
      BestAtLeast(placed, i, i, m);
    }
  }

  lemma {:induction false} EndIsBest(placed: seq<Placed>, n: nat, i: nat)
    requires i < n <= |placed|
    ensures Best(placed, i) <= Best(placed, End(placed, n))
  {
    if i < n - 1 { EndIsBest(placed, n - 1, i); }
  }

  lemma {:induction false} OutsideSize(placed: seq<Placed>, keep: set<nat>, n: nat)
    requires n <= |placed|
    ensures |Outside(placed, keep, n)| == n - |set k | k in keep && k < n|
  {
    var below := set k | k in keep && k < n;
    if n == 0 {
      assert below == {};
    } else {
      OutsideSize(placed, keep, n - 1);
      var less := set k | k in keep && k < n - 1;
      if n - 1 in keep {
        assert below == less + {n - 1};
      } else {
        assert below == less;
      }
    }
  }

  /** Main result: the entries left in place are in order, and whatever other entries one
      might leave in place, no fewer would have to move. */
  lemma {:induction false} RemovalIsMinimal(placed: seq<Placed>, others: set<nat>)
    requires |placed| >= 2 && InOrder(placed, others)
    ensures InOrder(placed, Kept(placed))
    ensures |Misplaced(placed)| == |placed| - |Kept(placed)|
    ensures |Misplaced(placed)| <= |placed| - |others|
  {
    hide Outside, Best, Keep, End;
    var e := End(placed, |placed|);
    KeepInOrder(placed, e);
    OutsideSize(placed, Kept(placed), |placed|);
    assert (set k | k in Kept(placed) && k < |placed|) == Kept(placed);
    if others != {} {
      var m := LargestOf(others);
      BestIsBound(placed, others, m);
      EndIsBest(placed, |placed|, m);
    }
  }

  ghost predicate SourceOrder(placed: seq<Placed>) {
    forall j, k :: 0 <= j < k < |placed| ==> placed[j].offset < placed[k].offset
  }

  function UpTo(n: nat): (ks: set<nat>)
    ensures forall k: nat :: k in ks <==> k < n
    ensures |ks| == n
  {
    if n == 0 then {} else UpTo(n - 1) + {n - 1}
  }

  lemma {:induction false} FullSet(ks: set<nat>, n: nat)
    requires (forall k :: k in ks ==> k < n) && |ks| == n
    ensures forall k: nat :: k < n ==> k in ks
  {
    forall k: nat | k < n
      ensures k in ks
    {
      if k !in ks {
        assert ks <= UpTo(n) - {k};
        SubsetSize(ks, UpTo(n) - {k});
      }
    }
  }

  lemma {:induction false} SubsetSize(a: set<nat>, b: set<nat>)
    requires a <= b
    ensures |a| <= |b|
  {
    assert b == a + (b - a);
  }

  /** Nothing is reported exactly when the list already follows source order. */
  lemma {:induction false} NothingMisplaced(placed: seq<Placed>)
    ensures Misplaced(placed) == [] <==> SourceOrder(placed)
  {
    hide Misplaced, Kept;
    if |placed| >= 2 {
      if SourceOrder(placed) {
        RemovalIsMinimal(placed, UpTo(|placed|));
      }
      if Misplaced(placed) == [] {
        RemovalIsMinimal(placed, {});
        FullSet(Kept(placed), |placed|);
      }
    } else {
      Short(placed);
    }
  }

  lemma {:induction false} Short(placed: seq<Placed>)
    requires |placed| < 2
    ensures Misplaced(placed) == []
  {
  }

  // ----- The anchor -----

  datatype Finding = Unnamed(symbol: string) | WrongPlace(symbol: string)

  /** The entries the document names, in source order. */
  function PlacedOf(symbols: seq<string>, doc: map<string, nat>): seq<Placed> {
    if symbols == [] then []
    else (if symbols[0] in doc then [Placed(symbols[0], doc[symbols[0]])] else []) + PlacedOf(symbols[1..], doc)
  }

  function Missing(symbols: seq<string>, doc: map<string, nat>): seq<Finding> {
    if symbols == [] then []
    else (if symbols[0] in doc then [] else [Unnamed(symbols[0])]) + Missing(symbols[1..], doc)
  }

  function Wrong(symbols: seq<string>): (out: seq<Finding>)
    ensures |out| == |symbols|
  {
    seq(|symbols|, i requires 0 <= i < |symbols| => WrongPlace(symbols[i]))
  }

  /** The part of `_check_ordered_anchor` behind the file reads: `doc` gives the first offset
      at which the document names a symbol. */
  method CheckOrder(symbols: seq<string>, doc: map<string, nat>) returns (out: seq<Finding>)
    ensures out == Missing(symbols, doc) + Wrong(Misplaced(PlacedOf(symbols, doc)))
  {
    hide Misplaced;
    out := [];
    var placed: seq<Placed> := [];
    var i := 0;
    while i < |symbols|
      invariant i <= |symbols|
      invariant out + Missing(symbols[i..], doc) == Missing(symbols, doc)
      invariant placed + PlacedOf(symbols[i..], doc) == PlacedOf(symbols, doc)
    {
      var symbol := symbols[i];
      ghost var rest := symbols[i + 1..];
      assert symbols[i..][0] == symbol && symbols[i..][1..] == rest;
      if symbol !in doc {
        assert out + ([Unnamed(symbol)] + Missing(rest, doc)) == (out + [Unnamed(symbol)]) + Missing(rest, doc);
        out := out + [Unnamed(symbol)];
      } else {
        var p := Placed(symbol, doc[symbol]);
        assert placed + ([p] + PlacedOf(rest, doc)) == (placed + [p]) + PlacedOf(rest, doc);
        placed := placed + [p];
      }
      i := i + 1;
    }
    assert symbols[|symbols|..] == [];
    assert out == Missing(symbols, doc) && placed == PlacedOf(symbols, doc);
    var moved := OutOfOrder(placed);
    out := out + Wrong(moved);
  }

  lemma {:induction false} AllNamed(symbols: seq<string>, doc: map<string, nat>)
    ensures Missing(symbols, doc) == [] <==> forall i :: 0 <= i < |symbols| ==> symbols[i] in doc
    ensures Missing(symbols, doc) == [] ==> |PlacedOf(symbols, doc)| == |symbols|
    ensures Missing(symbols, doc) == [] ==>
              forall i :: 0 <= i < |symbols| ==> PlacedOf(symbols, doc)[i] == Placed(symbols[i], doc[symbols[i]])
  {
    if symbols != [] {
      AllNamed(symbols[1..], doc);
      assert symbols == [symbols[0]] + symbols[1..];
    }
  }

  /** The anchor is silent exactly when the document names every entry and the offsets rise
      in source order. */
  lemma {:induction false} AnchorIsSilent(symbols: seq<string>, doc: map<string, nat>)
    ensures Missing(symbols, doc) + Wrong(Misplaced(PlacedOf(symbols, doc))) == [] <==>
            (forall i :: 0 <= i < |symbols| ==> symbols[i] in doc) &&
            (forall i, j :: 0 <= i < j < |symbols| ==> doc[symbols[i]] < doc[symbols[j]])
  {
    hide Misplaced;
    AllNamed(symbols, doc);
    NothingMisplaced(PlacedOf(symbols, doc));
    var placed := PlacedOf(symbols, doc);
    if Missing(symbols, doc) == [] {
      assert SourceOrder(placed) <==> forall i, j :: 0 <= i < j < |symbols| ==> doc[symbols[i]] < doc[symbols[j]];
    }
  }
}
