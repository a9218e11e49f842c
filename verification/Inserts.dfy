/** Inserting a filler element after chosen indices, and the map from old to new indices. */
module Inserts {

  function Insert<T>(xs: seq<T>, at: set<nat>, filler: T): seq<T> {
    if xs == [] then []
    else
      Insert(xs[..|xs| - 1], at, filler) + [xs[|xs| - 1]] +
      if |xs| - 1 in at then [filler] else []
  }

  function Elements(xs: seq<nat>): set<nat> {
    set x | x in xs
  }

  /** Where old index `k` stands afterwards: `k` plus the insertions before it. */
  function Pos(at: set<nat>, k: nat): (p: nat)
    ensures p >= k
  {
    if k == 0 then 0 else Pos(at, k - 1) + if k - 1 in at then 2 else 1
  }

  lemma {:induction false} PosZero(at: set<nat>)
    ensures Pos(at, 0) == 0
  {
  }

  lemma {:induction false} PosStep(at: set<nat>, k: nat)
    ensures Pos(at, k + 1) == Pos(at, k) + if k in at then 2 else 1
  {
  }

  lemma {:induction false} PosIncreases(at: set<nat>, j: nat, k: nat)
    requires j < k
    ensures Pos(at, j) < Pos(at, k)
    ensures j in at ==> Pos(at, j) + 1 < Pos(at, k)
    decreases k
  {
    if j < k - 1 { PosIncreases(at, j, k - 1); }
  }

  lemma {:induction false} InsertLength<T>(xs: seq<T>, at: set<nat>, filler: T)
    ensures |Insert(xs, at, filler)| == Pos(at, |xs|)
  {
    if xs != [] { InsertLength(xs[..|xs| - 1], at, filler); }
  }

  /** The old element, and the filler where one was asked for. */
  lemma {:induction false} InsertAt<T>(xs: seq<T>, at: set<nat>, filler: T, k: nat)
    requires k < |xs|
    ensures |Insert(xs, at, filler)| == Pos(at, |xs|)
    ensures Pos(at, k) < Pos(at, k + 1) <= Pos(at, |xs|)
    ensures Insert(xs, at, filler)[Pos(at, k)] == xs[k]
    ensures k in at ==> Insert(xs, at, filler)[Pos(at, k) + 1] == filler
    decreases |xs|
  {
    InsertLength(xs, at, filler);
    InsertLength(xs[..|xs| - 1], at, filler);
    if k + 1 < |xs| {
      InsertAt(xs[..|xs| - 1], at, filler, k);
      PosIncreases(at, k + 1, |xs|);
    }
  }

  /** Every position of the result is an old element or the filler behind one. */
  lemma {:induction false} Origin<T>(xs: seq<T>, at: set<nat>, filler: T, p: nat) returns (k: nat)
    requires p < |Insert(xs, at, filler)|
    ensures k < |xs| && (p == Pos(at, k) || (k in at && p == Pos(at, k) + 1))
    decreases |xs|
  {
    InsertLength(xs, at, filler);
    InsertLength(xs[..|xs| - 1], at, filler);
    if p < Pos(at, |xs| - 1) {
      k := Origin(xs[..|xs| - 1], at, filler, p);
    } else {
      k := |xs| - 1;
    }
  }

  /** What is left when the elements at `gone` are deleted. */
  function Delete<T>(xs: seq<T>, gone: set<nat>): seq<T> {
    if xs == [] then []
    else Delete(xs[..|xs| - 1], gone) + if |xs| - 1 in gone then [] else [xs[|xs| - 1]]
  }

  ghost function Inserted(at: set<nat>, n: nat): set<nat> {
    set k | k in at && k < n :: Pos(at, k) + 1
  }

  lemma {:induction false} DeleteIrrelevant<T>(xs: seq<T>, g: set<nat>, h: set<nat>)
    requires forall p :: 0 <= p < |xs| ==> (p in g <==> p in h)
    ensures Delete(xs, g) == Delete(xs, h)
  {
    if xs != [] { DeleteIrrelevant(xs[..|xs| - 1], g, h); }
  }

  lemma {:induction false} DeleteLast<T>(xs: seq<T>, x: T, gone: set<nat>)
    ensures Delete(xs + [x], gone) == Delete(xs, gone) + if |xs| in gone then [] else [x]
  {
    assert (xs + [x])[..|xs|] == xs;
  }

  lemma {:induction false} InsertLast<T>(xs: seq<T>, at: set<nat>, filler: T)
    requires xs != []
    ensures var n := |xs| - 1;
            Insert(xs, at, filler) ==
            if n in at then Insert(xs[..n], at, filler) + [xs[n]] + [filler]
            else Insert(xs[..n], at, filler) + [xs[n]]
  {
    if |xs| - 1 !in at {
      assert Insert(xs, at, filler) == Insert(xs[..|xs| - 1], at, filler) + [xs[|xs| - 1]];
    }
  }

  lemma {:induction false} InsertedGrows(at: set<nat>, n: nat, p: nat)
    requires p < Pos(at, n)
    ensures p in Inserted(at, n) <==> p in Inserted(at, n + 1)
  {
  }

  lemma {:induction false} PosIsInserted(at: set<nat>, k: nat)
    requires k in at
    ensures Pos(at, k) + 1 in Inserted(at, k + 1)
  {
  }

  lemma {:induction false} DeletePrefix<T>(xs: seq<T>, at: set<nat>, filler: T)
    ensures var front := Insert(xs, at, filler);
            Delete(front, Inserted(at, |xs| + 1)) == Delete(front, Inserted(at, |xs|))
  {
    hide Delete, Insert, Inserted;
    var front := Insert(xs, at, filler);
    InsertLength(xs, at, filler);
    forall p | 0 <= p < |front|
      ensures p in Inserted(at, |xs| + 1) <==> p in Inserted(at, |xs|)
    {
      InsertedGrows(at, |xs|, p);
    }
    DeleteIrrelevant(front, Inserted(at, |xs| + 1), Inserted(at, |xs|));
  }

  /** The tail that index `n` contributes loses its filler again. */
  lemma {:induction false} DeleteTail<T>(front: seq<T>, x: T, filler: T, at: set<nat>, n: nat)
    requires |front| == Pos(at, n)
    ensures var gone := Inserted(at, n + 1);
            Delete(if n in at then front + [x] + [filler] else front + [x], gone) == Delete(front, gone) + [x]
  {
    hide Delete, Inserted;
    var gone := Inserted(at, n + 1);
    OldStays(at, n, n + 1);
    DeleteLast(front, x, gone);
    if n in at {
      PosIsInserted(at, n);
      DeleteLast(front + [x], filler, gone);
    }
  }

  lemma {:induction false} DeleteNothing<T>(at: set<nat>, filler: T, gone: set<nat>)
    ensures Delete(Insert([], at, filler), gone) == []
  {
  }

  /** Deleting exactly the inserted positions gives back the input. */
  lemma {:induction false} DeleteInserted<T>(xs: seq<T>, at: set<nat>, filler: T)
    ensures Delete(Insert(xs, at, filler), Inserted(at, |xs|)) == xs
    decreases |xs|
  {
    hide Delete, Insert, Inserted, Pos;
    if xs == [] {
      DeleteNothing(at, filler, Inserted(at, 0));
    } else {
      var n := |xs| - 1;
      InsertLast(xs, at, filler);
      InsertLength(xs[..n], at, filler);
      DeleteInserted(xs[..n], at, filler);
      DeletePrefix(xs[..n], at, filler);
      assert |xs[..n]| == n;
      DeleteTail(Insert(xs[..n], at, filler), xs[n], filler, at, n);
      assert xs == xs[..n] + [xs[n]];
    }
  }

  lemma {:induction false} OldStays(at: set<nat>, k: nat, n: nat)
    ensures Pos(at, k) !in Inserted(at, n)
  {
    if Pos(at, k) in Inserted(at, n) {
      var j :| j in at && j < n && Pos(at, k) == Pos(at, j) + 1;
      if j < k { PosIncreases(at, j, k); }
      if k < j { PosIncreases(at, k, j); }
    }
  }
}
