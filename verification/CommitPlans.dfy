/** Which commit plans are accepted and what their entries get, path by path. */
module CommitPlans {
  import opened Text
  import opened CommitBatch

  /** `n` characters are left of a path spec without its trailing slashes, and `p` is that path or lies below it. */
  predicate NamesAt(spec: string, n: nat, p: string) {
    && n <= |spec| && (n == 0 || spec[n - 1] != '/') && (forall j :: n <= j < |spec| ==> spec[j] == '/')
    && n <= |p| && p[..n] == spec[..n] && (|p| == n || p[n] == '/')
  }

  predicate SpecNames(spec: string, p: string) {
    exists n :: 0 <= n <= |spec| && NamesAt(spec, n, p)
  }

  /** Entry `i` lists a path spec that names `p`. */
  predicate EntryNames(plan: seq<Entry>, i: nat, p: string)
    requires i < |plan|
  {
    !plan[i].rest && exists k :: 0 <= k < |plan[i].paths| && SpecNames(plan[i].paths[k], p)
  }

  lemma {:induction false} CoversIs(spec: string, p: string)
    ensures Covers(spec, p) <==> SpecNames(spec, p)
  {
    var clean := Clean(spec);
    var n := |clean|;
    if Covers(spec, p) {
      if p != clean {
        assert (clean + "/")[n] == '/' && (clean + "/")[..n] == clean;
        assert p[n] == (clean + "/")[n] && p[..n] == clean;
      }
      assert NamesAt(spec, n, p);
    }
    if SpecNames(spec, p) {
      var m :| 0 <= m <= |spec| && NamesAt(spec, m, p);
      OneCut(spec, n, m);
      assert p[..n] == clean;
      if |p| > n {
        assert p[..n + 1] == clean + "/";
      } else {
        assert p == clean;
      }
    }
  }

  /** There is one way to take off the trailing slashes. */
  lemma {:induction false} OneCut(spec: string, m: nat, n: nat)
    requires m <= |spec| && (m == 0 || spec[m - 1] != '/') && forall j :: m <= j < |spec| ==> spec[j] == '/'
    requires n <= |spec| && (n == 0 || spec[n - 1] != '/') && forall j :: n <= j < |spec| ==> spec[j] == '/'
    ensures m == n
  {
  }

  lemma {:induction false} ShareIs(plan: seq<Entry>, changes: set<string>, i: nat, p: string)
    requires i < |plan| && !plan[i].rest
    ensures p in Share(plan, changes, i) <==> p in changes && EntryNames(plan, i, p)
  {
    hide Covers, SpecNames, Taken;
    forall k | 0 <= k < |plan[i].paths|
      ensures Covers(plan[i].paths[k], p) <==> SpecNames(plan[i].paths[k], p)
    {
      CoversIs(plan[i].paths[k], p);
    }
  }

  /** Some entry among the first `n` names `p`. */
  predicate SomeNames(plan: seq<Entry>, n: nat, p: string)
    requires n <= |plan|
  {
    exists i :: 0 <= i < n && EntryNames(plan, i, p)
  }

  lemma {:induction false} TakenIs(plan: seq<Entry>, changes: set<string>, n: nat, p: string)
    requires n <= |plan| && forall i :: 0 <= i < n ==> !plan[i].rest
    ensures p in Taken(plan, changes, n) <==> p in changes && SomeNames(plan, n, p)
  {
    hide Share, EntryNames;
    if n > 0 {
      TakenIs(plan, changes, n - 1, p);
      ShareIs(plan, changes, n - 1, p);
    }
  }

  /** Every listed path names a change. */
  ghost predicate NoIdleSpec(plan: seq<Entry>, changes: set<string>) {
    forall i :: 0 <= i < |plan| ==> AllHit(plan[i], changes)
  }

  ghost predicate AllHit(entry: Entry, changes: set<string>) {
    entry.rest || forall k :: 0 <= k < |entry.paths| ==> Hits(entry.paths[k], changes)
  }

  ghost predicate Hits(spec: string, changes: set<string>) {
    exists p :: p in changes && SpecNames(spec, p)
  }

  /** No change is named by two entries. */
  ghost predicate NoOverlap(plan: seq<Entry>, changes: set<string>) {
    forall i, j, p :: 0 <= i < j < |plan| && p in changes && EntryNames(plan, i, p) ==> !EntryNames(plan, j, p)
  }

  /** Only the last entry may take the rest. */
  ghost predicate RestLast(plan: seq<Entry>) {
    forall i :: 0 <= i < |plan| && plan[i].rest ==> i == |plan| - 1
  }

  predicate TakesRest(plan: seq<Entry>) {
    plan != [] && plan[|plan| - 1].rest
  }

  /** Every change is named, unless the last entry takes the rest. */
  ghost predicate NothingLeftOver(plan: seq<Entry>, changes: set<string>) {
    TakesRest(plan) || forall p :: p in changes ==> SomeNames(plan, |plan|, p)
  }

  lemma {:induction false} SpecsHitIs(plan: seq<Entry>, changes: set<string>, i: nat)
    requires i < |plan|
    ensures SpecsHit(plan, changes, i) <==> AllHit(plan[i], changes)
  {
    hide Claimed, Hits;
    forall k | 0 <= k < |plan[i].paths|
      ensures Claimed(changes, [plan[i].paths[k]]) != {} <==> Hits(plan[i].paths[k], changes)
    {
      ClaimedOne(changes, plan[i].paths[k]);
    }
  }

  lemma {:induction false} ClaimedOne(changes: set<string>, spec: string)
    ensures Claimed(changes, [spec]) != {} <==> Hits(spec, changes)
  {
    hide Covers, SpecNames;
    if Claimed(changes, [spec]) != {} {
      var p :| p in Claimed(changes, [spec]);
      CoversIs(spec, p);
    }
    if p :| p in changes && SpecNames(spec, p) {
      CoversIs(spec, p);
      assert Covers([spec][0], p);
      assert p in Claimed(changes, [spec]);
    }
  }

  /** No change that entry `i` names is named by an earlier one. */
  ghost predicate NamesAfresh(plan: seq<Entry>, changes: set<string>, i: nat)
    requires i < |plan|
  {
    forall h, p :: 0 <= h < i && p in changes && EntryNames(plan, h, p) ==> !EntryNames(plan, i, p)
  }

  lemma {:induction false} NotSome(plan: seq<Entry>, changes: set<string>, i: nat, p: string)
    requires i < |plan| && NamesAfresh(plan, changes, i) && p in changes && EntryNames(plan, i, p)
    ensures !SomeNames(plan, i, p)
  {
    hide EntryNames;
  }

  lemma {:induction false} OverlapIs(plan: seq<Entry>, changes: set<string>, i: nat)
    requires i < |plan| && RestLast(plan)
    ensures Share(plan, changes, i) * Taken(plan, changes, i) == {} <==> NamesAfresh(plan, changes, i)
  {
    hide Taken, EntryNames, SomeNames;
    var share, taken := Share(plan, changes, i), Taken(plan, changes, i);
    if plan[i].rest {
      assert share * taken == {};
      RestNames(plan, i);
    } else {
      forall p
        ensures p in share <==> p in changes && EntryNames(plan, i, p)
        ensures p in taken <==> p in changes && SomeNames(plan, i, p)
      {
        ShareIs(plan, changes, i, p);
        TakenIs(plan, changes, i, p);
      }
      if NamesAfresh(plan, changes, i) {
        forall p | p in share
          ensures p !in taken
        {
          NotSome(plan, changes, i, p);
        }
        assert share * taken == {};
      } else {
        var h, p :| 0 <= h < i && p in changes && EntryNames(plan, h, p) && EntryNames(plan, i, p);
        SomeIs(plan, i, h, p);
        assert p in share * taken;
      }
    }
  }

  lemma {:induction false} SomeIs(plan: seq<Entry>, n: nat, h: nat, p: string)
    requires h < n <= |plan| && EntryNames(plan, h, p)
    ensures SomeNames(plan, n, p)
  {
    hide EntryNames;
  }

  lemma {:induction false} RestNames(plan: seq<Entry>, i: nat)
    requires i < |plan| && plan[i].rest
    ensures forall p :: !EntryNames(plan, i, p)
  {
  }

  lemma {:induction false} LeftIs(plan: seq<Entry>, changes: set<string>)
    requires RestLast(plan)
    ensures changes - Taken(plan, changes, |plan|) == {} <==> NothingLeftOver(plan, changes)
  {
    hide EntryNames, SomeNames;
    var n := |plan|;
    if TakesRest(plan) {
      assert Taken(plan, changes, n) == Taken(plan, changes, n - 1) + (changes - Taken(plan, changes, n - 1));
    } else {
      forall p
        ensures p in Taken(plan, changes, n) <==> p in changes && SomeNames(plan, n, p)
      {
        TakenIs(plan, changes, n, p);
      }
      if changes - Taken(plan, changes, n) == {} {
        forall p | p in changes
          ensures SomeNames(plan, n, p)
        {
          NothingLeft(changes, Taken(plan, changes, n), p);
        }
      }
    }
  }

  lemma {:induction false} RestLastIs(plan: seq<Entry>)
    ensures RestLast(plan) <==> forall i :: 0 <= i < |plan| ==> RestIsLast(plan, i)
  {
    if forall i :: 0 <= i < |plan| ==> RestIsLast(plan, i) {
      forall i | 0 <= i < |plan| && plan[i].rest
        ensures i == |plan| - 1
      {
        assert RestIsLast(plan, i);
      }
    }
  }

  lemma {:induction false} NoOverlapIs(plan: seq<Entry>, changes: set<string>)
    ensures NoOverlap(plan, changes) <==> forall i :: 0 <= i < |plan| ==> NamesAfresh(plan, changes, i)
  {
    hide EntryNames;
    if forall i :: 0 <= i < |plan| ==> NamesAfresh(plan, changes, i) {
      forall h, j, p | 0 <= h < j < |plan| && p in changes && EntryNames(plan, h, p)
        ensures !EntryNames(plan, j, p)
      {
        assert NamesAfresh(plan, changes, j);
      }
    }
  }

  /** Main result: a plan is accepted if and only if only its last entry takes the rest, every listed path names a
      change, no change is named twice, and every change is named or the rest is taken. */
  lemma {:induction false} AcceptableExactly(plan: seq<Entry>, changes: set<string>)
    ensures Acceptable(plan, changes) <==>
            RestLast(plan) && NoIdleSpec(plan, changes) && NoOverlap(plan, changes) && NothingLeftOver(plan, changes)
  {
    hide Taken, Share, SpecsHit, AllHit, RestIsLast, NothingLeftOver, RestLast, NoOverlap, NamesAfresh;
    RestLastIs(plan);
    NoOverlapIs(plan, changes);
    forall i | 0 <= i < |plan|
      ensures SpecsHit(plan, changes, i) <==> AllHit(plan[i], changes)
      ensures RestLast(plan) ==>
                (Share(plan, changes, i) * Taken(plan, changes, i) == {} <==> NamesAfresh(plan, changes, i))
    {
      SpecsHitIs(plan, changes, i);
      if RestLast(plan) { OverlapIs(plan, changes, i); }
    }
    if RestLast(plan) {
      LeftIs(plan, changes);
      if NoIdleSpec(plan, changes) && NoOverlap(plan, changes) {
        forall i | 0 <= i < |plan|
          ensures Fits(plan, changes, i)
        {
          assert AllHit(plan[i], changes);
        }
      }
      if forall i :: 0 <= i < |plan| ==> Fits(plan, changes, i) {
        forall i | 0 <= i < |plan|
          ensures AllHit(plan[i], changes) && NamesAfresh(plan, changes, i)
        {
          assert Fits(plan, changes, i);
        }
      }
    } else {
      var i :| 0 <= i < |plan| && !RestIsLast(plan, i);
      assert !Fits(plan, changes, i);
    }
  }

  /** And each entry gets the changes it names, or, if it takes the rest, those no entry names. */
  lemma {:induction false} SharesExactly(plan: seq<Entry>, changes: set<string>, shares: seq<set<string>>, i: nat, p: string)
    requires Explains(Accepted(shares), plan, changes) && i < |plan|
    ensures |shares| == |plan|
    ensures p in shares[i] <==>
            p in changes && if plan[i].rest then !SomeNames(plan, |plan|, p) else EntryNames(plan, i, p)
  {
    hide Taken, Fits, EntryNames, SpecNames, NoIdleSpec, NoOverlap, NothingLeftOver;
    AcceptableExactly(plan, changes);
    if plan[i].rest {
      TakenIs(plan, changes, i, p);
      RestNames(plan, i);
    } else {
      ShareIs(plan, changes, i, p);
    }
  }
}
