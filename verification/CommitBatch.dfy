/** The batch committer: a plan partitions the changed paths, and a series of commits moves them
    from the working tree into the repository. */
module CommitBatch {
  import opened Text

  /** Paths to blobs; a path that is absent is not in the tree. */
  type Tree = map<string, string>

  function At(tree: Tree, p: string): Option<string> {
    if p in tree then Some(tree[p]) else None
  }

  /** The paths on which two trees differ. */
  function Changes(a: Tree, b: Tree): set<string> {
    set p | p in a.Keys + b.Keys && At(a, p) != At(b, p)
  }

  // ----- The plan -----

  datatype Entry = Entry(paths: seq<string>, rest: bool, message: string)

  /** `spec.rstrip("/")` */
  function Clean(spec: string): (clean: string)
    ensures clean <= spec && (clean == [] || clean[|clean| - 1] != '/')
    ensures forall k :: |clean| <= k < |spec| ==> spec[k] == '/'
  {
    if spec != [] && spec[|spec| - 1] == '/' then Clean(spec[..|spec| - 1]) else spec
  }

  /** `p` lies below the folder `dir`. */
  predicate Under(p: string, dir: string) {
    dir + "/" <= p
  }

  predicate Covers(spec: string, p: string) {
    p == Clean(spec) || Under(p, Clean(spec))
  }

  function Claimed(paths: set<string>, specs: seq<string>): set<string> {
    set p | p in paths && exists i :: 0 <= i < |specs| && Covers(specs[i], p)
  }

  /** What entry `i` is assigned. */
  function Share(plan: seq<Entry>, changes: set<string>, i: nat): set<string>
    requires i < |plan|
    decreases i, 1
  {
    if plan[i].rest then changes - Taken(plan, changes, i) else Claimed(changes, plan[i].paths)
  }

  /** What the first `n` entries take. */
  function Taken(plan: seq<Entry>, changes: set<string>, n: nat): (taken: set<string>)
    requires n <= |plan|
    decreases n, 0
  {
    if n == 0 then {} else Taken(plan, changes, n - 1) + Share(plan, changes, n - 1)
  }

  datatype Assignment =
    | Accepted(shares: seq<set<string>>)
    | RestNotLast(entry: nat)
    | NoChange(entry: nat, spec: nat)
    | Overlap(entry: nat, paths: set<string>)
    | Leftover(paths: set<string>)

  predicate RestIsLast(plan: seq<Entry>, i: nat)
    requires i < |plan|
  {
    plan[i].rest ==> i == |plan| - 1
  }

  predicate SpecsHit(plan: seq<Entry>, changes: set<string>, i: nat)
    requires i < |plan|
  {
    plan[i].rest || forall k :: 0 <= k < |plan[i].paths| ==> Claimed(changes, [plan[i].paths[k]]) != {}
  }

  predicate Fits(plan: seq<Entry>, changes: set<string>, i: nat)
    requires i < |plan|
  {
    && RestIsLast(plan, i)
    && SpecsHit(plan, changes, i)
    && Share(plan, changes, i) * Taken(plan, changes, i) == {}
  }

  /** Every entry fits and nothing is left over. */
  ghost predicate Acceptable(plan: seq<Entry>, changes: set<string>) {
    && (forall i :: 0 <= i < |plan| ==> Fits(plan, changes, i))
    && changes - Taken(plan, changes, |plan|) == {}
  }

  /** A refusal names the first entry that does not fit, or else what is left. */
  ghost predicate Explains(a: Assignment, plan: seq<Entry>, changes: set<string>) {
    match a
    case Accepted(shares) =>
      Acceptable(plan, changes) && |shares| == |plan|
      && forall i :: 0 <= i < |plan| ==> shares[i] == Share(plan, changes, i)
    case Leftover(paths) =>
      && (forall i :: 0 <= i < |plan| ==> Fits(plan, changes, i))
      && paths == changes - Taken(plan, changes, |plan|) != {}
    case RestNotLast(i) =>
      i < |plan| && FitUpTo(plan, changes, i) && !RestIsLast(plan, i)
    case NoChange(i, k) =>
      && i < |plan| && FitUpTo(plan, changes, i) && RestIsLast(plan, i)
      && !plan[i].rest && k < |plan[i].paths| && Claimed(changes, [plan[i].paths[k]]) == {}
    case Overlap(i, paths) =>
      && i < |plan| && FitUpTo(plan, changes, i) && RestIsLast(plan, i) && SpecsHit(plan, changes, i)
      && paths == Share(plan, changes, i) * Taken(plan, changes, i) != {}
  }

  ghost predicate FitUpTo(plan: seq<Entry>, changes: set<string>, n: nat)
    requires n <= |plan|
  {
    forall i :: 0 <= i < n ==> Fits(plan, changes, i)
  }

  method PlanAssignments(plan: seq<Entry>, changes: set<string>) returns (a: Assignment)
    ensures Explains(a, plan, changes)
    ensures a.Accepted? <==> Acceptable(plan, changes)
  {
    hide Claimed;
    var taken: set<string> := {};
    var out: seq<set<string>> := [];
    for i := 0 to |plan|
      invariant |out| == i && taken == Taken(plan, changes, i) && FitUpTo(plan, changes, i)
      invariant forall k :: 0 <= k < i ==> out[k] == Share(plan, changes, k)
    {
      var entry := plan[i];
      if entry.rest {
        if i != |plan| - 1 {
          assert !Fits(plan, changes, i);
          return RestNotLast(i);
        }
        out := out + [changes - taken];
        taken := taken + (changes - taken);
      } else {
        var hits := Claimed(changes, entry.paths);
        for k := 0 to |entry.paths|
          invariant forall l :: 0 <= l < k ==> Claimed(changes, [entry.paths[l]]) != {}
        {
          if Claimed(changes, [entry.paths[k]]) == {} {
            assert !Fits(plan, changes, i);
            return NoChange(i, k);
          }
        }
        if hits * taken != {} {
          assert !Fits(plan, changes, i);
          return Overlap(i, hits * taken);
        }
        out := out + [hits];
        taken := taken + hits;
      }
      assert SpecsHit(plan, changes, i) && RestIsLast(plan, i);
      assert Share(plan, changes, i) * Taken(plan, changes, i) == {};
    }
    var left := changes - taken;
    if left != {} {
      return Leftover(left);
    }
    return Accepted(out);
  }

  /** The shares tile the changed paths. */
  ghost predicate Partition(shares: seq<set<string>>, changes: set<string>) {
    && (forall i, j, p :: 0 <= i < j < |shares| && p in shares[i] ==> p !in shares[j])
    && Union(shares, |shares|) == changes
  }

  function Union(shares: seq<set<string>>, n: nat): set<string>
    requires n <= |shares|
  {
    if n == 0 then {} else Union(shares, n - 1) + shares[n - 1]
  }

  lemma {:induction false} InUnion(shares: seq<set<string>>, n: nat, p: string)
    requires n <= |shares|
    ensures p in Union(shares, n) <==> exists i :: 0 <= i < n && p in shares[i]
  {
    if n > 0 {
      InUnion(shares, n - 1, p);
    }
  }

  lemma {:induction false} TakenIsUnion(plan: seq<Entry>, changes: set<string>, shares: seq<set<string>>, n: nat)
    requires n <= |plan| == |shares|
    requires forall i :: 0 <= i < |plan| ==> shares[i] == Share(plan, changes, i)
    ensures Taken(plan, changes, n) == Union(shares, n) <= changes
  {
    hide Covers;
    if n > 0 {
      TakenIsUnion(plan, changes, shares, n - 1);
      assert Share(plan, changes, n - 1) <= changes;
    }
  }

  lemma {:induction false} NothingLeft(a: set<string>, b: set<string>, p: string)
    requires p in a && a - b == {}
    ensures p in b
  {
    assert p in a - b || p in b;
  }

  lemma {:induction false} Apart(a: set<string>, b: set<string>, p: string)
    requires p in a && b * a == {}
    ensures p !in b
  {
    assert p in b * a || p !in b;
  }

  /** An accepted plan assigns every changed path to exactly one entry; an entry comes out empty only when it lists
      no path, or takes the rest of nothing. */
  lemma {:induction false} AcceptedPlanPartitions(plan: seq<Entry>, changes: set<string>, shares: seq<set<string>>)
    requires Explains(Accepted(shares), plan, changes)
    ensures Partition(shares, changes)
    ensures forall i :: 0 <= i < |plan| ==>
              (shares[i] == {} <==> if plan[i].rest then Union(shares, i) == changes else plan[i].paths == [])
  {
    hide Claimed;
    TakenIsUnion(plan, changes, shares, |plan|);
    forall p | p in changes
      ensures p in Union(shares, |plan|)
    {
      NothingLeft(changes, Taken(plan, changes, |plan|), p);
    }
    assert Union(shares, |plan|) == changes;
    forall i, j, p | 0 <= i < j < |shares| && p in shares[i]
      ensures p !in shares[j]
    {
      assert Fits(plan, changes, j);
      TakenIsUnion(plan, changes, shares, j);
      InUnion(shares, j, p);
      Apart(Taken(plan, changes, j), Share(plan, changes, j), p);
    }
    forall i | 0 <= i < |plan|
      ensures shares[i] == {} <==> if plan[i].rest then Union(shares, i) == changes else plan[i].paths == []
    {
      assert Fits(plan, changes, i);
      TakenIsUnion(plan, changes, shares, i);
      if !plan[i].rest {
        ClaimedIsEmpty(changes, plan[i].paths);
      }
    }
  }

  lemma {:induction false} ClaimedIsEmpty(changes: set<string>, specs: seq<string>)
    requires forall k :: 0 <= k < |specs| ==> Claimed(changes, [specs[k]]) != {}
    ensures Claimed(changes, specs) == {} <==> specs == []
  {
    if specs != [] {
      var p :| p in Claimed(changes, [specs[0]]);
      assert Covers([specs[0]][0], p);
      assert p in Claimed(changes, specs);
    }
  }

  // ----- The commits -----

  /** `git add` of the path `s` reaches `q`: the path itself, what lies below it, and a file that has to make room
      for the folder `s` lies in. */
  predicate Reaches(s: string, q: string, work: Tree) {
    q == s || Under(q, s) || (s in work && Under(s, q))
  }

  /** `git add -A -- specs`: with no path at all it stages everything. */
  predicate Stages(specs: set<string>, q: string, work: Tree) {
    specs == {} || exists s :: s in specs && Reaches(s, q, work)
  }

  function Staged(index: Tree, work: Tree, specs: set<string>): (tree: Tree)
    ensures forall q :: At(tree, q) == if Stages(specs, q, work) then At(work, q) else At(index, q)
  {
    map q | q in index.Keys + work.Keys && (if Stages(specs, q, work) then q in work else q in index)
      :: if Stages(specs, q, work) then work[q] else index[q]
  }

  /** Every path given to `git add` must match something. */
  predicate Matched(index: Tree, work: Tree, specs: set<string>) {
    forall s :: s in specs ==> exists q :: q in index.Keys + work.Keys && Reaches(s, q, work)
  }

  /** A commit is made when the paths match, the shape engine allows it and it changes something. */
  predicate Commits(head: Tree, work: Tree, specs: set<string>, allowed: bool) {
    Matched(head, work, specs) && allowed && Staged(head, work, specs) != head
  }

  /** The head after the first `n` commits of a series. */
  function HeadAfter(head: Tree, work: Tree, shares: seq<set<string>>, n: nat): Tree
    requires n <= |shares|
  {
    if n == 0 then head else Staged(HeadAfter(head, work, shares, n - 1), work, shares[n - 1])
  }

  lemma {:induction false} HeadStep(head: Tree, work: Tree, shares: seq<set<string>>, n: nat)
    requires n < |shares|
    ensures HeadAfter(head, work, shares, 0) == head
    ensures HeadAfter(head, work, shares, n + 1) == Staged(HeadAfter(head, work, shares, n), work, shares[n])
  {
  }

  datatype Outcome =
    | EmptyPlan
    | AlreadyStaged
    | Refused(why: Assignment)
    | NoMessage(entry: nat)
    | NoTrailer(entry: nat)
    | Stale
    | Checked
    | Made(commits: nat)

  /** What the engines outside this script say: whether each message has its trailer, whether a payload is newer
      than its report, and whether each commit has an allowed shape. */
  datatype Engines = Engines(requireCoauthor: bool, trailers: seq<bool>, stale: bool, allowed: seq<bool>)

  predicate HasMessage(plan: seq<Entry>, i: nat)
    requires i < |plan|
  {
    Strip(plan[i].message) != []
  }

  predicate Spoken(plan: seq<Entry>, engines: Engines, i: nat)
    requires i < |plan| == |engines.trailers|
  {
    HasMessage(plan, i) && (engines.requireCoauthor ==> engines.trailers[i])
  }

  predicate AllSpoken(plan: seq<Entry>, engines: Engines, n: nat)
    requires n <= |plan| == |engines.trailers|
  {
    forall i :: 0 <= i < n ==> Spoken(plan, engines, i)
  }

  /** `check_messages`: the first entry with a fault. */
  method CheckMessages(plan: seq<Entry>, engines: Engines) returns (fault: Option<Outcome>)
    requires |plan| == |engines.trailers|
    ensures fault.None? <==> AllSpoken(plan, engines, |plan|)
    ensures fault.Some? ==>
              && (fault.value.NoMessage? || fault.value.NoTrailer?)
              && fault.value.entry < |plan| && AllSpoken(plan, engines, fault.value.entry)
              && (fault.value.NoMessage? <==> !HasMessage(plan, fault.value.entry))
              && !Spoken(plan, engines, fault.value.entry)
  {
    hide Strip;
    for i := 0 to |plan|
      invariant AllSpoken(plan, engines, i)
    {
      if Strip(plan[i].message) == [] {
        assert !Spoken(plan, engines, i);
        return Some(NoMessage(i));
      }
      if engines.requireCoauthor && !engines.trailers[i] {
        assert !Spoken(plan, engines, i);
        return Some(NoTrailer(i));
      }
    }
    return None;
  }

  class Repository {
    var head: Tree
    var index: Tree
    const work: Tree

    constructor (head: Tree, index: Tree, work: Tree)
      ensures this.head == head && this.index == index && this.work == work
    {
      this.head, this.index, this.work := head, index, work;
    }

    /** Builds one commit in a private index; a refusal leaves nothing behind. */
    method CommitEntry(paths: set<string>, allowed: bool) returns (made: bool)
      modifies this
      ensures made == Commits(old(head), work, paths, allowed)
      ensures head == if made then Staged(old(head), work, paths) else old(head)
      ensures index == if made then Staged(old(index), work, paths) else old(index)
    {
      hide Staged, Matched;
      var scratch := head;
      if !Matched(scratch, work, paths) {
        return false;
      }
      scratch := Staged(scratch, work, paths);
      if !allowed || scratch == head {
        return false;
      }
      head := scratch;
      index := Staged(index, work, paths);
      return true;
    }

    /** The loop over the entries, stopping at the first refusal. After every commit the index matches the head. */
    method CommitSeries(shares: seq<set<string>>, allowed: seq<bool>) returns (made: nat)
      requires |allowed| == |shares| && index == head
      modifies this
      ensures made <= |shares| && index == head == HeadAfter(old(head), work, shares, made)
      ensures forall k :: 0 <= k < made ==>
                Commits(HeadAfter(old(head), work, shares, k), work, shares[k], allowed[k])
      ensures made < |shares| ==> !Commits(head, work, shares[made], allowed[made])
    {
      hide Staged, Commits, HeadAfter;
      made := 0;
      if shares != [] {
        HeadStep(head, work, shares, 0);
      } else {
        NoCommits(head, work, shares);
      }
      while made < |shares|
        invariant made <= |shares| && index == head == HeadAfter(old(head), work, shares, made)
        invariant forall k :: 0 <= k < made ==>
                    Commits(HeadAfter(old(head), work, shares, k), work, shares[k], allowed[k])
      {
        HeadStep(old(head), work, shares, made);
        var ok := CommitEntry(shares[made], allowed[made]);
        if !ok {
          return;
        }
        made := made + 1;
      }
    }

    /** `main`: `discard` is the plan file when it lies inside the repository, `check` stops before the first
        commit. */
    method Run(plan: seq<Entry>, discard: set<string>, check: bool, engines: Engines) returns (outcome: Outcome)
      requires |engines.allowed| == |engines.trailers| == |plan|
      modifies this
      ensures !outcome.Made? ==> head == old(head) && index == old(index)
      ensures outcome == EmptyPlan <==> plan == []
      ensures outcome == AlreadyStaged <==> plan != [] && old(index) != old(head)
      ensures outcome.Refused? <==>
                plan != [] && old(index) == old(head) && !Acceptable(plan, Changes(old(head), work) - discard)
      ensures outcome.Refused? ==> Explains(outcome.why, plan, Changes(old(head), work) - discard)
      ensures outcome.NoMessage? || outcome.NoTrailer? ==>
                && outcome.entry < |plan| && AllSpoken(plan, engines, outcome.entry)
                && !Spoken(plan, engines, outcome.entry)
                && (outcome.NoMessage? <==> !HasMessage(plan, outcome.entry))
      ensures outcome == Stale ==> AllSpoken(plan, engines, |plan|) && engines.stale
      ensures outcome == Checked ==> AllSpoken(plan, engines, |plan|) && !engines.stale && check
      ensures outcome.Made? ==>
                && Acceptable(plan, Changes(old(head), work) - discard)
                && AllSpoken(plan, engines, |plan|) && !engines.stale && !check
                && exists shares ::
                     && Explains(Accepted(shares), plan, Changes(old(head), work) - discard)
                     && outcome.commits <= |shares|
                     && index == head == HeadAfter(old(head), work, shares, outcome.commits)
                     && (outcome.commits < |shares| ==>
                           !Commits(head, work, shares[outcome.commits], engines.allowed[outcome.commits]))
    {
      hide Changes, HeadAfter, Commits, Fits, Taken, Share, Acceptable, Spoken, HasMessage, AllSpoken;
      if plan == [] {
        return EmptyPlan;
      }
      if index != head {
        return AlreadyStaged;
      }
      var changes := Changes(head, work) - discard;
      var a := PlanAssignments(plan, changes);
      if !a.Accepted? {
        return Refused(a);
      }
      var fault := CheckMessages(plan, engines);
      if fault.Some? {
        return fault.value;
      }
      if engines.stale {
        return Stale;
      }
      if check {
        return Checked;
      }
      var made := CommitSeries(a.shares, engines.allowed);
      assert Explains(Accepted(a.shares), plan, changes);
      return Made(made);
    }
  }

  lemma {:induction false} NoCommits(head: Tree, work: Tree, shares: seq<set<string>>)
    ensures HeadAfter(head, work, shares, 0) == head
  {
  }

  // ----- What a series keeps -----

  lemma {:induction false} TreesEqual(a: Tree, b: Tree)
    requires forall p :: At(a, p) == At(b, p)
    ensures a == b
  {
    forall p
      ensures p in a <==> p in b
      ensures p in a && p in b ==> a[p] == b[p]
    {
      assert At(a, p) == At(b, p);
    }
  }

  /** At any point every path holds its first or its working version, and a committed path its working one. */
  lemma {:induction false} EitherVersion(head: Tree, work: Tree, shares: seq<set<string>>, n: nat, p: string)
    requires n <= |shares|
    ensures var now := At(HeadAfter(head, work, shares, n), p);
            now == At(work, p) || (now == At(head, p) && p !in Union(shares, n))
  {
    hide Staged;
    if n > 0 {
      EitherVersion(head, work, shares, n - 1, p);
      if p in shares[n - 1] {
        assert Reaches(p, p, work);
      }
    }
  }

  /** `tree` with the working versions of `paths`. */
  ghost function Overlay(tree: Tree, work: Tree, paths: set<string>): (out: Tree)
    ensures forall p :: At(out, p) == if p in paths then At(work, p) else At(tree, p)
  {
    map p | p in tree.Keys + work.Keys && (if p in paths then p in work else p in tree)
      :: if p in paths then work[p] else tree[p]
  }

  /** Nothing is lost at any stop: the head plus the changes not yet committed is the working tree. */
  lemma {:induction false} NothingIsLost(head: Tree, work: Tree, shares: seq<set<string>>, discard: set<string>, n: nat)
    requires n <= |shares| && Partition(shares, Changes(head, work) - discard)
    ensures var left := Changes(head, work) - Union(shares, n);
            Overlay(HeadAfter(head, work, shares, n), work, left) == work
    ensures n == |shares| ==> Changes(HeadAfter(head, work, shares, n), work) <= discard
  {
    hide HeadAfter, Overlay;
    var now, left := HeadAfter(head, work, shares, n), Changes(head, work) - Union(shares, n);
    forall p
      ensures At(Overlay(now, work, left), p) == At(work, p)
      ensures p !in left ==> At(now, p) == At(work, p)
    {
      EitherVersion(head, work, shares, n, p);
    }
    TreesEqual(Overlay(now, work, left), work);
  }

  /** No entry's `git add` reaches a change that belongs to a later entry or to the plan file. */
  ghost predicate Selective(shares: seq<set<string>>, all: set<string>, work: Tree) {
    forall k, q :: 0 <= k < |shares| && q in all - Union(shares, k + 1) ==> !Stages(shares[k], q, work)
  }

  ghost predicate Exact(head: Tree, work: Tree, shares: seq<set<string>>, k: nat)
    requires k < |shares|
  {
    Changes(HeadAfter(head, work, shares, k), HeadAfter(head, work, shares, k + 1)) == shares[k]
  }

  /** The head of an exact series: the working versions of what was assigned so far, nothing else. */
  lemma {:induction false} ExactHead(head: Tree, work: Tree, shares: seq<set<string>>, n: nat, p: string)
    requires n <= |shares|
    requires forall k :: 0 <= k < n ==> Exact(head, work, shares, k)
    ensures At(HeadAfter(head, work, shares, n), p) == if p in Union(shares, n) then At(work, p) else At(head, p)
  {
    hide Staged, Changes, Stages;
    EitherVersion(head, work, shares, n, p);
    if n > 0 {
      ExactHead(head, work, shares, n - 1, p);
      assert Exact(head, work, shares, n - 1);
      SameOutside(HeadAfter(head, work, shares, n - 1), HeadAfter(head, work, shares, n), p);
    }
  }

  lemma {:induction false} SameOutside(a: Tree, b: Tree, p: string)
    ensures p !in Changes(a, b) <==> At(a, p) == At(b, p)
  {
  }

  /** One step of a selective series, given what came before. */
  lemma {:induction false} SelectiveStep(head: Tree, work: Tree, shares: seq<set<string>>, discard: set<string>, k: nat)
    requires k < |shares| && Partition(shares, Changes(head, work) - discard)
    requires Selective(shares, Changes(head, work), work)
    requires forall j :: 0 <= j < k ==> Exact(head, work, shares, j)
    ensures Exact(head, work, shares, k)
  {
    hide Staged, Stages, Changes;
    var before, after := HeadAfter(head, work, shares, k), HeadAfter(head, work, shares, k + 1);
    HeadStep(head, work, shares, k);
    forall p
      ensures p in Changes(before, after) <==> p in shares[k]
    {
      SameOutside(before, after, p);
      SameOutside(head, work, p);
      ExactHead(head, work, shares, k, p);
      if p in shares[k] {
        OwnPathIsStaged(shares[k], p, work);
        OwnPathIsFresh(shares, Changes(head, work) - discard, k, p);
      }
      assert p in Union(shares, k + 1) <==> p in Union(shares, k) || p in shares[k];
    }
  }

  lemma {:induction false} OwnPathIsStaged(specs: set<string>, p: string, work: Tree)
    requires p in specs
    ensures Stages(specs, p, work)
  {
    assert Reaches(p, p, work);
  }

  lemma {:induction false} OwnPathIsFresh(shares: seq<set<string>>, changes: set<string>, k: nat, p: string)
    requires Partition(shares, changes) && k < |shares| && p in shares[k]
    ensures p in changes && p !in Union(shares, k)
  {
    InUnion(shares, |shares|, p);
    InUnion(shares, k, p);
  }

  lemma {:induction false} SelectiveIsExact(head: Tree, work: Tree, shares: seq<set<string>>, discard: set<string>, n: nat)
    requires n <= |shares| && Partition(shares, Changes(head, work) - discard)
    requires Selective(shares, Changes(head, work), work)
    ensures forall k :: 0 <= k < n ==> Exact(head, work, shares, k)
  {
    hide Exact, Selective;
    if n > 0 {
      SelectiveIsExact(head, work, shares, discard, n - 1);
      SelectiveStep(head, work, shares, discard, n - 1);
    }
  }

  /** Each commit of a partition alters exactly its own paths if and only if no entry reaches into what is left. */
  lemma {:induction false} CommitsAreExact(head: Tree, work: Tree, shares: seq<set<string>>, discard: set<string>)
    requires Partition(shares, Changes(head, work) - discard)
    ensures (forall k :: 0 <= k < |shares| ==> Exact(head, work, shares, k))
            <==> Selective(shares, Changes(head, work), work)
  {
    hide Changes, Staged, Stages;
    if Selective(shares, Changes(head, work), work) {
      SelectiveIsExact(head, work, shares, discard, |shares|);
    } else {
      var k, q :| 0 <= k < |shares| && q in Changes(head, work) - Union(shares, k + 1) && Stages(shares[k], q, work);
      if forall j :: 0 <= j < |shares| ==> Exact(head, work, shares, j) {
        ExactHead(head, work, shares, k, q);
        ExactHead(head, work, shares, k + 1, q);
        HeadStep(head, work, shares, k);
        SameOutside(head, work, q);
      }
    }
  }

  /** No changed path replaces a folder of another one. */
  ghost predicate Flat(paths: set<string>) {
    forall p, q :: p in paths && q in paths ==> !Under(p, q)
  }

  /** Without such replacements the one thing to avoid is an empty entry while something is left, the plan file included. */
  lemma {:induction false} OnlyEmptyEntriesReach(shares: seq<set<string>>, all: set<string>, discard: set<string>, work: Tree)
    requires Partition(shares, all - discard) && Flat(all)
    ensures Selective(shares, all, work)
            <==> forall k :: 0 <= k < |shares| && shares[k] == {} ==> all - Union(shares, k + 1) == {}
  {
    hide Under;
    forall k, q | 0 <= k < |shares| && q in all - Union(shares, k + 1)
      ensures Stages(shares[k], q, work) <==> shares[k] == {}
    {
      forall s | s in shares[k]
        ensures !Reaches(s, q, work)
      {
        OwnPathIsFresh(shares, all - discard, k, s);
      }
    }
    if forall k :: 0 <= k < |shares| && shares[k] == {} ==> all - Union(shares, k + 1) == {} {
      assert Selective(shares, all, work);
    } else {
      var k :| 0 <= k < |shares| && shares[k] == {} && all - Union(shares, k + 1) != {};
      var q :| q in all - Union(shares, k + 1);
      assert Stages(shares[k], q, work);
    }
  }

  /** An entry without paths commits the whole working tree, the plan file included, and every later entry is refused. */
  lemma {:induction false} EmptyEntryTakesAll(head: Tree, work: Tree, shares: seq<set<string>>, k: nat, j: nat, allowed: bool)
    requires k < j <= |shares| && shares[k] == {}
    ensures HeadAfter(head, work, shares, j) == work
    ensures j < |shares| ==> !Commits(HeadAfter(head, work, shares, j), work, shares[j], allowed)
  {
    hide Staged, Matched, Reaches;
    var now := HeadAfter(head, work, shares, j);
    forall p
      ensures At(now, p) == At(work, p)
    {
      HeadStep(head, work, shares, j - 1);
      if k < j - 1 {
        EmptyEntryTakesAll(head, work, shares, k, j - 1, allowed);
      }
    }
    TreesEqual(now, work);
    if j < |shares| {
      TreesEqual(Staged(now, work, shares[j]), now);
    }
  }

  /** A plan whose first entry lists no paths is accepted, although the documentation says it is refused. */
  lemma {:induction false} EmptyEntryIsAccepted(p: string)
    requires Clean(p) == p
    ensures forall m, n :: Explains(Accepted([{}, {p}]), [Entry([], false, m), Entry([p], false, n)], {p})
  {
    forall m, n
      ensures Explains(Accepted([{}, {p}]), [Entry([], false, m), Entry([p], false, n)], {p})
    {
      EmptyEntryFits(p, m, n);
    }
  }

  lemma {:induction false} EmptyEntryFits(p: string, m: string, n: string)
    requires Clean(p) == p
    ensures Explains(Accepted([{}, {p}]), [Entry([], false, m), Entry([p], false, n)], {p})
  {
    hide Clean;
    var plan, changes := [Entry([], false, m), Entry([p], false, n)], {p};
    assert plan[0] == Entry([], false, m) && plan[1] == Entry([p], false, n);
    assert Covers([p][0], p);
    assert Claimed(changes, [p]) == {p};
    assert Share(plan, changes, 0) == {} && Taken(plan, changes, 0) == {};
    assert Taken(plan, changes, 1) == {};
    assert Share(plan, changes, 1) == {p};
    assert Taken(plan, changes, 2) == {p};
    assert [plan[1].paths[0]] == [p];
    assert Fits(plan, changes, 0) && Fits(plan, changes, 1);
  }
}
