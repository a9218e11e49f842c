/** `_include_closure`: a worklist over quoted includes that collects the class names a
    translation unit sees, cut off when 2000 files have been met. */
module IncludeClosure {

  type Path = string

  /** What `_include_facts` knows of a file; `includes` holds the files its quoted includes
      resolve to, in order, unresolvable ones left out. */
  datatype Facts = Facts(includes: seq<Path>, angles: set<string>, defined: set<string>, declared: set<string>)

  /** Facts by file. The walk only meets the start file and files that exist. */
  type Tree = map<Path, Facts>

  const MAX_CLOSURE_FILES := 2000

  function FactsOf(tree: Tree, f: Path): Facts {
    if f in tree then tree[f] else Facts([], {}, {}, {})
  }

  /** Includes resolve to files of the tree. */
  ghost predicate Resolved(tree: Tree) {
    forall f, k :: f in tree && 0 <= k < |tree[f].includes| ==> tree[f].includes[k] in tree
  }

  // ----- Reachability -----

  ghost predicate IsPath(tree: Tree, p: seq<Path>) {
    && p != []
    && forall k :: 0 <= k < |p| - 1 ==> Includes(tree, p[k], p[k + 1])
  }

  predicate Includes(tree: Tree, f: Path, g: Path) {
    g in FactsOf(tree, f).includes
  }

  ghost predicate Reachable(tree: Tree, start: Path, f: Path) {
    exists p :: IsPath(tree, p) && p[0] == start && p[|p| - 1] == f
  }

  ghost function Reach(tree: Tree, start: Path): set<Path> {
    set f | f in tree.Keys + {start} && Reachable(tree, start, f)
  }

  lemma {:induction false} StartReachable(tree: Tree, start: Path)
    ensures Reachable(tree, start, start)
  {
    var p := [start];
    assert IsPath(tree, p) && p[0] == start && p[|p| - 1] == start;
  }

  lemma {:induction false} StepReachable(tree: Tree, start: Path, f: Path, g: Path)
    requires Reachable(tree, start, f) && Includes(tree, f, g)
    ensures Reachable(tree, start, g)
  {
    var p :| IsPath(tree, p) && p[0] == start && p[|p| - 1] == f;
    var q := p + [g];
    forall k | 0 <= k < |q| - 1
      ensures Includes(tree, q[k], q[k + 1])
    {
      if k < |p| - 1 {
        assert Includes(tree, p[k], p[k + 1]);
      }
    }
    assert q[0] == start && q[|q| - 1] == g;
  }

  /** A set that holds the start and is closed under includes holds everything reachable. */
  lemma {:induction false} ClosedHoldsReach(tree: Tree, start: Path, s: set<Path>, p: seq<Path>)
    requires start in s && forall f, g :: f in s && Includes(tree, f, g) ==> g in s
    requires IsPath(tree, p) && p[0] == start
    ensures p[|p| - 1] in s
    decreases |p|
  {
    if |p| > 1 {
      var q := p[..|p| - 1];
      forall k | 0 <= k < |q| - 1
        ensures Includes(tree, q[k], q[k + 1])
      {
        assert Includes(tree, p[k], p[k + 1]);
      }
      ClosedHoldsReach(tree, start, s, q);
      assert Includes(tree, p[|p| - 2], p[|p| - 2 + 1]);
    }
  }

  lemma {:induction false} StaysInTree(tree: Tree, start: Path, f: Path)
    requires Resolved(tree) && Reachable(tree, start, f)
    ensures f in tree.Keys + {start}
  {
    var p :| IsPath(tree, p) && p[0] == start && p[|p| - 1] == f;
    ClosedHoldsReach(tree, start, tree.Keys + {start}, p);
  }

  // ----- The names of a set of files -----

  ghost function DefinedIn(tree: Tree, files: set<Path>): set<string> {
    set f, n | f in files && n in FactsOf(tree, f).defined :: n
  }

  ghost function DeclaredIn(tree: Tree, files: set<Path>): set<string> {
    set f, n | f in files && n in FactsOf(tree, f).declared :: n
  }

  ghost function AnglesIn(tree: Tree, files: set<Path>): set<string> {
    set f, n | f in files && n in FactsOf(tree, f).angles :: n
  }

  // ----- The worklist -----

  /** The inner loop: includes not met before are marked and pushed, in order. */
  function PushNew(includes: seq<Path>, seen: set<Path>, queue: seq<Path>): (set<Path>, seq<Path>) {
    if includes == [] then (seen, queue)
    else if includes[0] in seen then PushNew(includes[1..], seen, queue)
    else PushNew(includes[1..], seen + {includes[0]}, queue + [includes[0]])
  }

  lemma {:induction false} PushNewFacts(includes: seq<Path>, seen: set<Path>, queue: seq<Path>)
    requires Distinct(queue) && forall f :: f in queue ==> f in seen
    ensures var r := PushNew(includes, seen, queue);
            && r.0 == seen + Items(includes)
            && Distinct(r.1)
            && (forall f :: f in r.1 <==> f in queue || (f in r.0 && f !in seen))
            && (r.0 != seen ==> r.1 != [])
    decreases |includes|
  {
    if includes != [] {
      ItemsSplit(includes);
      if includes[0] in seen {
        PushNewFacts(includes[1..], seen, queue);
      } else {
        PushNewFacts(includes[1..], seen + {includes[0]}, queue + [includes[0]]);
        assert includes[0] in PushNew(includes, seen, queue).1;
      }
    }
  }

  ghost function Items(s: seq<Path>): set<Path> {
    set x | x in s
  }

  lemma {:induction false} ItemsSplit(s: seq<Path>)
    requires s != []
    ensures Items(s) == {s[0]} + Items(s[1..])
  {
    assert s == [s[0]] + s[1..];
  }

  ghost predicate Distinct(s: seq<Path>) {
    forall i, j :: 0 <= i < j < |s| ==> s[i] != s[j]
  }

  datatype Names = Names(defined: set<string>, declared: set<string>, angles: set<string>)

  ghost function NamesOf(tree: Tree, files: set<Path>): Names {
    Names(DefinedIn(tree, files), DeclaredIn(tree, files), AnglesIn(tree, files))
  }

  lemma {:induction false} NamesGrow(tree: Tree, done: set<Path>, f: Path)
    ensures var facts := FactsOf(tree, f);
            NamesOf(tree, done + {f}) ==
            Names(DefinedIn(tree, done) + facts.defined, DeclaredIn(tree, done) + facts.declared,
                  AnglesIn(tree, done) + facts.angles)
  {
  }

  /** What holds at the head of the loop: `done` files are processed, `queue` is met but not
      processed, the names are those of `done`, and every include of `done` has been met. */
  ghost predicate Progress(tree: Tree, start: Path, seen: set<Path>, queue: seq<Path>, done: set<Path>) {
    && start in seen
    && Distinct(queue)
    && done !! Items(queue)
    && seen == done + Items(queue)
    && seen <= Reach(tree, start)
    && forall f, g :: f in done && Includes(tree, f, g) ==> g in seen
  }

  lemma {:induction false} ProgressStep(tree: Tree, start: Path, seen: set<Path>, queue: seq<Path>, done: set<Path>)
    requires Resolved(tree) && Progress(tree, start, seen, queue, done) && queue != []
    ensures var n := |queue| - 1;
            var r := PushNew(FactsOf(tree, queue[n]).includes, seen, queue[..n]);
            && Progress(tree, start, r.0, r.1, done + {queue[n]})
            && queue[n] !in done
            && seen <= r.0
            && (r.0 != seen ==> r.1 != [])
  {
    hide Reachable;
    var n := |queue| - 1;
    var current, rest := queue[n], queue[..n];
    var includes := FactsOf(tree, current).includes;
    PushNewFacts(includes, seen, rest);
    assert queue == rest + [current];
    assert Items(queue) == Items(rest) + {current};
    var r := PushNew(includes, seen, rest);
    forall g | g in Items(includes)
      ensures g in Reach(tree, start)
    {
      assert current in Reach(tree, start);
      StepReachable(tree, start, current, g);
      StaysInTree(tree, start, g);
    }
    assert Items(r.1) == Items(rest) + (r.0 - seen);
    assert r.0 == done + {current} + Items(r.1);
  }

  // ----- The walk -----

  /** The files processed when the loop ends, from any of its heads: the last file of the queue is taken
      off, its new includes are pushed, until the queue is empty or `cap` files have been met. */
  ghost function Walk(tree: Tree, start: Path, cap: nat, seen: set<Path>, queue: seq<Path>, done: set<Path>): set<Path>
    requires Resolved(tree) && Progress(tree, start, seen, queue, done)
    decreases Reach(tree, start) - done
  {
    if queue == [] || |seen| >= cap then done
    else
      var current := queue[|queue| - 1];
      var r := PushNew(FactsOf(tree, current).includes, seen, queue[..|queue| - 1]);
      Sizes(tree, start, seen, queue, done);
      ProgressStep(tree, start, seen, queue, done);
      Walk(tree, start, cap, r.0, r.1, done + {current})
  }

  /** The files a whole run processes. */
  ghost function Visited(tree: Tree, start: Path, cap: nat): set<Path>
    requires Resolved(tree)
  {
    StartFacts(tree, start);
    Walk(tree, start, cap, {start}, [start], {})
  }

  lemma {:induction false} WalkStep(tree: Tree, start: Path, cap: nat, seen: set<Path>, queue: seq<Path>, done: set<Path>)
    requires Resolved(tree) && Progress(tree, start, seen, queue, done)
    ensures queue == [] || |seen| >= cap ==> Walk(tree, start, cap, seen, queue, done) == done
    ensures queue != [] && |seen| < cap ==>
              var current := queue[|queue| - 1];
              var r := PushNew(FactsOf(tree, current).includes, seen, queue[..|queue| - 1]);
              && Progress(tree, start, r.0, r.1, done + {current})
              && Walk(tree, start, cap, seen, queue, done) == Walk(tree, start, cap, r.0, r.1, done + {current})
  {
    hide Progress;
    if queue != [] {
      ProgressStep(tree, start, seen, queue, done);
    }
  }

  /** The walk terminates on any graph, processes no file twice, and returns the names of the files
      it processed. */
  method Closure(tree: Tree, start: Path, cap: nat) returns (names: Names, ghost turns: nat)
    requires Resolved(tree) && cap > 0
    ensures names == NamesOf(tree, Visited(tree, start, cap))
    ensures turns == |Visited(tree, start, cap)|
  {
    hide Reachable, Progress, Walk;
    var seen := {start};
    var queue := [start];
    var defined: set<string>, declared: set<string>, angles: set<string> := {}, {}, {};
    ghost var done: set<Path> := {};
    turns := 0;
    StartFacts(tree, start);
    while queue != [] && |seen| < cap
      invariant Progress(tree, start, seen, queue, done)
      invariant Walk(tree, start, cap, seen, queue, done) == Visited(tree, start, cap)
      invariant Names(defined, declared, angles) == NamesOf(tree, done)
      invariant turns == |done|
      decreases Reach(tree, start) - done
    {
      Sizes(tree, start, seen, queue, done);
      ProgressStep(tree, start, seen, queue, done);
      WalkStep(tree, start, cap, seen, queue, done);
      var current := queue[|queue| - 1];
      queue := queue[..|queue| - 1];
      var facts := FactsOf(tree, current);
      NamesGrow(tree, done, current);
      defined := defined + facts.defined;
      declared := declared + facts.declared;
      angles := angles + facts.angles;
      ghost var wanted := PushNew(facts.includes, seen, queue);
      var i := 0;
      while i < |facts.includes|
        invariant i <= |facts.includes|
        invariant PushNew(facts.includes[i..], seen, queue) == wanted
      {
        var resolved := facts.includes[i];
        assert facts.includes[i..][0] == resolved && facts.includes[i..][1..] == facts.includes[i + 1..];
        if resolved !in seen {
          seen := seen + {resolved};
          queue := queue + [resolved];
        }
        i := i + 1;
      }
      assert facts.includes[|facts.includes|..] == [];
      done, turns := done + {current}, turns + 1;
    }
    names := Names(defined, declared, angles);
    WalkStep(tree, start, cap, seen, queue, done);
  }

  lemma {:induction false} StartFacts(tree: Tree, start: Path)
    ensures Progress(tree, start, {start}, [start], {})
    ensures NamesOf(tree, {}) == Names({}, {}, {})
  {
    StartReachable(tree, start);
  }

  lemma {:induction false} Sizes(tree: Tree, start: Path, seen: set<Path>, queue: seq<Path>, done: set<Path>)
    requires Progress(tree, start, seen, queue, done) && queue != []
    ensures |done| < |seen|
    ensures queue[|queue| - 1] in Reach(tree, start)
  {
    assert queue[0] in Items(queue);
    assert done + {queue[0]} <= seen;
    SubsetSize(done + {queue[0]}, seen);
  }

  lemma {:induction false} SubsetSize(a: set<Path>, b: set<Path>)
    requires a <= b
    ensures |a| <= |b|
  {
    assert b == a + (b - a);
  }

  lemma {:induction false} Finished(tree: Tree, start: Path, seen: set<Path>, queue: seq<Path>, done: set<Path>, cap: nat)
    requires Progress(tree, start, seen, queue, done)
    requires queue == [] || |seen| >= cap
    requires |seen| >= cap ==> queue != []
    requires |done| < cap
    ensures done <= Reach(tree, start) && |done| < cap
    ensures done == Reach(tree, start) <==> |Reach(tree, start)| < cap
  {
    var all := Reach(tree, start);
    SubsetSize(seen, all);
    if queue == [] {
      assert seen == done;
      forall f | f in all
        ensures f in done
      {
        var p :| IsPath(tree, p) && p[0] == start && p[|p| - 1] == f;
        ClosedHoldsReach(tree, start, done, p);
      }
      assert done == all;
    } else {
      assert queue[0] in all && queue[0] !in done;
    }
  }

  lemma {:induction false} WalkEnds(tree: Tree, start: Path, cap: nat, seen: set<Path>, queue: seq<Path>, done: set<Path>)
    requires Resolved(tree) && Progress(tree, start, seen, queue, done)
    requires |seen| >= cap ==> queue != []
    requires |done| < cap
    ensures var all := Walk(tree, start, cap, seen, queue, done);
            && all <= Reach(tree, start) && |all| < cap
            && (all == Reach(tree, start) <==> |Reach(tree, start)| < cap)
    decreases Reach(tree, start) - done
  {
    hide Reach, Progress, Walk;
    WalkStep(tree, start, cap, seen, queue, done);
    if queue == [] || |seen| >= cap {
      Finished(tree, start, seen, queue, done, cap);
    } else {
      Sizes(tree, start, seen, queue, done);
      ProgressStep(tree, start, seen, queue, done);
      var current := queue[|queue| - 1];
      var r := PushNew(FactsOf(tree, current).includes, seen, queue[..|queue| - 1]);
      assert |done + {current}| == |done| + 1;
      WalkEnds(tree, start, cap, r.0, r.1, done + {current});
    }
  }

  /** A run processes reachable files only, fewer than `cap` of them, and all of them exactly when fewer
      than `cap` are reachable. */
  lemma {:induction false} VisitedIs(tree: Tree, start: Path, cap: nat)
    requires Resolved(tree) && cap > 0
    ensures var all := Visited(tree, start, cap);
            && all <= Reach(tree, start) && |all| < cap
            && (all == Reach(tree, start) <==> |Reach(tree, start)| < cap)
  {
    hide Reach, Progress, Walk;
    StartFacts(tree, start);
    WalkEnds(tree, start, cap, {start}, [start], {});
  }

  // ----- The member-pointer rule -----

  /** A use of `Qualified::*`, with the last component of the class name. */
  datatype Use = Use(line: nat, simple: string)

  predicate Incomplete(names: Names, simple: string) {
    simple !in names.defined && simple !in names.angles && simple in names.declared
  }

  method Findings(names: Names, uses: seq<Use>) returns (out: seq<Use>)
    ensures forall u :: u in out <==> u in uses && Incomplete(names, u.simple)
    ensures forall i, j :: 0 <= i < j < |out| ==> out[i] != out[j]
  {
    out := [];
    var reported: set<Use> := {};
    for i := 0 to |uses|
      invariant forall u :: u in out <==> u in uses[..i] && Incomplete(names, u.simple)
      invariant forall u :: u in reported <==> u in out
      invariant forall i, j :: 0 <= i < j < |out| ==> out[i] != out[j]
    {
      assert uses[..i + 1] == uses[..i] + [uses[i]];
      if uses[i].simple in names.defined || uses[i].simple in names.angles || uses[i].simple !in names.declared {
        continue;
      }
      if uses[i] in reported {
        continue;
      }
      reported := reported + {uses[i]};
      out := out + [uses[i]];
    }
    assert uses[..|uses|] == uses;
  }

  /** The rule as the source runs it, on the default cap: below it a verdict on all reachable files, at it
      and above one on the files walked so far. */
  method MemberPointerFindings(tree: Tree, start: Path, uses: seq<Use>) returns (out: seq<Use>)
    requires Resolved(tree)
    ensures forall u :: u in out <==> u in uses && Incomplete(NamesOf(tree, Visited(tree, start, MAX_CLOSURE_FILES)), u.simple)
    ensures |Reach(tree, start)| < MAX_CLOSURE_FILES ==>
              forall u :: u in out <==> u in uses && Incomplete(NamesOf(tree, Reach(tree, start)), u.simple)
    ensures forall u :: u in out ==> u in uses && u.simple in DeclaredIn(tree, Reach(tree, start))
  {
    hide Reach, Visited;
    var names, turns := Closure(tree, start, MAX_CLOSURE_FILES);
    VisitedIs(tree, start, MAX_CLOSURE_FILES);
    out := Findings(names, uses);
    forall u | u in out
      ensures u.simple in DeclaredIn(tree, Reach(tree, start))
    {
      assert u.simple in DeclaredIn(tree, Visited(tree, start, MAX_CLOSURE_FILES));
    }
  }

  // ----- At the cap -----

  /** `n` letters. */
  function Name(n: nat): Path {
    seq(n, _ => 'x')
  }

  function Includees(cap: nat): (names: seq<Path>)
    requires cap >= 1
    ensures |names| == cap - 1 && forall i :: 0 <= i < cap - 1 ==> |names[i]| == i + 1 && names[i] == Name(i + 1)
  {
    seq(cap - 1, i requires 0 <= i < cap - 1 => Name(i + 1))
  }

  /** A start file that declares `C` and includes `cap - 1` files, each of which defines it. */
  ghost function Wide(cap: nat): Tree
    requires cap >= 1
  {
    map f | f in {""} + Items(Includees(cap)) ::
      if f == "" then Facts(Includees(cap), {}, {}, {"C"}) else Facts([], {}, {"C"}, {})
  }

  lemma {:induction false} ItemsSize(s: seq<Path>)
    requires Distinct(s)
    ensures |Items(s)| == |s|
  {
    if s != [] {
      ItemsSplit(s);
      ItemsSize(s[1..]);
      assert s[0] !in Items(s[1..]);
    }
  }

  /** The walk of the wide tree stops behind its first file. */
  lemma {:induction false} WideStops(cap: nat)
    requires cap >= 2
    ensures Resolved(Wide(cap)) && Visited(Wide(cap), "", cap) == {""}
  {
    hide Progress, Walk, Reach;
    var tree, names := Wide(cap), Includees(cap);
    assert forall i :: 0 <= i < |names| ==> names[i] in Items(names) && names[i] != "";
    assert Resolved(tree);
    StartFacts(tree, "");
    WalkStep(tree, "", cap, {""}, [""], {});
    assert [""][..0] == [];
    PushNewFacts(names, {""}, []);
    var r := PushNew(names, {""}, []);
    ItemsSize(names);
    assert "" !in Items(names);
    assert |r.0| == cap;
    WalkStep(tree, "", cap, r.0, r.1, {} + {""});
  }

  /** At the cap the rule does not fall silent. For every cap there is a tree on which the walk stops in front
      of files that define a class, and the class is reported as incomplete. */
  lemma {:induction false} CutWalkStillReports(cap: nat)
    requires cap >= 2
    ensures var tree := Wide(cap);
            && Resolved(tree)
            && Incomplete(NamesOf(tree, Visited(tree, "", cap)), "C")
            && !Incomplete(NamesOf(tree, Reach(tree, "")), "C")
  {
    hide Visited, Reachable;
    var tree, names := Wide(cap), Includees(cap);
    WideStops(cap);
    assert tree[""].declared == {"C"} && tree[""].defined == {} && tree[""].angles == {};
    assert names[0] in Items(names) && names[0] in tree && names[0] != "";
    StartReachable(tree, "");
    assert Includes(tree, "", names[0]);
    StepReachable(tree, "", "", names[0]);
    assert names[0] in Reach(tree, "") && "C" in FactsOf(tree, names[0]).defined;
  }

  /** In particular at the cap of the source. */
  lemma {:induction false} RuleReportsAtTheCap()
    ensures var tree := Wide(MAX_CLOSURE_FILES);
            && Resolved(tree)
            && Incomplete(NamesOf(tree, Visited(tree, "", MAX_CLOSURE_FILES)), "C")
            && !Incomplete(NamesOf(tree, Reach(tree, "")), "C")
  {
    CutWalkStillReports(MAX_CLOSURE_FILES);
  }

  /** When the rule reports a class, in terms of files: one of them declares it, and none of them defines it or names it
      in an angle include. */
  lemma {:induction false} IncompleteExactly(tree: Tree, files: set<Path>, simple: string)
    ensures Incomplete(NamesOf(tree, files), simple) <==>
            && (exists f :: f in files && f in tree && simple in tree[f].declared)
            && (forall f :: f in files && f in tree ==> simple !in tree[f].defined && simple !in tree[f].angles)
  {
    var names := NamesOf(tree, files);
    assert forall f :: f in files && f in tree ==> FactsOf(tree, f) == tree[f];
    assert simple in names.declared <==> exists f :: f in files && simple in FactsOf(tree, f).declared;
    assert simple in names.defined <==> exists f :: f in files && simple in FactsOf(tree, f).defined;
    assert simple in names.angles <==> exists f :: f in files && simple in FactsOf(tree, f).angles;
    if simple in names.declared {
      var f :| f in files && simple in FactsOf(tree, f).declared;
      assert f in tree;
    }
    forall f | f in files && f !in tree
      ensures simple !in FactsOf(tree, f).defined && simple !in FactsOf(tree, f).angles
    {
    }
  }

  /** Of two includes the last one is walked first: with room for four files the walk reads `b`, meets `c` and stops
      in front of `a`. */
  lemma {:induction false} LastIncludeFirst(s: Path, a: Path, b: Path, c: Path)
    requires s != a && s != b && s != c && a != b && a != c && b != c
    ensures var none := Facts([], {}, {}, {});
            var tree := map[s := Facts([a, b], {}, {}, {}), a := none, b := Facts([c], {}, {}, {}), c := none];
            Resolved(tree) && Visited(tree, s, 4) == {s, b}
  {
    hide Progress, Walk, Reach;
    var none := Facts([], {}, {}, {});
    var tree := map[s := Facts([a, b], {}, {}, {}), a := none, b := Facts([c], {}, {}, {}), c := none];
    StartFacts(tree, s);
    WalkStep(tree, s, 4, {s}, [s], {});
    assert [s][..0] == [];
    PushTwo(a, b, s);
    WalkStep(tree, s, 4, {s, a, b}, [a, b], {} + {s});
    assert [a, b][..1] == [a];
    assert PushNew([c], {s, a, b}, [a]) == ({s, a, b} + {c}, [a] + [c]) by { PushOne(c, {s, a, b}, [a]); }
    assert {s, a, b} + {c} == {s, a, b, c} && |{s, a, b, c}| == 4;
    WalkStep(tree, s, 4, {s, a, b} + {c}, [a] + [c], {} + {s} + {b});
    assert {} + {s} + {b} == {s, b};
  }

  lemma {:induction false} PushOne(c: Path, seen: set<Path>, queue: seq<Path>)
    requires c !in seen
    ensures PushNew([c], seen, queue) == (seen + {c}, queue + [c])
  {
    assert [c][1..] == [];
  }

  lemma {:induction false} PushTwo(a: Path, b: Path, s: Path)
    requires s != a && s != b && a != b
    ensures PushNew([a, b], {s}, []) == ({s, a, b}, [a, b])
  {
    assert [a, b][1..] == [b];
    PushOne(b, {s} + {a}, [] + [a]);
    assert {s} + {a} + {b} == {s, a, b} && [] + [a] + [b] == [a, b];
  }
}
