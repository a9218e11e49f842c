/** The duplicate-window census: an inverted index over file windows counts, for every pair of
    files, the windows they share. It must agree with comparing the two files directly. */
module CloneCensus {
  import opened Text

  /** A window of normalized lines; the digest of the source stands for the window itself. */
  type Window = seq<string>

  /** A file with the set of its windows. */
  datatype File = File(rel: string, windows: set<Window>)

  const WINDOW_LINES := 10
  const PAIR_THRESHOLD := 40
  const MAX_SHARERS := 16

  /** `_dup_window_hashes` */
  function WindowsOf(lines: seq<string>): set<Window> {
    if |lines| < WINDOW_LINES then {}
    else set i | 0 <= i < |lines| - WINDOW_LINES + 1 :: WindowAt(lines, i)
  }

  function WindowAt(lines: seq<string>, i: nat): Window
    requires i + WINDOW_LINES <= |lines|
  {
    lines[i..i + WINDOW_LINES]
  }

  ghost predicate DistinctFiles(files: seq<File>) {
    forall i, j :: 0 <= i < j < |files| ==> files[i].rel != files[j].rel
  }

  // ----- The specification: no index -----

  /** Everyone who has window `w`, in file order. */
  function Sharers(files: seq<File>, w: Window): seq<string> {
    if files == [] then []
    else
      var n := |files| - 1;
      Sharers(files[..n], w) + if w in files[n].windows then [files[n].rel] else []
  }

  function AllWindows(files: seq<File>): set<Window> {
    if files == [] then {} else AllWindows(files[..|files| - 1]) + files[|files| - 1].windows
  }

  /** The windows of `a` that `b` has as well and that are not boilerplate. */
  ghost function Common(files: seq<File>, a: File, b: File): set<Window> {
    set w | w in a.windows && w in b.windows && |Sharers(files, w)| <= MAX_SHARERS
  }

  lemma {:induction false} SharersAre(files: seq<File>, w: Window, rel: string)
    ensures rel in Sharers(files, w) <==> exists k :: 0 <= k < |files| && files[k].rel == rel && w in files[k].windows
  {
    if files != [] {
      var n := |files| - 1;
      SharersAre(files[..n], w, rel);
      if rel in Sharers(files[..n], w) {
        var k :| 0 <= k < |files[..n]| && files[..n][k].rel == rel && w in files[..n][k].windows;
        assert files[k].rel == rel && w in files[k].windows;
      }
      if k :| 0 <= k < |files| && files[k].rel == rel && w in files[k].windows {
        if k < n {
          assert files[..n][k] == files[k];
        }
      }
    }
  }

  ghost predicate Distinct(s: seq<string>) {
    forall i, j :: 0 <= i < j < |s| ==> s[i] != s[j]
  }

  lemma {:induction false} SharersDistinct(files: seq<File>, w: Window)
    requires DistinctFiles(files)
    ensures Distinct(Sharers(files, w))
  {
    if files != [] {
      var n := |files| - 1;
      SharersDistinct(files[..n], w);
      SharersAre(files[..n], w, files[n].rel);
    }
  }

  lemma {:induction false} AllWindowsAre(files: seq<File>, w: Window)
    ensures w in AllWindows(files) <==> Sharers(files, w) != []
  {
    if files != [] { AllWindowsAre(files[..|files| - 1], w); }
  }

  // ----- Inverting -----

  ghost function Index(files: seq<File>): map<Window, seq<string>> {
    map w | w in AllWindows(files) :: Sharers(files, w)
  }

  method InvertFile(owners: map<Window, seq<string>>, file: File) returns (out: map<Window, seq<string>>)
    ensures out.Keys == owners.Keys + file.windows
    ensures forall w :: w in out ==>
              out[w] == (if w in owners then owners[w] else []) + if w in file.windows then [file.rel] else []
  {
    out := owners;
    var left := file.windows;
    while left != {}
      invariant left <= file.windows
      invariant out.Keys == owners.Keys + (file.windows - left)
      invariant forall w :: w in out ==>
                  out[w] == (if w in owners then owners[w] else []) + if w in file.windows - left then [file.rel] else []
      decreases left
    {
      var w :| w in left;
      out := out[w := (if w in out then out[w] else []) + [file.rel]];
      left := left - {w};
    }
  }

  method BuildOwners(files: seq<File>) returns (owners: map<Window, seq<string>>)
    ensures owners == Index(files)
  {
    owners := map[];
    assert files[..0] == [];
    for i := 0 to |files|
      invariant owners.Keys == AllWindows(files[..i])
      invariant forall w :: w in owners ==> owners[w] == Sharers(files[..i], w)
    {
      assert files[..i + 1][..i] == files[..i];
      ghost var before := owners;
      owners := InvertFile(owners, files[i]);
      forall w | w in owners
        ensures owners[w] == Sharers(files[..i + 1], w)
      {
        AllWindowsAre(files[..i], w);
      }
    }
    assert files[..|files|] == files;
  }

  // ----- Counting pairs -----

  type Counts = map<(string, string), nat>

  function Get(counts: Counts, key: (string, string)): nat {
    if key in counts then counts[key] else 0
  }

  function Ordered(a: string, b: string): (string, string) {
    if Less(a, b) then (a, b) else (b, a)
  }

  /** The loops over one window's sharers have reached the pair of `key`. */
  ghost predicate Reached(sharers: seq<string>, i: nat, j: nat, key: (string, string)) {
    exists a, b :: 0 <= a < b < |sharers| && (a < i || (a == i && b < j)) && key == Ordered(sharers[a], sharers[b])
  }

  lemma {:induction false} OrderedOnce(sharers: seq<string>, a: nat, b: nat, c: nat, d: nat)
    requires Distinct(sharers) && a < b < |sharers| && c < d < |sharers|
    requires Ordered(sharers[a], sharers[b]) == Ordered(sharers[c], sharers[d])
    ensures a == c && b == d
  {
    LessTrichotomy(sharers[a], sharers[b]);
    LessTrichotomy(sharers[c], sharers[d]);
  }

  lemma {:induction false} ReachedStep(sharers: seq<string>, i: nat, j: nat, key: (string, string))
    requires Distinct(sharers) && i < j < |sharers|
    ensures Reached(sharers, i, j + 1, key) <==> Reached(sharers, i, j, key) || key == Ordered(sharers[i], sharers[j])
    ensures !Reached(sharers, i, j, Ordered(sharers[i], sharers[j]))
  {
    if Reached(sharers, i, j, Ordered(sharers[i], sharers[j])) {
      var a, b :| 0 <= a < b < |sharers| && (a < i || (a == i && b < j)) && Ordered(sharers[i], sharers[j]) == Ordered(sharers[a], sharers[b]);
      OrderedOnce(sharers, i, j, a, b);
    }
  }

  method AddPairs(before: Counts, sharers: seq<string>) returns (counts: Counts)
    requires Distinct(sharers)
    ensures forall key :: Get(counts, key) == Get(before, key) + if Reached(sharers, |sharers|, 0, key) then 1 else 0
    ensures forall key :: key in counts ==> key in before || counts[key] > 0
  {
    hide Ordered;
    counts := before;
    for i := 0 to |sharers|
      invariant forall key :: Get(counts, key) == Get(before, key) + if Reached(sharers, i, 0, key) then 1 else 0
      invariant forall key :: key in counts ==> key in before || counts[key] > 0
    {
      assert forall key :: Reached(sharers, i, i + 1, key) <==> Reached(sharers, i, 0, key);
      for j := i + 1 to |sharers|
        invariant forall key :: Get(counts, key) == Get(before, key) + if Reached(sharers, i, j, key) then 1 else 0
        invariant forall key :: key in counts ==> key in before || counts[key] > 0
      {
        var key := Ordered(sharers[i], sharers[j]);
        forall other
          ensures Reached(sharers, i, j + 1, other) <==> Reached(sharers, i, j, other) || other == key
          ensures !Reached(sharers, i, j, key)
        {
          ReachedStep(sharers, i, j, other);
        }
        counts := counts[key := Get(counts, key) + 1];
      }
      assert forall key :: Reached(sharers, i, |sharers|, key) <==> Reached(sharers, i + 1, 0, key);
    }
  }

  /** The windows of `done` that count for the pair `key`. */
  ghost function Counted(owners: map<Window, seq<string>>, done: set<Window>, key: (string, string)): set<Window> {
    set w | w in done && w in owners && 2 <= |owners[w]| <= MAX_SHARERS && Reached(owners[w], |owners[w]|, 0, key)
  }

  method CountPairs(owners: map<Window, seq<string>>) returns (counts: Counts)
    requires forall w :: w in owners ==> Distinct(owners[w])
    ensures forall key :: Get(counts, key) == |Counted(owners, owners.Keys, key)|
    ensures forall key :: key in counts ==> counts[key] > 0
  {
    hide Reached;
    counts := map[];
    var left := owners.Keys;
    while left != {}
      invariant left <= owners.Keys
      invariant forall key :: Get(counts, key) == |Counted(owners, owners.Keys - left, key)|
      invariant forall key :: key in counts ==> counts[key] > 0
      decreases left
    {
      var w :| w in left;
      ghost var done := owners.Keys - left;
      ghost var before := counts;
      if 2 <= |owners[w]| <= MAX_SHARERS {
        counts := AddPairs(counts, owners[w]);
      }
      left := left - {w};
      forall key
        ensures Get(counts, key) == |Counted(owners, owners.Keys - left, key)|
      {
        assert owners.Keys - left == done + {w};
        CountedStep(owners, done, w, key);
      }
      forall key | key in counts
        ensures counts[key] > 0
      {
        assert Get(counts, key) >= Get(before, key);
      }
    }
    assert owners.Keys - left == owners.Keys;
  }

  lemma {:induction false} CountedStep(owners: map<Window, seq<string>>, done: set<Window>, w: Window, key: (string, string))
    requires w in owners && w !in done
    ensures |Counted(owners, done + {w}, key)| == |Counted(owners, done, key)| +
              if 2 <= |owners[w]| <= MAX_SHARERS && Reached(owners[w], |owners[w]|, 0, key) then 1 else 0
  {
    hide Reached;
    var old', new' := Counted(owners, done, key), Counted(owners, done + {w}, key);
    if 2 <= |owners[w]| <= MAX_SHARERS && Reached(owners[w], |owners[w]|, 0, key) {
      assert new' == old' + {w};
    } else {
      assert new' == old';
    }
  }

  // ----- The census -----

  datatype Census = Census(pairs: Counts, shared: nat)

  ghost function Sum(m: Counts): nat
    decreases |m|
  {
    if m == map[] then 0 else
      var k :| k in m;
      m[k] + Sum(m - {k})
  }

  lemma {:induction false} SumRemove(m: Counts, k: (string, string))
    requires k in m
    ensures Sum(m) == m[k] + Sum(m - {k})
    decreases |m|
  {
    var j :| j in m && Sum(m) == m[j] + Sum(m - {j});
    if j != k {
      SumRemove(m - {j}, k);
      assert m - {j} - {k} == m - {k} - {j};
      SumRemove(m - {k}, j);
    }
  }

  method SumPairs(pairs: Counts) returns (total: nat)
    ensures total == Sum(pairs)
  {
    total := 0;
    var left := pairs;
    while left != map[]
      invariant forall k :: k in left ==> k in pairs && left[k] == pairs[k]
      invariant total + Sum(left) == Sum(pairs)
      decreases |left|
    {
      var k :| k in left;
      SumRemove(left, k);
      total := total + left[k];
      left := left - {k};
    }
  }

  /** The count the index yields for a pair. */
  ghost function Indexed(files: seq<File>, key: (string, string)): nat {
    |Counted(Index(files), AllWindows(files), key)|
  }

  method CollectDupCensus(files: seq<File>) returns (census: Census)
    requires DistinctFiles(files)
    ensures forall key :: key in census.pairs <==> Indexed(files, key) > PAIR_THRESHOLD
    ensures forall key :: key in census.pairs ==> census.pairs[key] == Indexed(files, key)
    ensures census.shared == Sum(census.pairs)
  {
    hide Reached, Counted, Distinct;
    var owners := BuildOwners(files);
    assert owners.Keys == AllWindows(files);
    forall w | w in owners
      ensures Distinct(owners[w])
    {
      SharersDistinct(files, w);
    }
    var counts := CountPairs(owners);
    var pairs := map key | key in counts && counts[key] > PAIR_THRESHOLD :: counts[key];
    var shared := SumPairs(pairs);
    census := Census(pairs, shared);
    forall key
      ensures key in pairs <==> Indexed(files, key) > PAIR_THRESHOLD
      ensures key in pairs ==> pairs[key] == Indexed(files, key)
    {
      assert Get(counts, key) == |Counted(owners, owners.Keys, key)|;
    }
  }

  // ----- The index agrees with the direct comparison -----

  /** A window is counted for two files exactly when both have it and at most 16 do. */
  lemma {:induction false} CountedIsCommon(files: seq<File>, i: nat, j: nat)
    requires DistinctFiles(files) && i < |files| && j < |files| && Less(files[i].rel, files[j].rel)
    ensures Counted(Index(files), AllWindows(files), (files[i].rel, files[j].rel)) == Common(files, files[i], files[j])
  {
    var a, b := files[i], files[j];
    LessTrichotomy(a.rel, b.rel);
    forall w
      ensures w in Counted(Index(files), AllWindows(files), (a.rel, b.rel)) <==> w in Common(files, a, b)
    {
      AllWindowsAre(files, w);
      SharersAre(files, w, a.rel);
      SharersAre(files, w, b.rel);
      SharersDistinct(files, w);
      var s := Sharers(files, w);
      BothReached(s, a.rel, b.rel);
      HasWindow(files, i, w);
      HasWindow(files, j, w);
    }
  }

  lemma {:induction false} HasWindow(files: seq<File>, i: nat, w: Window)
    requires DistinctFiles(files) && i < |files|
    ensures files[i].rel in Sharers(files, w) <==> w in files[i].windows
  {
    SharersAre(files, w, files[i].rel);
  }

  lemma {:induction false} BothReached(s: seq<string>, a: string, b: string)
    requires Distinct(s) && Less(a, b)
    ensures Reached(s, |s|, 0, (a, b)) <==> a in s && b in s
    ensures a in s && b in s ==> |s| >= 2
  {
    LessTrichotomy(a, b);
    if a in s && b in s {
      var x :| 0 <= x < |s| && s[x] == a;
      var y :| 0 <= y < |s| && s[y] == b;
      LessTrichotomy(s[x], s[y]);
      if x < y {
        assert Ordered(s[x], s[y]) == (a, b);
      } else {
        assert Ordered(s[y], s[x]) == (a, b);
      }
    }
  }

  ghost predicate Owned(files: seq<File>, key: (string, string)) {
    exists i, j :: 0 <= i < |files| && 0 <= j < |files| && files[i].rel == key.0 && files[j].rel == key.1
  }

  /** No pair is counted in the other orientation, with itself, or without two owning files. */
  lemma {:induction false} CountedIsOriented(files: seq<File>, key: (string, string), w: Window)
    requires DistinctFiles(files)
    requires w in Counted(Index(files), AllWindows(files), key)
    ensures Less(key.0, key.1)
    ensures Owned(files, key)
  {
    var s := Sharers(files, w);
    SharersDistinct(files, w);
    var a, b :| 0 <= a < b < |s| && key == Ordered(s[a], s[b]);
    LessTrichotomy(s[a], s[b]);
    SharersAre(files, w, s[a]);
    SharersAre(files, w, s[b]);
  }

  /** Main result: the reported pairs are exactly the pairs of files, in name order, whose
      direct comparison shares more than 40 windows, with that count. */
  ghost predicate IsCensus(files: seq<File>, census: Census) {
    && (forall i, j :: 0 <= i < |files| && 0 <= j < |files| && Less(files[i].rel, files[j].rel) ==>
          var key := (files[i].rel, files[j].rel);
          var direct := |Common(files, files[i], files[j])|;
          && (key in census.pairs <==> direct > PAIR_THRESHOLD)
          && (key in census.pairs ==> census.pairs[key] == direct))
    && (forall key :: key in census.pairs ==>
          Less(key.0, key.1) && Owned(files, key))
    && census.shared == Sum(census.pairs)
  }

  lemma {:induction false} IndexedIsDirect(files: seq<File>, i: nat, j: nat)
    requires DistinctFiles(files) && i < |files| && j < |files| && Less(files[i].rel, files[j].rel)
    ensures Indexed(files, (files[i].rel, files[j].rel)) == |Common(files, files[i], files[j])|
  {
    hide Counted, Common, Index, Less, DistinctFiles;
    CountedIsCommon(files, i, j);
  }

  lemma {:induction false} IndexedIsOwned(files: seq<File>, key: (string, string))
    requires DistinctFiles(files) && Indexed(files, key) > 0
    ensures Less(key.0, key.1) && Owned(files, key)
  {
    hide Counted, Index, Less, DistinctFiles;
    var w :| w in Counted(Index(files), AllWindows(files), key);
    CountedIsOriented(files, key, w);
  }

  method DupCensus(files: seq<File>) returns (census: Census)
    requires DistinctFiles(files)
    ensures IsCensus(files, census)
  {
    hide Indexed, Common, Less, Owned, DistinctFiles;
    census := CollectDupCensus(files);
    forall i, j | 0 <= i < |files| && 0 <= j < |files| && Less(files[i].rel, files[j].rel)
      ensures Indexed(files, (files[i].rel, files[j].rel)) == |Common(files, files[i], files[j])|
    {
      IndexedIsDirect(files, i, j);
    }
    forall key | key in census.pairs
      ensures Less(key.0, key.1) && Owned(files, key)
    {
      IndexedIsOwned(files, key);
    }
  }

  // ----- From texts to windows -----

  /** A file with its normalized lines. */
  datatype Source = Source(rel: string, lines: seq<string>)

  /** The files that have a window at all. */
  function FilesOf(sources: seq<Source>): seq<File> {
    if sources == [] then []
    else
      var last := sources[|sources| - 1];
      FilesOf(sources[..|sources| - 1])
      + if WindowsOf(last.lines) != {} then [File(last.rel, WindowsOf(last.lines))] else []
  }

  lemma {:induction false} FilesAre(sources: seq<Source>, file: File)
    ensures file in FilesOf(sources) <==>
            exists k :: 0 <= k < |sources| && sources[k].rel == file.rel
              && WindowsOf(sources[k].lines) == file.windows != {}
  {
    hide WindowsOf;
    if sources != [] {
      var n := |sources| - 1;
      FilesAre(sources[..n], file);
      if k :| 0 <= k < n && sources[k].rel == file.rel && WindowsOf(sources[k].lines) == file.windows != {} {
        assert sources[..n][k] == sources[k];
      }
    }
  }

  lemma {:induction false} FilesDistinct(sources: seq<Source>)
    requires forall i, j :: 0 <= i < j < |sources| ==> sources[i].rel != sources[j].rel
    ensures DistinctFiles(FilesOf(sources))
  {
    hide WindowsOf;
    if sources != [] {
      var n := |sources| - 1;
      FilesDistinct(sources[..n]);
      var front := FilesOf(sources[..n]);
      forall i | 0 <= i < |front|
        ensures front[i].rel != sources[n].rel
      {
        FilesAre(sources[..n], front[i]);
      }
    }
  }

  /** `_collect_dup_census` on the texts of a tree, listed once each. */
  method CensusOf(sources: seq<Source>) returns (census: Census)
    requires forall i, j :: 0 <= i < j < |sources| ==> sources[i].rel != sources[j].rel
    ensures IsCensus(FilesOf(sources), census)
  {
    hide IsCensus, WindowsOf, DistinctFiles;
    var files: seq<File> := [];
    for i := 0 to |sources|
      invariant files == FilesOf(sources[..i])
    {
      assert sources[..i + 1][..i] == sources[..i];
      var windows := WindowsOf(sources[i].lines);
      if windows != {} {
        files := files + [File(sources[i].rel, windows)];
      }
    }
    assert sources[..|sources|] == sources;
    FilesDistinct(sources);
    census := DupCensus(files);
  }

  /** The windows of a file: ten consecutive lines, from every place where ten are left. */
  lemma {:induction false} WindowsAre(lines: seq<string>, w: Window)
    ensures w in WindowsOf(lines) <==> exists i :: StandsAt(lines, w, i)
  {
    if w in WindowsOf(lines) {
      var i :| 0 <= i < |lines| - WINDOW_LINES + 1 && w == WindowAt(lines, i);
      assert StandsAt(lines, w, i);
    }
    if i :| StandsAt(lines, w, i) {
      assert w == WindowAt(lines, i);
    }
  }

  ghost predicate StandsAt(lines: seq<string>, w: Window, i: int) {
    |w| == 10 && 0 <= i && i + 10 <= |lines| && forall j :: 0 <= j < 10 ==> w[j] == lines[i + j]
  }

  /** The files that hold window `w`. */
  ghost function Holders(files: seq<File>, w: Window): set<nat> {
    set k | 0 <= k < |files| && w in files[k].windows
  }

  lemma {:induction false} SharersCount(files: seq<File>, w: Window)
    ensures |Sharers(files, w)| == |Holders(files, w)|
  {
    if files == [] {
      assert Holders(files, w) == {};
    } else {
      var n := |files| - 1;
      SharersCount(files[..n], w);
      if w in files[n].windows {
        assert Holders(files, w) == Holders(files[..n], w) + {n};
      } else {
        assert Holders(files, w) == Holders(files[..n], w);
      }
    }
  }

  /** What the census says of two files: they are reported if and only if more than 40 windows stand in both of them
      and in at most 16 files altogether, with the number of such windows. */
  lemma {:induction false} PairExactly(files: seq<File>, census: Census, i: nat, j: nat)
    requires DistinctFiles(files) && IsCensus(files, census)
    requires i < |files| && j < |files| && Less(files[i].rel, files[j].rel)
    ensures var key := (files[i].rel, files[j].rel);
            var both := set w | w in files[i].windows && w in files[j].windows && |Holders(files, w)| <= 16;
            && (key in census.pairs <==> |both| > 40)
            && (key in census.pairs ==> census.pairs[key] == |both|)
  {
    hide Less, Owned, Holders;
    var both := set w | w in files[i].windows && w in files[j].windows && |Holders(files, w)| <= 16;
    forall w
      ensures w in both <==> w in Common(files, files[i], files[j])
    {
      SharersCount(files, w);
    }
    assert both == Common(files, files[i], files[j]);
  }
}
