/** The apply half of the icon migration: a checked manifest is executed row by row on the icon
    tree, and every old path gets a compat alias. */
module IconApply {
  import opened Text
  import opened IconPlan
  import opened Splitting

  /** One manifest row. Paths are relative to the icon folder, contents stand for their digests. */
  datatype Row = Row(oldPath: string, target: string, moves: bool, content: string, flags: set<string>)

  type Files = map<string, string>

  datatype Outcome =
    | Applied
    | Malformed
    | Conflict
    | Collision
    | TreeDrifted
    | ContentDrifted
    | Crashed(row: nat)
    | Unlisted

  const PLACEHOLDER := "system/16/missing.svg"
  const PLACEHOLDER_SVG := "<svg placeholder/>"
  const EXEMPT := "buttons"

  // ----- The refusals -----

  predicate Flagged(rows: seq<Row>) {
    exists i :: 0 <= i < |rows| && CONFLICT in rows[i].flags
  }

  ghost predicate Collides(rows: seq<Row>) {
    exists i, j :: 0 <= i < j < |rows| && rows[i].moves && rows[j].moves && rows[i].target == rows[j].target
  }

  function OldPaths(rows: seq<Row>): set<string> {
    set i | 0 <= i < |rows| :: rows[i].oldPath
  }

  function OnDisk(files: Files): set<string> {
    set p | p in files && Top(p) != EXEMPT
  }

  ghost predicate Drifted(files: Files, rows: seq<Row>)
    requires OldPaths(rows) == OnDisk(files)
  {
    exists i :: 0 <= i < |rows| && InTree(files, rows[i].oldPath) != Some(rows[i].content)
  }

  function InTree(files: Files, path: string): Option<string> {
    if path in files then Some(files[path]) else None
  }

  /** What the checks say before anything is touched. */
  ghost function Verdict(files: Files, rows: seq<Row>): Outcome {
    if rows == [] then Malformed
    else if Flagged(rows) then Conflict
    else if Collides(rows) then Collision
    else if OnDisk(files) != OldPaths(rows) then TreeDrifted
    else if Drifted(files, rows) then ContentDrifted
    else Applied
  }

  // ----- Executing the rows -----

  /** `rename` replaces what is at the target; a dropped copy is unlinked. */
  function Step(files: Files, row: Row): Files
    requires row.oldPath in files
  {
    var rest := files - {row.oldPath};
    if row.moves then rest[row.target := files[row.oldPath]] else rest
  }

  /** The tree after `n` rows; a row whose file is gone stops the run. */
  function After(files: Files, rows: seq<Row>, n: nat): Files
    requires n <= |rows|
  {
    if n == 0 then files
    else
      var before := After(files, rows, n - 1);
      if rows[n - 1].oldPath in before then Step(before, rows[n - 1]) else before
  }

  lemma {:induction false} AfterNothing(files: Files, rows: seq<Row>)
    ensures After(files, rows, 0) == files
  {
  }

  lemma {:induction false} AfterStep(files: Files, rows: seq<Row>, n: nat)
    requires n < |rows|
    ensures var before := After(files, rows, n);
            After(files, rows, n + 1) == if rows[n].oldPath in before then Step(before, rows[n]) else before
  {
  }

  /** The tree at the end of a run that was not refused. */
  function Migrated(files: Files, rows: seq<Row>): Files {
    After(files, rows, |rows|)[PLACEHOLDER := PLACEHOLDER_SVG]
  }

  function Aliases(rows: seq<Row>): map<string, string> {
    if rows == [] then map[]
    else
      var row := rows[|rows| - 1];
      Aliases(rows[..|rows| - 1])[row.oldPath := row.target]
  }

  /** A line of `rcc.qrc` that the new entries replace. */
  predicate IsIconEntry(line: string) {
    ContainsFrom(line, "<file>icons/", 0) && !ContainsFrom(line, "<file>icons/buttons/", 0)
  }

  /** The lines that stay. */
  function Kept(lines: seq<string>): seq<string> {
    if lines == [] then []
    else
      var n := |lines| - 1;
      Kept(lines[..n]) + if IsIconEntry(lines[n]) then [] else [lines[n]]
  }

  predicate ListsIcons(lines: seq<string>) {
    exists i :: 0 <= i < |lines| && IsIconEntry(lines[i])
  }

  /** How many kept lines stand before the first icon entry: where the new entries go. */
  function InsertAt(lines: seq<string>): (at: Option<nat>)
    ensures at.Some? ==> at.value <= |Kept(lines)|
  {
    if lines == [] then None
    else
      var n := |lines| - 1;
      if InsertAt(lines[..n]).Some? then InsertAt(lines[..n])
      else if IsIconEntry(lines[n]) then Some(|Kept(lines[..n])|) else None
  }

  function PlainLine(path: string): string {
    OPEN_FILE + path + CLOSE
  }

  const OPEN_FILE := "        <file>icons/"
  const OPEN_ALIAS := "        <file alias=\"icons/"
  const MIDDLE := "\">icons/"
  const CLOSE := "</file>\n"

  function AliasLine(row: Row): string {
    OPEN_ALIAS + row.oldPath + (MIDDLE + row.target + CLOSE)
  }

  function PlainLines(paths: seq<string>): seq<string> {
    if paths == [] then [] else PlainLines(paths[..|paths| - 1]) + [PlainLine(paths[|paths| - 1])]
  }

  function AliasLines(rows: seq<Row>): seq<string> {
    if rows == [] then [] else AliasLines(rows[..|rows| - 1]) + [AliasLine(rows[|rows| - 1])]
  }

  function Targets(rows: seq<Row>): set<string> {
    set i | 0 <= i < |rows| :: rows[i].target
  }

  function PlaceRow(row: Row, sorted: seq<Row>): seq<Row> {
    if sorted == [] || !Less(sorted[0].oldPath, row.oldPath) then [row] + sorted
    else [sorted[0]] + PlaceRow(row, sorted[1..])
  }

  /** Python's stable `sorted` by old path. */
  function SortRows(rows: seq<Row>): seq<Row> {
    if rows == [] then [] else PlaceRow(rows[0], SortRows(rows[1..]))
  }

  /** The new entries: every target and the placeholder once, then one alias a row. */
  function Block(rows: seq<Row>): seq<string> {
    PlainLines(Sorted(Targets(rows) + {PLACEHOLDER})) + AliasLines(SortRows(rows))
  }

  /** The rewritten `rcc.qrc`. */
  function NewQrc(lines: seq<string>, rows: seq<Row>): seq<string> {
    match InsertAt(lines)
    case None => lines
    case Some(at) => Kept(lines)[..at] + Block(rows) + Kept(lines)[at..]
  }

  lemma {:induction false} KeptAll(lines: seq<string>)
    ensures Kept(lines) == lines <==> !ListsIcons(lines)
    ensures |Kept(lines)| <= |lines|
  {
    hide IsIconEntry;
    if lines != [] {
      var n := |lines| - 1;
      KeptAll(lines[..n]);
      assert lines == lines[..n] + [lines[n]];
      if ListsIcons(lines) && !IsIconEntry(lines[n]) {
        var i :| 0 <= i < |lines| && IsIconEntry(lines[i]);
        assert lines[..n][i] == lines[i];
        assert Kept(lines)[..|Kept(lines[..n])|] == Kept(lines[..n]);
      }
      if !ListsIcons(lines) {
        assert !IsIconEntry(lines[n]);
        assert forall i :: 0 <= i < n ==> lines[..n][i] == lines[i];
      }
    }
  }

  /** The new entries stand where the first old one stood. */
  lemma {:induction false} PlaceIsFirst(lines: seq<string>)
    ensures ListsIcons(lines) <==> InsertAt(lines).Some?
    ensures InsertAt(lines).Some? ==>
              var at := InsertAt(lines).value;
              at < |lines| && IsIconEntry(lines[at]) && Kept(lines)[..at] == lines[..at] && !ListsIcons(lines[..at])
  {
    hide IsIconEntry;
    if lines != [] {
      var n := |lines| - 1;
      var front := lines[..n];
      PlaceIsFirst(front);
      ListsStep(lines, n);
      assert lines[..|lines|] == lines;
      if InsertAt(front).Some? {
        var at := InsertAt(front).value;
        assert front[..at] == lines[..at] && Kept(lines)[..at] == Kept(front)[..at];
      } else {
        KeptAll(front);
      }
    }
  }

  method KeepLines(lines: seq<string>) returns (kept: seq<string>, insertAt: Option<nat>)
    ensures kept == Kept(lines) && insertAt == InsertAt(lines)
  {
    hide IsIconEntry;
    kept, insertAt := [], None;
    for i := 0 to |lines|
      invariant kept == Kept(lines[..i]) && insertAt == InsertAt(lines[..i])
    {
      assert lines[..i + 1][..i] == lines[..i];
      if IsIconEntry(lines[i]) {
        if insertAt.None? {
          insertAt := Some(|kept|);
        }
      } else {
        kept := kept + [lines[i]];
      }
    }
    assert lines[..|lines|] == lines;
  }

  lemma {:induction false} ListsStep(lines: seq<string>, i: nat)
    requires i < |lines|
    ensures ListsIcons(lines[..i + 1]) == (ListsIcons(lines[..i]) || IsIconEntry(lines[i]))
  {
    hide IsIconEntry;
    assert lines[..i + 1] == lines[..i] + [lines[i]];
    if ListsIcons(lines[..i]) {
      var k :| 0 <= k < i && IsIconEntry(lines[..i][k]);
      assert lines[..i + 1][k] == lines[..i][k];
    }
    if IsIconEntry(lines[i]) {
      assert lines[..i + 1][i] == lines[i];
    }
  }

  // ----- Reading the aliases back -----

  function IndexOf(s: string, c: char): (i: nat)
    ensures i <= |s|
    ensures forall k :: 0 <= k < i ==> s[k] != c
    ensures i < |s| ==> s[i] == c
  {
    if s == [] || s[0] == c then 0 else 1 + IndexOf(s[1..], c)
  }

  /** The old path and the target of an alias entry. */
  function ReadAlias(line: string): Option<(string, string)> {
    if |line| < |OPEN_ALIAS| + |CLOSE| || line[..|OPEN_ALIAS|] != OPEN_ALIAS || line[|line| - |CLOSE|..] != CLOSE then None
    else
      var rest := line[|OPEN_ALIAS|..|line| - |CLOSE|];
      var q := IndexOf(rest, '"');
      if q + |MIDDLE| <= |rest| && rest[q..q + |MIDDLE|] == MIDDLE then Some((rest[..q], rest[q + |MIDDLE|..])) else None
  }

  /** What the alias entries of a resource file say, a later one winning. */
  function ReadAliases(lines: seq<string>): map<string, string> {
    if lines == [] then map[]
    else
      var n := |lines| - 1;
      var front := ReadAliases(lines[..n]);
      var entry := ReadAlias(lines[n]);
      if entry.Some? then front[entry.value.0 := entry.value.1] else front
  }

  lemma {:induction false} Framed(open: string, rest: string, close: string)
    ensures var line := open + rest + close;
            && |line| >= |open| + |close|
            && line[..|open|] == open && line[|line| - |close|..] == close && line[|open|..|line| - |close|] == rest
  {
  }

  lemma {:induction false} FirstQuote(path: string, tail: string)
    requires '"' !in path && tail != "" && tail[0] == '"'
    ensures IndexOf(path + tail, '"') == |path|
  {
    assert (path + tail)[|path|] == '"';
  }

  lemma {:induction false} AliasReadsBack(row: Row)
    requires '"' !in row.oldPath
    ensures ReadAlias(AliasLine(row)) == Some((row.oldPath, row.target))
  {
    hide OPEN_ALIAS, CLOSE, MIDDLE, IndexOf;
    var rest := row.oldPath + (MIDDLE + row.target);
    assert AliasLine(row) == OPEN_ALIAS + rest + CLOSE;
    Framed(OPEN_ALIAS, rest, CLOSE);
    MiddleStarts();
    FirstQuote(row.oldPath, MIDDLE + row.target);
    var q := |row.oldPath|;
    assert rest[q..q + |MIDDLE|] == MIDDLE && rest[..q] == row.oldPath && rest[q + |MIDDLE|..] == row.target;
  }

  lemma {:induction false} MiddleStarts()
    ensures |MIDDLE| > 0 && MIDDLE[0] == '"'
  {
  }

  /** The path of a plain entry. */
  function ReadFile(line: string): Option<string> {
    if |line| < |OPEN_FILE| + |CLOSE| || line[..|OPEN_FILE|] != OPEN_FILE || line[|line| - |CLOSE|..] != CLOSE then None
    else Some(line[|OPEN_FILE|..|line| - |CLOSE|])
  }

  /** The files a resource file lists, in order. */
  function ReadFiles(lines: seq<string>): seq<string> {
    if lines == [] then []
    else
      var n := |lines| - 1;
      var entry := ReadFile(lines[n]);
      ReadFiles(lines[..n]) + if entry.Some? then [entry.value] else []
  }

  lemma {:induction false} OpeningsDiffer()
    ensures |OPEN_FILE| > 13 && |OPEN_ALIAS| > 13 && OPEN_FILE[13] != OPEN_ALIAS[13]
  {
  }

  lemma {:induction false} PlainReadsBack(path: string)
    ensures ReadFile(PlainLine(path)) == Some(path) && ReadAlias(PlainLine(path)) == None
  {
    hide OPEN_ALIAS, OPEN_FILE, CLOSE, MIDDLE;
    var line := PlainLine(path);
    Framed(OPEN_FILE, path, CLOSE);
    OpeningsDiffer();
    assert line[13] == OPEN_FILE[13];
    assert |line| >= |OPEN_ALIAS| ==> line[..|OPEN_ALIAS|][13] == line[13];
  }

  lemma {:induction false} AliasIsNoFile(row: Row)
    ensures ReadFile(AliasLine(row)) == None
  {
    hide OPEN_ALIAS, OPEN_FILE, CLOSE, MIDDLE;
    var line := AliasLine(row);
    OpeningsDiffer();
    assert line[13] == OPEN_ALIAS[13];
    assert |line| >= |OPEN_FILE| ==> line[..|OPEN_FILE|][13] == line[13];
  }

  lemma {:induction false} ReadAppend(xs: seq<string>, ys: seq<string>)
    ensures ReadAliases(xs + ys) == ReadAliases(xs) + ReadAliases(ys)
    ensures ReadFiles(xs + ys) == ReadFiles(xs) + ReadFiles(ys)
    decreases |ys|
  {
    hide ReadAlias, ReadFile;
    if ys == [] {
      assert xs + ys == xs;
    } else {
      var m := |ys| - 1;
      assert (xs + ys)[..|xs| + m] == xs + ys[..m];
      ReadAppend(xs, ys[..m]);
    }
  }

  lemma {:induction false} PlainLinesRead(paths: seq<string>)
    ensures ReadAliases(PlainLines(paths)) == map[]
    ensures ReadFiles(PlainLines(paths)) == paths
  {
    hide ReadAlias, ReadFile, PlainLine;
    if paths != [] {
      var n := |paths| - 1;
      PlainLinesRead(paths[..n]);
      PlainReadsBack(paths[n]);
      assert PlainLines(paths)[..|PlainLines(paths[..n])|] == PlainLines(paths[..n]);
    }
  }

  ghost predicate Quotable(rows: seq<Row>) {
    forall i :: 0 <= i < |rows| ==> '"' !in rows[i].oldPath
  }

  lemma {:induction false} AliasLinesRead(rows: seq<Row>)
    requires Quotable(rows)
    ensures ReadAliases(AliasLines(rows)) == Aliases(rows)
    ensures ReadFiles(AliasLines(rows)) == []
  {
    hide ReadAlias, ReadFile, AliasLine;
    if rows != [] {
      var n := |rows| - 1;
      AliasLinesRead(rows[..n]);
      AliasReadsBack(rows[n]);
      AliasIsNoFile(rows[n]);
      assert AliasLines(rows)[..|AliasLines(rows[..n])|] == AliasLines(rows[..n]);
    }
  }

  lemma {:induction false} AliasesCons(row: Row, rest: seq<Row>)
    ensures Aliases([row] + rest) == map[row.oldPath := row.target] + Aliases(rest)
    decreases |rest|
  {
    if rest == [] {
      assert [row] + rest == [row] && [row][..0] == [];
    } else {
      var n := |rest| - 1;
      assert ([row] + rest)[..n + 1] == [row] + rest[..n];
      AliasesCons(row, rest[..n]);
    }
  }

  lemma {:induction false} PlacedAliases(row: Row, sorted: seq<Row>)
    ensures Aliases(PlaceRow(row, sorted)) == map[row.oldPath := row.target] + Aliases(sorted)
    ensures multiset(PlaceRow(row, sorted)) == multiset{row} + multiset(sorted)
    decreases |sorted|
  {
    hide Aliases;
    if sorted == [] || !Less(sorted[0].oldPath, row.oldPath) {
      AliasesCons(row, sorted);
    } else {
      PlacedAliases(row, sorted[1..]);
      AliasesCons(sorted[0], PlaceRow(row, sorted[1..]));
      AliasesCons(sorted[0], sorted[1..]);
      assert sorted == [sorted[0]] + sorted[1..];
      LessTrichotomy(sorted[0].oldPath, row.oldPath);
    }
  }

  /** The stable sort changes no alias, even when two rows name one path. */
  lemma {:induction false} SortedAliases(rows: seq<Row>)
    ensures Aliases(SortRows(rows)) == Aliases(rows)
    ensures multiset(SortRows(rows)) == multiset(rows)
  {
    hide Aliases;
    if rows != [] {
      SortedAliases(rows[1..]);
      PlacedAliases(rows[0], SortRows(rows[1..]));
      AliasesCons(rows[0], rows[1..]);
      assert rows == [rows[0]] + rows[1..];
    }
  }

  /** Reading the rewritten file: between what the kept lines list, at the place of the first old icon entry, stand
      all targets and the placeholder, each once and in order; and it holds every alias of the manifest, on top of those
      in the lines before the block and under those in the lines behind it. */
  lemma {:induction false} QrcReadsBack(lines: seq<string>, rows: seq<Row>)
    requires ListsIcons(lines) && Quotable(rows)
    ensures exists at ::
              && 0 <= at < |lines| && IsIconEntry(lines[at]) && !ListsIcons(lines[..at])
              && at <= |Kept(lines)| && Kept(lines)[..at] == lines[..at]
              && ReadFiles(NewQrc(lines, rows))
                 == ReadFiles(lines[..at]) + Sorted(Targets(rows) + {PLACEHOLDER}) + ReadFiles(Kept(lines)[at..])
              && ReadAliases(NewQrc(lines, rows))
                 == ReadAliases(lines[..at]) + Aliases(rows) + ReadAliases(Kept(lines)[at..])
  {
    hide ListsIcons, InsertAt, Aliases, ReadAliases, ReadFiles, PlainLines, AliasLines, SortRows, Sorted, Kept, IsIconEntry;
    PlaceIsFirst(lines);
    var at := InsertAt(lines).value;
    var paths := Sorted(Targets(rows) + {PLACEHOLDER});
    var plain, aliases := PlainLines(paths), AliasLines(SortRows(rows));
    ReadAppend(Kept(lines)[..at] + Block(rows), Kept(lines)[at..]);
    ReadAppend(Kept(lines)[..at], Block(rows));
    ReadAppend(plain, aliases);
    PlainLinesRead(paths);
    SortedAliases(rows);
    SortedQuotable(rows);
    AliasLinesRead(SortRows(rows));
    assert map[] + Aliases(rows) == Aliases(rows) && paths + [] == paths;
    assert 0 <= at < |lines|;
  }

  lemma {:induction false} SortedQuotable(rows: seq<Row>)
    requires Quotable(rows)
    ensures Quotable(SortRows(rows))
  {
    hide SortRows;
    SortedAliases(rows);
    forall i | 0 <= i < |SortRows(rows)|
      ensures '"' !in SortRows(rows)[i].oldPath
    {
      assert SortRows(rows)[i] in multiset(SortRows(rows));
      assert SortRows(rows)[i] in rows;
    }
  }

  /** The icon folder, and the lines of `rcc.qrc` with their line ends. */
  class IconTree {
    var files: Files
    var qrc: seq<string>

    method Check(rows: seq<Row>) returns (outcome: Outcome)
      ensures outcome == Verdict(files, rows)
    {
      if rows == [] {
        return Malformed;
      }
      for i := 0 to |rows|
        invariant forall k :: 0 <= k < i ==> CONFLICT !in rows[k].flags
      {
        if CONFLICT in rows[i].flags {
          return Conflict;
        }
      }
      var targets: set<string> := {};
      for i := 0 to |rows|
        invariant forall t :: t in targets <==> exists k :: 0 <= k < i && rows[k].moves && rows[k].target == t
        invariant forall k, l :: 0 <= k < l < i && rows[k].moves && rows[l].moves ==> rows[k].target != rows[l].target
      {
        if rows[i].moves {
          if rows[i].target in targets {
            assert Collides(rows);
            return Collision;
          }
          targets := targets + {rows[i].target};
        }
      }
      if OnDisk(files) != OldPaths(rows) {
        return TreeDrifted;
      }
      for i := 0 to |rows|
        invariant forall k :: 0 <= k < i ==> InTree(files, rows[k].oldPath) == Some(rows[k].content)
      {
        if InTree(files, rows[i].oldPath) != Some(rows[i].content) {
          return ContentDrifted;
        }
      }
      return Applied;
    }

    /** The rename-or-unlink loop. */
    method Execute(rows: seq<Row>) returns (stopped: Option<nat>)
      modifies this`files
      ensures stopped.None? ==> files == After(old(files), rows, |rows|)
      ensures stopped.None? ==> forall k :: 0 <= k < |rows| ==> rows[k].oldPath in After(old(files), rows, k)
      ensures stopped.Some? ==>
                && stopped.value < |rows| && files == After(old(files), rows, stopped.value)
                && rows[stopped.value].oldPath !in files
    {
      hide After, Top;
      AfterNothing(files, rows);
      for i := 0 to |rows|
        invariant files == After(old(files), rows, i)
        invariant forall k :: 0 <= k < i ==> rows[k].oldPath in After(old(files), rows, k)
      {
        AfterStep(old(files), rows, i);
        var row := rows[i];
        if row.oldPath !in files {
          return Some(i);
        }
        if row.moves {
          var bytes := files[row.oldPath];
          files := files - {row.oldPath};
          files := files[row.target := bytes];
        } else {
          files := files - {row.oldPath};
        }
      }
      return None;
    }

    /** `rewrite_qrc`: without an icon entry to replace it refuses. */
    method RewriteQrc(rows: seq<Row>) returns (listed: bool)
      modifies this`qrc
      ensures listed == ListsIcons(old(qrc))
      ensures qrc == NewQrc(old(qrc), rows)
    {
      hide InsertAt, Kept, ListsIcons, Sorted, SortRows, PlainLine, AliasLine;
      PlaceIsFirst(qrc);
      var kept, insertAt := KeepLines(qrc);
      if insertAt.None? {
        return false;
      }
      var at := insertAt.value;
      var paths := Sorted((set i | 0 <= i < |rows| :: rows[i].target) + {PLACEHOLDER});
      var block := PlainEntries(paths);
      var aliases := AliasEntries(SortRows(rows));
      assert kept[..at] + (block + aliases) + kept[at..] == NewQrc(qrc, rows);
      qrc := kept[..at] + (block + aliases) + kept[at..];
      return true;
    }

    method PlainEntries(paths: seq<string>) returns (block: seq<string>)
      ensures block == PlainLines(paths)
    {
      hide PlainLine;
      block := [];
      for i := 0 to |paths|
        invariant block == PlainLines(paths[..i])
      {
        assert paths[..i + 1][..i] == paths[..i];
        block := block + [PlainLine(paths[i])];
      }
      assert paths[..|paths|] == paths;
    }

    method AliasEntries(rows: seq<Row>) returns (block: seq<string>)
      ensures block == AliasLines(rows)
    {
      hide AliasLine;
      block := [];
      for i := 0 to |rows|
        invariant block == AliasLines(rows[..i])
      {
        assert rows[..i + 1][..i] == rows[..i];
        block := block + [AliasLine(rows[i])];
      }
      assert rows[..|rows|] == rows;
    }

    /** `apply_manifest`. A refusal of the manifest touches nothing; the last refusal, of an `rcc.qrc` that
        lists no icon, comes when the files have already been moved. */
    method Apply(rows: seq<Row>) returns (outcome: Outcome)
      modifies this
      ensures Verdict(old(files), rows) != Applied ==>
                outcome == Verdict(old(files), rows) && files == old(files) && qrc == old(qrc)
      ensures outcome.Crashed? ==>
                && outcome.row < |rows|
                && files == After(old(files), rows, outcome.row) && qrc == old(qrc)
                && rows[outcome.row].oldPath !in files
      ensures Verdict(old(files), rows) == Applied && !outcome.Crashed? ==>
                && (forall k :: 0 <= k < |rows| ==> rows[k].oldPath in After(old(files), rows, k))
                && files == Migrated(old(files), rows)
                && qrc == NewQrc(old(qrc), rows)
                && outcome == (if ListsIcons(old(qrc)) then Applied else Unlisted)
                && (outcome == Unlisted ==> qrc == old(qrc))
    {
      hide After, Verdict, ListsIcons, Kept, InsertAt, Block;
      PlaceIsFirst(qrc);
      outcome := Check(rows);
      VerdictKinds(files, rows);
      if outcome != Applied {
        return;
      }
      var stopped := Execute(rows);
      if stopped.Some? {
        return Crashed(stopped.value);
      }
      files := files[PLACEHOLDER := PLACEHOLDER_SVG];
      var listed := RewriteQrc(rows);
      outcome := if listed then Applied else Unlisted;
    }
  }

  lemma {:induction false} VerdictKinds(files: Files, rows: seq<Row>)
    ensures !Verdict(files, rows).Crashed? && Verdict(files, rows) != Unlisted
  {
  }

  // ----- What a migration keeps -----

  /** What the audit writes: one row per file, and for each dropped copy a kept twin. */
  ghost predicate Sound(rows: seq<Row>) {
    && (forall i, j :: 0 <= i < j < |rows| ==> rows[i].oldPath != rows[j].oldPath)
    && (forall i :: 0 <= i < |rows| && !rows[i].moves ==> HasTwin(rows, i))
    && (forall i :: 0 <= i < |rows| ==> rows[i].target != PLACEHOLDER)
  }

  ghost predicate HasTwin(rows: seq<Row>, i: nat)
    requires i < |rows|
  {
    exists t :: 0 <= t < |rows| && rows[t].moves && rows[t].target == rows[i].target && rows[t].content == rows[i].content
  }

  /** No move lands on a file that a later row still has to take away. */
  predicate NoOverwrite(rows: seq<Row>) {
    forall i, j :: 0 <= i < j < |rows| && rows[i].moves ==> rows[i].target != rows[j].oldPath
  }

  /** An old path followed through its alias. */
  function Resolve(files: Files, alias: map<string, string>, path: string): Option<string> {
    if path in alias then InTree(files, alias[path]) else None
  }

  /** An accepted manifest never stops half-way. */
  lemma {:induction false} SourcesRemain(files: Files, rows: seq<Row>, n: nat, j: nat)
    requires Sound(rows) && Verdict(files, rows) == Applied
    requires n <= j < |rows|
    ensures rows[j].oldPath in After(files, rows, n)
  {
    if n == 0 {
      assert rows[j].oldPath in OldPaths(rows);
    } else {
      SourcesRemain(files, rows, n - 1, j);
    }
  }

  lemma {:induction false} SourcesKeep(files: Files, rows: seq<Row>, n: nat, j: nat)
    requires Sound(rows) && Verdict(files, rows) == Applied && NoOverwrite(rows)
    requires n <= j < |rows|
    ensures InTree(After(files, rows, n), rows[j].oldPath) == Some(rows[j].content)
  {
    if n > 0 {
      SourcesKeep(files, rows, n - 1, j);
    }
  }

  lemma {:induction false} TargetsKeep(files: Files, rows: seq<Row>, n: nat, i: nat)
    requires Sound(rows) && Verdict(files, rows) == Applied && NoOverwrite(rows)
    requires i < n <= |rows| && rows[i].moves
    ensures InTree(After(files, rows, n), rows[i].target) == Some(rows[i].content)
  {
    if i == n - 1 {
      SourcesKeep(files, rows, i, i);
    } else {
      TargetsKeep(files, rows, n - 1, i);
    }
  }

  /** A target that was a later source is gone for good. */
  lemma {:induction false} OverwrittenIsLost(files: Files, rows: seq<Row>, i: nat, j: nat, n: nat)
    requires Sound(rows) && Verdict(files, rows) == Applied
    requires i < j < n <= |rows| && rows[i].moves && rows[i].target == rows[j].oldPath
    ensures rows[i].target !in After(files, rows, n)
    decreases n
  {
    if n > j + 1 {
      OverwrittenIsLost(files, rows, i, j, n - 1);
    } else {
      SourcesRemain(files, rows, j, j);
    }
  }

  lemma {:induction false} AliasOf(rows: seq<Row>, i: nat)
    requires i < |rows|
    requires forall i, j :: 0 <= i < j < |rows| ==> rows[i].oldPath != rows[j].oldPath
    ensures rows[i].oldPath in Aliases(rows) && Aliases(rows)[rows[i].oldPath] == rows[i].target
  {
    if i < |rows| - 1 {
      AliasOf(rows[..|rows| - 1], i);
    }
  }

  lemma {:induction false} RowResolves(files: Files, rows: seq<Row>, i: nat)
    requires Sound(rows) && Verdict(files, rows) == Applied && NoOverwrite(rows) && i < |rows|
    ensures Resolve(Migrated(files, rows), Aliases(rows), rows[i].oldPath) == Some(rows[i].content)
  {
    hide After, Verdict, NoOverwrite, Aliases;
    AliasOf(rows, i);
    if rows[i].moves {
      TargetsKeep(files, rows, |rows|, i);
    } else {
      assert HasTwin(rows, i);
      var t :| 0 <= t < |rows| && rows[t].moves && rows[t].target == rows[i].target && rows[t].content == rows[i].content;
      TargetsKeep(files, rows, |rows|, t);
    }
  }

  lemma {:induction false} AcceptedRows(files: Files, rows: seq<Row>, i: nat)
    requires Verdict(files, rows) == Applied && i < |rows|
    ensures OnDisk(files) == OldPaths(rows) && rows[i].oldPath in OnDisk(files)
    ensures Some(files[rows[i].oldPath]) == Some(rows[i].content)
  {
    hide Top;
    assert rows[i].oldPath in OldPaths(rows);
    assert InTree(files, rows[i].oldPath) == Some(rows[i].content);
  }

  /** Every pre-migration path, resolved through its alias, yields its original bytes exactly when no
      move lands on a file that a later row still has to take away. */
  lemma {:induction false} AliasesPreserve(files: Files, rows: seq<Row>)
    requires Sound(rows) && Verdict(files, rows) == Applied
    ensures (forall p :: p in OnDisk(files) ==>
               Resolve(Migrated(files, rows), Aliases(rows), p) == Some(files[p]))
            <==> NoOverwrite(rows)
  {
    hide After, Aliases, OnDisk;
    var end := Migrated(files, rows);
    if NoOverwrite(rows) {
      forall p | p in OnDisk(files)
        ensures Resolve(end, Aliases(rows), p) == Some(files[p])
      {
        assert p in OldPaths(rows);
        var i :| 0 <= i < |rows| && rows[i].oldPath == p;
        AcceptedRows(files, rows, i);
        RowResolves(files, rows, i);
      }
    } else {
      var i, j :| 0 <= i < j < |rows| && rows[i].moves && rows[i].target == rows[j].oldPath;
      OverwrittenIsLost(files, rows, i, j, |rows|);
      AliasOf(rows, i);
      AcceptedRows(files, rows, i);
      assert Resolve(end, Aliases(rows), rows[i].oldPath) == None;
    }
  }

  /** Two files whose rows swap places: every check passes, and one file is lost. */
  lemma {:induction false} SwapLosesAFile(a: string, b: string, x: string, y: string)
    requires a != b && a != PLACEHOLDER && b != PLACEHOLDER && Top(a) != EXEMPT && Top(b) != EXEMPT
    ensures var files := map[a := x, b := y];
            var rows := [Row(a, b, true, x, {}), Row(b, a, true, y, {})];
            && Sound(rows) && Verdict(files, rows) == Applied
            && Migrated(files, rows) == map[a := x, PLACEHOLDER := PLACEHOLDER_SVG]
  {
    hide Top, After;
    var files: Files := map[a := x, b := y];
    var one, two := Row(a, b, true, x, {}), Row(b, a, true, y, {});
    var rows := [one, two];
    assert rows[0] == one && rows[1] == two;
    assert OldPaths(rows) == {a, b} == OnDisk(files);
    AfterNothing(files, rows);
    AfterStep(files, rows, 0);
    AfterStep(files, rows, 1);
    assert Step(files, one) == map[b := x];
    assert Step(map[b := x], two) == map[a := x];
  }

  // ----- From the audit to the apply run -----

  /** The icons of a fresh scan of the tree. */
  ghost predicate Scan(files: Files, icons: seq<Icon>) {
    && icons != []
    && (forall i :: 0 <= i < |icons| ==> FreshIcon(icons[i]))
    && (forall i, j :: 0 <= i < j < |icons| ==> icons[i].rel != icons[j].rel)
    && (forall i :: 0 <= i < |icons| ==> icons[i].rel in OnDisk(files) && files[icons[i].rel] == icons[i].md5)
    && (forall p :: p in OnDisk(files) ==> exists i :: 0 <= i < |icons| && icons[i].rel == p)
  }

  predicate FreshIcon(icon: Icon) {
    !icon.dropped && CONFLICT !in icon.flags && icon.category in CATEGORY_PRIORITY
  }

  ghost function RowOf(icons: seq<Icon>, i: nat): Row
    requires i < |icons| && HaveTwins(DedupedAll(icons))
  {
    var icon := Assigned(DedupedAll(icons), i);
    Row(icon.rel, icon.target, !icon.dropped, icon.md5, icon.flags)
  }

  /** The manifest lists every planned icon once, in some order. */
  ghost predicate Manifest(icons: seq<Icon>, order: seq<nat>, rows: seq<Row>) {
    && HaveTwins(DedupedAll(icons))
    && |order| == |rows| && Indices(order, |icons|) && Distinct(order)
    && (forall i: nat :: i < |icons| ==> i in order)
    && (forall k :: 0 <= k < |rows| ==> rows[k] == RowOf(icons, order[k]))
  }

  lemma {:induction false} CategoryIsFolder(c: string)
    requires c in CATEGORY_PRIORITY
    ensures '/' !in c && c != "system"
  {
  }

  /** Where a planned row comes from. */
  lemma {:induction false} RowFacts(files: Files, icons: seq<Icon>, i: nat)
    requires Scan(files, icons) && i < |icons| && HaveTwins(DedupedAll(icons))
    ensures var row, c := RowOf(icons, i), CanonicalOf(icons, i);
            && row.oldPath == icons[i].rel && row.content == icons[i].md5
            && row.target == RowOf(icons, c).target && row.content == RowOf(icons, c).content
            && RowOf(icons, c).moves && (row.moves <==> i == c)
    ensures exists c, t, n :: c in CATEGORY_PRIORITY && t in TIERS && RowOf(icons, i).target == TargetPath(c, t, n)
  {
    hide Canonical, SlotOf, TargetPath;
    var d, c := DedupedAll(icons), CanonicalOf(icons, i);
    OneKeptPerContent(icons, i, i);
    OneKeptPerContent(icons, i, c);
    assert d[c] == icons[c] && CanonicalOf(icons, c) == c;
    SlotTier(d, c);
    assert RowOf(icons, c).target == TargetPath(d[c].category, SlotOf(d, c).tier, d[c].norm);
  }

  /** An audited manifest is well formed: one row per file, a kept twin for every dropped copy, no row on the
      placeholder; and unless a row is flagged for review no two moves collide. */
  lemma {:induction false} AuditIsSound(files: Files, icons: seq<Icon>, order: seq<nat>, rows: seq<Row>)
    requires Scan(files, icons) && Manifest(icons, order, rows)
    ensures Sound(rows) && (Flagged(rows) || !Collides(rows))
  {
    hide Scan, Canonical, Assigned, RowOf, TargetPath;
    forall k | 0 <= k < |rows|
      ensures rows[k].oldPath == icons[order[k]].rel
      ensures rows[k].moves || HasTwin(rows, k)
      ensures rows[k].target != PLACEHOLDER
    {
      RowFacts(files, icons, order[k]);
      var t := Position(order, CanonicalOf(icons, order[k]));
      assert rows[t] == RowOf(icons, CanonicalOf(icons, order[k]));
      NotPlaceholder(icons, order[k]);
    }
    forall j, k | 0 <= j < k < |rows|
      ensures rows[j].oldPath != rows[k].oldPath
      ensures Flagged(rows) || !rows[j].moves || !rows[k].moves || rows[j].target != rows[k].target
    {
      assert order[j] != order[k];
      ScanDistinct(files, icons, order[j], order[k]);
      if !Flagged(rows) && rows[j].moves && rows[k].moves {
        assert CONFLICT !in rows[j].flags && CONFLICT !in rows[k].flags;
        KeptRowsDiffer(files, icons, order[j], order[k]);
      }
    }
  }

  lemma {:induction false} ScanDistinct(files: Files, icons: seq<Icon>, i: nat, j: nat)
    requires Scan(files, icons) && i < |icons| && j < |icons| && i != j
    ensures icons[i].rel != icons[j].rel
  {
  }

  lemma {:induction false} KeptRowsDiffer(files: Files, icons: seq<Icon>, i: nat, j: nat)
    requires Scan(files, icons) && HaveTwins(DedupedAll(icons))
    requires i < |icons| && j < |icons| && i != j
    requires RowOf(icons, i).moves && RowOf(icons, j).moves
    requires CONFLICT !in RowOf(icons, i).flags && CONFLICT !in RowOf(icons, j).flags
    ensures RowOf(icons, i).target != RowOf(icons, j).target
  {
    hide Canonical, SlotOf, TargetPath;
    var d := DedupedAll(icons);
    assert !d[i].dropped && !d[j].dropped;
    assert d[i] == icons[i] && d[j] == icons[j];
    CategoryIsFolder(d[i].category);
    CategoryIsFolder(d[j].category);
    TargetsDiffer(d, i, j);
  }

  lemma {:induction false} NotSystem(c: string, t: nat, n: string)
    requires '/' !in c && c != "system"
    ensures TargetPath(c, t, n) != PLACEHOLDER
  {
    var tail := TierName(t) + ['/'] + (n + ".svg");
    if c + ['/'] + tail == "system" + ['/'] + "16/missing.svg" {
      PathsInject(c, tail, "system", "16/missing.svg");
    }
  }

  lemma {:induction false} NotPlaceholder(icons: seq<Icon>, i: nat)
    requires i < |icons| && HaveTwins(DedupedAll(icons))
    requires exists c, t, n :: c in CATEGORY_PRIORITY && t in TIERS && RowOf(icons, i).target == TargetPath(c, t, n)
    ensures RowOf(icons, i).target != PLACEHOLDER
  {
    hide Assigned, RowOf, TargetPath;
    var c, t, n :| c in CATEGORY_PRIORITY && t in TIERS && RowOf(icons, i).target == TargetPath(c, t, n);
    CategoryIsFolder(c);
    NotSystem(c, t, n);
  }

  /** A manifest audited on this very tree is refused only for its flags; without flags every old path keeps
      its bytes exactly when no move lands on a later source. */
  lemma {:induction false} MigrationKeepsEveryIcon(files: Files, icons: seq<Icon>, order: seq<nat>, rows: seq<Row>)
    requires Scan(files, icons) && Manifest(icons, order, rows)
    ensures Verdict(files, rows) == if Flagged(rows) then Conflict else Applied
    ensures !Flagged(rows) ==>
              ((forall p :: p in OnDisk(files) ==>
                  Resolve(Migrated(files, rows), Aliases(rows), p) == Some(files[p]))
               <==> NoOverwrite(rows))
  {
    hide Canonical, Assigned, RowOf, TargetPath, Migrated, Flagged;
    AuditIsSound(files, icons, order, rows);
    forall k | 0 <= k < |rows|
      ensures rows[k].oldPath in OnDisk(files) && InTree(files, rows[k].oldPath) == Some(rows[k].content)
    {
      RowFacts(files, icons, order[k]);
    }
    assert OnDisk(files) <= OldPaths(rows) by {
      forall p | p in OnDisk(files)
        ensures p in OldPaths(rows)
      {
        var i :| 0 <= i < |icons| && icons[i].rel == p;
        var k := Position(order, i);
        RowFacts(files, icons, i);
        assert rows[k] == RowOf(icons, order[k]);
      }
    }
    assert OldPaths(rows) == OnDisk(files);
    assert 0 in order;
    if !Flagged(rows) {
      AliasesPreserve(files, rows);
    }
  }

  // ----- A swap the audit itself writes -----

  lemma {:induction false} TargetTop(c: string, t: nat, n: string)
    requires '/' !in c
    ensures Top(TargetPath(c, t, n)) == c
  {
    SplitAt(c, TierName(t) + ['/'] + (n + ".svg"), '/');
    SplitWord(c, '/');
  }

  /** A scanned device icon named `a`. */
  function Device(rel: string, md5: string, width: real): Icon {
    Icon(rel, "a", md5, width, "devices", "a", 0, 0, false, "", {})
  }

  const NARROW := TargetPath("devices", 16, "a")
  const WIDE := TargetPath("devices", 24, "a")

  lemma {:induction false} SwapPaths()
    ensures NARROW != WIDE && Top(NARROW) == "devices" && Top(WIDE) == "devices"
    ensures NARROW != PLACEHOLDER && WIDE != PLACEHOLDER
    ensures '/' !in "devices" && "devices" in CATEGORY_PRIORITY
  {
    hide TargetPath;
    assert "devices" == CATEGORY_PRIORITY[3];
    CategoryIsFolder("devices");
    TargetTop("devices", 16, "a");
    TargetTop("devices", 24, "a");
    NotSystem("devices", 16, "a");
    NotSystem("devices", 24, "a");
    if NARROW == WIDE {
      TargetsInject("devices", 16, "a", "devices", 24, "a");
    }
  }

  /** The slots of a narrow and a wide icon of one name, none of them in a folder that pins the tier. */
  lemma {:induction false} SwapSlots(icons: seq<Icon>)
    requires |icons| == 2 && !icons[0].dropped && !icons[1].dropped && KeyOf(icons[0]) == KeyOf(icons[1])
    requires icons[0].width == 16.0 && icons[1].width == 24.0
    requires icons[0].sizeHint == 0 == icons[1].sizeHint
    requires Top(icons[0].rel) == Top(icons[1].rel) == "devices"
    requires icons[0].flags == {} == icons[1].flags
    ensures SlotOf(icons, 0) == Slot(16, false) && SlotOf(icons, 1) == Slot(24, false)
  {
    hide Top, TargetPath;
    var key := KeyOf(icons[0]);
    assert Members(icons, key, 2) == [];
    assert Members(icons, key, 1) == [1];
    assert Members(icons, key, 0) == [0, 1];
    var members := [0, 1];
    assert Members(icons, key, 0) == members;
    NothingTaken(icons, members);
    TakenStep(icons, members, 0);
    TakenStep(icons, members, 1);
    assert SlotAt(icons, members, 0) == Slot(16, false);
    assert Taken(icons, members, 1) == {16};
    SlotOfMember(icons, 0, 0);
    SlotOfMember(icons, 1, 1);
  }

  function SwapFiles(x: string, y: string): Files {
    map[WIDE := x, NARROW := y]
  }

  function SwapIcons(x: string, y: string): seq<Icon> {
    [Device(WIDE, x, 16.0), Device(NARROW, y, 24.0)]
  }

  function SwapRows(x: string, y: string): seq<Row> {
    [Row(WIDE, NARROW, true, x, {}), Row(NARROW, WIDE, true, y, {})]
  }

  lemma {:induction false} SwapScan(x: string, y: string)
    ensures Scan(SwapFiles(x, y), SwapIcons(x, y))
  {
    hide Top, TargetPath;
    SwapPaths();
    var icons := SwapIcons(x, y);
    assert icons[0].rel == WIDE && icons[1].rel == NARROW;
  }

  lemma {:induction false} SwapPlan(x: string, y: string)
    requires x != y
    ensures HaveTwins(DedupedAll(SwapIcons(x, y)))
    ensures Manifest(SwapIcons(x, y), [0, 1], SwapRows(x, y)) && !Flagged(SwapRows(x, y))
  {
    hide Top, TargetPath, SlotOf, Canonical;
    SwapPaths();
    var icons := SwapIcons(x, y);
    OneKeptPerContent(icons, 0, 0);
    assert CanonicalOf(icons, 0) == 0 && CanonicalOf(icons, 1) == 1;
    assert DedupedAll(icons) == icons;
    SwapSlots(icons);
    assert RowOf(icons, 0) == SwapRows(x, y)[0] && RowOf(icons, 1) == SwapRows(x, y)[1];
  }

  /** The narrow icon sits in folder 24 and the wide one in folder 16: the audit plans the two moves across each other
      and flags nothing, every check of the apply run passes, and the icon of width 24 is lost. */
  lemma {:induction false} AuditedSwapLosesAFile(x: string, y: string)
    requires x != y
    ensures var files, icons, rows := SwapFiles(x, y), SwapIcons(x, y), SwapRows(x, y);
            && Scan(files, icons) && Manifest(icons, [0, 1], rows) && !Flagged(rows)
            && Verdict(files, rows) == Applied
            && Migrated(files, rows) == map[WIDE := x, PLACEHOLDER := PLACEHOLDER_SVG]
            && Resolve(Migrated(files, rows), Aliases(rows), NARROW) == Some(x)
            && Resolve(Migrated(files, rows), Aliases(rows), WIDE) == None
  {
    hide Top, TargetPath, Scan, Manifest, Migrated, Verdict, Aliases;
    SwapPaths();
    SwapScan(x, y);
    SwapPlan(x, y);
    SwapLosesAFile(WIDE, NARROW, x, y);
    AliasOf(SwapRows(x, y), 0);
    AliasOf(SwapRows(x, y), 1);
  }

  /** The second folder of a path. */
  function Second(path: string): Option<string> {
    var parts := Split(path, '/');
    if |parts| > 1 then Some(parts[1]) else None
  }

  lemma {:induction false} TargetSecond(c: string, t: nat, n: string)
    requires '/' !in c && t in TIERS
    ensures Second(TargetPath(c, t, n)) == Some(TierName(t))
  {
    var tail := n + ".svg";
    SplitAt(c, TierName(t) + ['/'] + tail, '/');
    SplitAt(TierName(t), tail, '/');
    SplitWord(c, '/');
    SplitWord(TierName(t), '/');
  }

  /** A tree whose files do not already sit in tier folders is always safe to migrate. */
  lemma {:induction false} FreshTreesAreSafe(files: Files, icons: seq<Icon>, order: seq<nat>, rows: seq<Row>)
    requires Scan(files, icons) && Manifest(icons, order, rows)
    requires forall p, t :: p in OnDisk(files) && t in TIERS ==> Second(p) != Some(TierName(t))
    ensures NoOverwrite(rows)
  {
    hide Canonical, Assigned, RowOf, TargetPath, Second, TierName;
    forall i, j | 0 <= i < j < |rows| && rows[i].moves
      ensures rows[i].target != rows[j].oldPath
    {
      RowFacts(files, icons, order[i]);
      RowFacts(files, icons, order[j]);
      var c, t, n :| c in CATEGORY_PRIORITY && t in TIERS && rows[i].target == TargetPath(c, t, n);
      CategoryIsFolder(c);
      TargetSecond(c, t, n);
      assert rows[j].oldPath in OnDisk(files);
    }
  }
}
