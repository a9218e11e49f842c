/** What an accepted manifest makes of the tree and of the resource file, path by path and line by line. */
module IconTrees {
  import opened IconApply

  // ----- The tree -----

  /** A move among the first `n` rows lands on `p`, and no later one of them takes `p` away. */
  ghost predicate Arrives(rows: seq<Row>, n: nat, p: string)
    requires n <= |rows|
  {
    exists i :: 0 <= i < n && ArrivesBy(rows, i, n, p)
  }

  predicate ArrivesBy(rows: seq<Row>, i: nat, n: nat, p: string)
    requires i < n <= |rows|
  {
    rows[i].moves && rows[i].target == p && forall j :: i < j < n ==> rows[j].oldPath != p
  }

  /** `p` was there before, and none of the first `n` rows is about it. */
  predicate StaysPut(files: Files, rows: seq<Row>, n: nat, p: string)
    requires n <= |rows|
  {
    p in files && forall j :: 0 <= j < n ==> rows[j].oldPath != p
  }

  lemma {:induction false} ArrivesStep(rows: seq<Row>, n: nat, p: string)
    requires n < |rows|
    ensures Arrives(rows, n + 1, p) <==>
            (rows[n].moves && rows[n].target == p) || (Arrives(rows, n, p) && rows[n].oldPath != p)
  {
    if Arrives(rows, n, p) && rows[n].oldPath != p {
      var i :| 0 <= i < n && ArrivesBy(rows, i, n, p);
      assert ArrivesBy(rows, i, n + 1, p);
    }
    if rows[n].moves && rows[n].target == p {
      assert ArrivesBy(rows, n, n + 1, p);
    }
    if Arrives(rows, n + 1, p) {
      var i :| 0 <= i < n + 1 && ArrivesBy(rows, i, n + 1, p);
      if i < n {
        assert rows[n].oldPath != p;
        assert ArrivesBy(rows, i, n, p);
      }
    }
  }

  lemma {:induction false} NamesAfter(files: Files, rows: seq<Row>, n: nat, p: string)
    requires Sound(rows) && Verdict(files, rows) == Applied && n <= |rows|
    ensures p in After(files, rows, n) <==> Arrives(rows, n, p) || StaysPut(files, rows, n, p)
    decreases n
  {
    hide After, Verdict, Arrives, Sound;
    if n == 0 {
      AfterNothing(files, rows);
      NoArrival(rows, p);
    } else {
      NamesAfter(files, rows, n - 1, p);
      AfterStep(files, rows, n - 1);
      SourcesRemain(files, rows, n - 1, n - 1);
      ArrivesStep(rows, n - 1, p);
    }
  }

  lemma {:induction false} NoArrival(rows: seq<Row>, p: string)
    ensures !Arrives(rows, 0, p)
  {
  }

  /** Main result on the tree: an accepted manifest leaves the placeholder, what was moved and not taken away again,
      and the files that no row is about. */
  lemma {:induction false} TreeExactly(files: Files, rows: seq<Row>, p: string)
    requires Sound(rows) && Verdict(files, rows) == Applied
    ensures p in Migrated(files, rows)
            <==> p == PLACEHOLDER || Arrives(rows, |rows|, p) || (p in files && p !in OldPaths(rows))
  {
    hide After, Verdict, Arrives, Sound;
    NamesAfter(files, rows, |rows|, p);
  }

  /** The bytes of the file that stands at `p` before row `n`. */
  ghost predicate HoldsBytes(files: Files, rows: seq<Row>, n: nat, p: string, bytes: string)
    requires n <= |rows|
  {
    if Arrives(rows, n, p) then exists i :: 0 <= i < n && ArrivesBy(rows, i, n, p) && rows[i].content == bytes
    else StaysPut(files, rows, n, p) && files[p] == bytes
  }

  lemma {:induction false} BytesAfter(files: Files, rows: seq<Row>, n: nat, p: string)
    requires Sound(rows) && Verdict(files, rows) == Applied && NoOverwrite(rows) && n <= |rows|
    ensures p in After(files, rows, n) ==> HoldsBytes(files, rows, n, p, After(files, rows, n)[p])
    decreases n
  {
    hide After, Verdict, Arrives, Sound, NoOverwrite;
    NamesAfter(files, rows, n, p);
    if n == 0 {
      AfterNothing(files, rows);
      NoArrival(rows, p);
    } else if p in After(files, rows, n) {
      var row := rows[n - 1];
      BytesAfter(files, rows, n - 1, p);
      AfterStep(files, rows, n - 1);
      SourcesRemain(files, rows, n - 1, n - 1);
      SourcesKeep(files, rows, n - 1, n - 1);
      ArrivesStep(rows, n - 1, p);
      if row.moves && row.target == p {
        assert ArrivesBy(rows, n - 1, n, p);
      } else {
        StillArrives(files, rows, n, p, After(files, rows, n)[p]);
      }
    }
  }

  lemma {:induction false} StillArrives(files: Files, rows: seq<Row>, n: nat, p: string, bytes: string)
    requires 0 < n <= |rows| && HoldsBytes(files, rows, n - 1, p, bytes)
    requires rows[n - 1].oldPath != p && !(rows[n - 1].moves && rows[n - 1].target == p)
    ensures HoldsBytes(files, rows, n, p, bytes)
  {
    hide Arrives;
    ArrivesStep(rows, n - 1, p);
    if Arrives(rows, n - 1, p) {
      var i :| 0 <= i < n - 1 && ArrivesBy(rows, i, n - 1, p) && rows[i].content == bytes;
      assert ArrivesBy(rows, i, n, p);
    }
  }

  /** And when no move lands on a later source, a moved file has the bytes of its row, the others their own. */
  lemma {:induction false} BytesExactly(files: Files, rows: seq<Row>, p: string)
    requires Sound(rows) && Verdict(files, rows) == Applied && NoOverwrite(rows)
    requires p in Migrated(files, rows)
    ensures p == PLACEHOLDER ==> Migrated(files, rows)[p] == PLACEHOLDER_SVG
    ensures p != PLACEHOLDER ==> HoldsBytes(files, rows, |rows|, p, Migrated(files, rows)[p])
  {
    hide After, Verdict, Sound, NoOverwrite, HoldsBytes;
    BytesAfter(files, rows, |rows|, p);
  }

  // ----- The resource file -----

  /** `out` holds the lines at the places `ks`. */
  predicate At(lines: seq<string>, ks: seq<nat>, out: seq<string>) {
    && |out| == |ks|
    && forall i :: 0 <= i < |ks| ==> ks[i] < |lines| && out[i] == lines[ks[i]]
  }

  predicate Rising(ks: seq<nat>) {
    forall i, j :: 0 <= i < j < |ks| ==> ks[i] < ks[j]
  }

  lemma {:induction false} KeptStep(lines: seq<string>)
    ensures lines == [] ==> Kept(lines) == []
    ensures lines != [] ==>
              var n := |lines| - 1;
              Kept(lines) == if IsIconEntry(lines[n]) then Kept(lines[..n]) else Kept(lines[..n]) + [lines[n]]
  {
    hide IsIconEntry;
  }

  lemma {:induction false} AtMore(lines: seq<string>, ks: seq<nat>, out: seq<string>)
    requires lines != [] && At(lines[..|lines| - 1], ks, out) && Rising(ks)
    ensures At(lines, ks, out) && At(lines, ks + [|lines| - 1], out + [lines[|lines| - 1]])
    ensures Rising(ks + [|lines| - 1])
    ensures forall k: nat :: k in ks + [|lines| - 1] <==> k in ks || k == |lines| - 1
  {
  }

  /** The lines that list no icon stay, all of them and in order. */
  lemma {:induction false} KeptExactly(lines: seq<string>) returns (ks: seq<nat>)
    ensures At(lines, ks, Kept(lines)) && Rising(ks)
    ensures forall k: nat :: k in ks <==> k < |lines| && !IsIconEntry(lines[k])
  {
    hide IsIconEntry, Kept, At, Rising;
    KeptStep(lines);
    if lines == [] {
      ks := [];
      NoPlaces(lines);
    } else {
      var n := |lines| - 1;
      var front := KeptExactly(lines[..n]);
      AtMore(lines, front, Kept(lines[..n]));
      ks := if IsIconEntry(lines[n]) then front else front + [n];
    }
  }

  lemma {:induction false} NoPlaces(lines: seq<string>)
    ensures At(lines, [], []) && Rising([])
  {
  }
}
