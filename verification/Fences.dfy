/** `code-verify off` / `code-verify on` fences, and the brace-free pass as `process_file`
    runs it: reported ends that lie inside a fence are left alone. */
module Fences {
  import opened Lines
  import opened Inserts
  import opened BraceFree

  /** The fence state in which line `k` is met. */
  function Fenced(lines: seq<Line>, k: nat): bool
    requires k <= |lines|
  {
    k > 0 && (lines[k - 1].fence == Off || (lines[k - 1].fence == Neither && Fenced(lines, k - 1)))
  }

  /** A masked line: a fence line itself, or one inside a fence. */
  predicate Masked(lines: seq<Line>, k: nat)
    requires k < |lines|
  {
    lines[k].fence != Neither || Fenced(lines, k)
  }

  method ComputeFenceMask(lines: seq<Line>) returns (mask: seq<bool>)
    ensures |mask| == |lines|
    ensures forall k :: 0 <= k < |lines| ==> mask[k] == Masked(lines, k)
  {
    mask := seq(|lines|, _ => false);
    var fenced := false;
    for i := 0 to |lines|
      invariant |mask| == |lines|
      invariant fenced == Fenced(lines, i)
      invariant forall k :: 0 <= k < i ==> mask[k] == Masked(lines, k)
    {
      if lines[i].fence == Off {
        fenced := true;
        mask := mask[i := true];
      } else if lines[i].fence == On {
        fenced := false;
        mask := mask[i := true];
      } else {
        mask := mask[i := fenced];
      }
    }
  }

  ghost function Unfenced(lines: seq<Line>): set<nat> {
    set e | e in Scan(lines, 0) && e < |lines| && !Masked(lines, e)
  }

  /** The brace-free part of `process_file`: scan, drop what the mask covers, insert. */
  method BraceFreePass(lines: seq<Line>) returns (out: seq<Line>, changed: bool)
    ensures out == Insert(lines, Unfenced(lines), EMPTY)
    ensures changed <==> Unfenced(lines) != {}
  {
    var all := FindBraceFreeViolations(lines);
    var mask := ComputeFenceMask(lines);
    var kept: seq<nat> := [];
    for i := 0 to |all|
      invariant forall e :: e in kept <==> e in all[..i] && e < |mask| && !mask[e]
    {
      assert all[..i + 1] == all[..i] + [all[i]];
      if all[i] < |mask| && !mask[all[i]] {
        kept := kept + [all[i]];
      }
    }
    assert all[..|all|] == all;
    assert Elements(kept) == Unfenced(lines);
    changed := kept != [];
    assert changed ==> kept[0] in Elements(kept);
    out := ApplyBraceFreeFixes(lines, kept);
  }

  lemma {:induction false} FirstFence(lines: seq<Line>)
    ensures !Fenced(lines, 0)
  {
  }

  lemma {:induction false} FenceStep(lines: seq<Line>, k: nat)
    requires k < |lines|
    ensures Fenced(lines, k + 1) == (lines[k].fence == Off || (lines[k].fence == Neither && Fenced(lines, k)))
  {
  }

  /** Inserted blanks are no fence lines, so every old line keeps its fence state. */
  lemma {:induction false} FencedMoves(lines: seq<Line>, at: set<nat>, k: nat)
    requires k <= |lines|
    ensures Pos(at, k) <= |Insert(lines, at, EMPTY)|
    ensures Fenced(Insert(lines, at, EMPTY), Pos(at, k)) == Fenced(lines, k)
  {
    hide Insert, Pos, Fenced;
    var out := Insert(lines, at, EMPTY);
    if k == 0 {
      FirstFence(lines);
      FirstFence(out);
      PosZero(at);
    } else {
      FencedMoves(lines, at, k - 1);
      InsertAt(lines, at, EMPTY, k - 1);
      PosStep(at, k - 1);
      FenceStep(lines, k - 1);
      FenceStep(out, Pos(at, k - 1));
      if k - 1 in at { FenceStep(out, Pos(at, k - 1) + 1); }
    }
  }

  lemma {:induction false} RemainingSource(ends: seq<nat>, at: set<nat>, p: nat) returns (e: nat)
    requires p in Remaining(ends, at)
    ensures e in ends && e !in at && p == Pos(at, e)
  {
    if ends[0] !in at && p == Pos(at, ends[0]) {
      e := ends[0];
    } else {
      e := RemainingSource(ends[1..], at, p);
    }
  }

  /** One run of the pass is enough: on its own output it finds only fenced ends, so it
      changes nothing, and what it inserted can be deleted again. */
  lemma {:induction false} PassIsStable(lines: seq<Line>)
    requires AllWellFormed(lines)
    ensures var out := Insert(lines, Unfenced(lines), EMPTY);
            && Unfenced(out) == {}
            && Insert(out, Unfenced(out), EMPTY) == out
            && Delete(out, Inserted(Unfenced(lines), |lines|)) == lines
  {
    var at := Unfenced(lines);
    var out := Insert(lines, at, EMPTY);
    Rescan(lines, at);
    forall p | p in Unfenced(out)
      ensures false
    {
      var e := RemainingSource(Scan(lines, 0), at, p);
      ScanBounds(lines, 0, e);
      FencedMoves(lines, at, e);
      InsertAt(lines, at, EMPTY, e);
    }
    NothingToInsert(out, EMPTY);
    DeleteInserted(lines, at, EMPTY);
  }

  /** A line stands in a fence if and only if the last fence line before it says off. */
  lemma {:induction false} FencedExactly(lines: seq<Line>, k: nat)
    requires k <= |lines|
    ensures Fenced(lines, k) <==>
            exists j :: 0 <= j < k && lines[j].fence == Off && forall i :: j < i < k ==> lines[i].fence == Neither
  {
    if k > 0 {
      FencedExactly(lines, k - 1);
      if lines[k - 1].fence == Neither && Fenced(lines, k - 1) {
        var j :| 0 <= j < k - 1 && lines[j].fence == Off && forall i :: j < i < k - 1 ==> lines[i].fence == Neither;
        assert forall i :: j < i < k ==> lines[i].fence == Neither;
      }
    }
  }
}
