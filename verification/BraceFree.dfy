/** The brace-free body rule: `if (x)` and its kin, whose one-statement body stands on the
    following lines, must be followed by a blank line. A scanner reports where one is
    missing, the fixer inserts it, and re-scanning what the fixer wrote finds exactly the
    places it was told to leave alone. */
module BraceFree {
  import opened Text
  import opened Lines
  import opened Inserts

  // ----- Specification -----

  predicate Skippable(line: Line) {
    line.kind == Blank || line.slashes
  }

  /** The first line from `j` on that is neither blank nor a `//` comment. */
  function BodyStart(lines: seq<Line>, j: nat): (b: nat)
    requires j <= |lines|
    ensures j <= b <= |lines|
    ensures forall k :: j <= k < b ==> Skippable(lines[k])
    ensures b < |lines| ==> !Skippable(lines[b])
    decreases |lines| - j
  {
    if j < |lines| && Skippable(lines[j]) then BodyStart(lines, j + 1) else j
  }

  /** Where the body walk that has reached `last` with bracket depth `depth` stops. */
  function Walk(lines: seq<Line>, last: nat, depth: int, indent: nat): (e: nat)
    requires last < |lines|
    ensures last <= e < |lines|
    decreases |lines| - last
  {
    if depth <= 0 && lines[last].semicolon then last
    else if last + 1 >= |lines| || lines[last + 1].kind == Blank then last
    else if depth <= 0 && !lines[last].attribute && lines[last + 1].indent <= indent then last
    else Walk(lines, last + 1, depth + lines[last + 1].brackets, indent)
  }

  /** `_find_brace_free_body_end` */
  function BodyEnd(lines: seq<Line>, control: nat): (e: Option<nat>)
    requires control < |lines|
    ensures e.Some? ==> control < e.value < |lines|
  {
    var b := BodyStart(lines, control + 1);
    if b >= |lines| || lines[b].indent <= lines[control].indent || lines[b].braced then None
    else Some(Walk(lines, b, lines[b].brackets, lines[b].indent))
  }

  /** The line behind the body is there, and is neither blank nor a natural separator. */
  predicate Flagged(lines: seq<Line>, e: nat) {
    e + 1 < |lines| && lines[e + 1].kind != Blank && !lines[e + 1].separates
  }

  /** The body ends `find_brace_free_violations` reports from line `i` on. */
  function Scan(lines: seq<Line>, i: nat): seq<nat>
    requires i <= |lines|
    decreases |lines| - i
  {
    if i == |lines| then []
    else if !lines[i].control || BodyEnd(lines, i).None? then Scan(lines, i + 1)
    else
      var e := BodyEnd(lines, i).value;
      (if Flagged(lines, e) then [e] else []) + Scan(lines, e + 1)
  }

  /** One step of the scan, for proofs that should not unfold it further. */
  lemma {:induction false} ScanStep(lines: seq<Line>, i: nat)
    requires i < |lines|
    ensures Scan(lines, i) ==
            if !lines[i].control || BodyEnd(lines, i).None? then Scan(lines, i + 1)
            else if Flagged(lines, BodyEnd(lines, i).value)
            then [BodyEnd(lines, i).value] + Scan(lines, BodyEnd(lines, i).value + 1)
            else Scan(lines, BodyEnd(lines, i).value + 1)
  {
    hide BodyEnd, Flagged;
  }

  lemma {:induction false} ScanEnds(lines: seq<Line>)
    ensures Scan(lines, |lines|) == []
  {
  }

  // ----- The loops of the source -----

  method FindBraceFreeBodyEnd(lines: seq<Line>, control: nat) returns (e: Option<nat>)
    requires control < |lines|
    ensures e == BodyEnd(lines, control)
  {
    var j := control + 1;
    while j < |lines| && Skippable(lines[j])
      invariant control < j <= |lines|
      invariant BodyStart(lines, j) == BodyStart(lines, control + 1)
    {
      j := j + 1;
    }
    if j >= |lines| {
      return None;
    }
    if lines[j].indent <= lines[control].indent || lines[j].braced {
      return None;
    }
    var indent := lines[j].indent;
    var depth := lines[j].brackets;
    var last := j;
    while last < |lines|
      invariant j <= last < |lines|
      invariant Walk(lines, last, depth, indent) == Walk(lines, j, lines[j].brackets, indent)
      decreases |lines| - last
    {
      if depth <= 0 && lines[last].semicolon {
        break;
      }
      if last + 1 >= |lines| {
        break;
      }
      if lines[last + 1].kind == Blank {
        break;
      }
      if depth <= 0 && lines[last].attribute && !lines[last].semicolon {
        last := last + 1;
        depth := depth + lines[last].brackets;
        continue;
      }
      if depth <= 0 && lines[last + 1].indent <= indent {
        break;
      }
      last := last + 1;
      depth := depth + lines[last].brackets;
    }
    return Some(last);
  }

  method FindBraceFreeViolations(lines: seq<Line>) returns (insertAfter: seq<nat>)
    ensures insertAfter == Scan(lines, 0)
  {
    hide Scan, BodyEnd, Flagged;
    insertAfter := [];
    var i := 0;
    while i < |lines|
      invariant i <= |lines|
      invariant insertAfter + Scan(lines, i) == Scan(lines, 0)
    {
      ScanStep(lines, i);
      if !lines[i].control {
        i := i + 1;
        continue;
      }
      var end := FindBraceFreeBodyEnd(lines, i);
      if end.None? {
        i := i + 1;
        continue;
      }
      var e := end.value;
      if Flagged(lines, e) {
        assert insertAfter + ([e] + Scan(lines, e + 1)) == (insertAfter + [e]) + Scan(lines, e + 1);
        insertAfter := insertAfter + [e];
      }
      i := e + 1;
    }
    ScanEnds(lines);
  }

  method ApplyBraceFreeFixes(lines: seq<Line>, insertAfter: seq<nat>) returns (out: seq<Line>)
    ensures out == Insert(lines, Elements(insertAfter), EMPTY)
  {
    var inserts := Elements(insertAfter);
    if insertAfter == [] {
      NothingToInsert(lines, EMPTY);
      assert inserts == {};
      return lines;
    }
    out := [];
    for i := 0 to |lines|
      invariant out == Insert(lines[..i], inserts, EMPTY)
    {
      assert lines[..i + 1][..i] == lines[..i];
      out := out + [lines[i]];
      if i in inserts {
        out := out + [EMPTY];
      }
    }
    assert lines[..|lines|] == lines;
  }

  lemma {:induction false} NothingToInsert<T>(xs: seq<T>, filler: T)
    ensures Insert(xs, {}, filler) == xs
  {
    if xs != [] { NothingToInsert(xs[..|xs| - 1], filler); }
  }

  // ----- Where reported ends can lie -----

  lemma {:induction false} ScanBounds(lines: seq<Line>, i: nat, e: nat)
    requires i <= |lines| && e in Scan(lines, i)
    ensures i < e < |lines|
    decreases |lines| - i
  {
    hide Flagged;
    if !lines[i].control || BodyEnd(lines, i).None? {
      ScanBounds(lines, i + 1, e);
    } else if e != BodyEnd(lines, i).value {
      ScanBounds(lines, BodyEnd(lines, i).value + 1, e);
    }
  }

  lemma {:induction false} ScanFlagged(lines: seq<Line>, i: nat, e: nat)
    requires i <= |lines| && e in Scan(lines, i)
    ensures e < |lines| && Flagged(lines, e)
    decreases |lines| - i
  {
    hide Flagged;
    if !lines[i].control || BodyEnd(lines, i).None? {
      ScanFlagged(lines, i + 1, e);
    } else if e in Scan(lines, BodyEnd(lines, i).value + 1) {
      ScanFlagged(lines, BodyEnd(lines, i).value + 1, e);
    }
  }

  /** Lines that open no control statement are passed over. */
  lemma {:induction false} ScanSkips(lines: seq<Line>, i: nat, j: nat)
    requires i <= j <= |lines|
    requires forall k :: i <= k < j ==> !lines[k].control
    ensures Scan(lines, i) == Scan(lines, j)
    decreases j - i
  {
    if i < j { ScanSkips(lines, i + 1, j); }
  }

  // ----- The effect of the fix on one walk -----

  /** Without an insertion in `[i, j)`, that stretch is copied as it stands. */
  lemma {:induction false} Window(lines: seq<Line>, at: set<nat>, i: nat, j: nat)
    requires i <= j <= |lines| && forall k :: i <= k < j ==> k !in at
    ensures Pos(at, j) == Pos(at, i) + (j - i)
    ensures Pos(at, j) <= |Insert(lines, at, EMPTY)|
    ensures forall k :: i <= k < j ==> Insert(lines, at, EMPTY)[Pos(at, i) + (k - i)] == lines[k]
    decreases j - i
  {
    InsertLength(lines, at, EMPTY);
    if i < j {
      Window(lines, at, i, j - 1);
      InsertAt(lines, at, EMPTY, j - 1);
    } else if j < |lines| {
      PosIncreases(at, j, |lines|);
    }
  }

  lemma {:induction false} BodyStartMoves(lines: seq<Line>, at: set<nat>, j: nat)
    requires j <= |lines|
    requires forall k :: j <= k < BodyStart(lines, j) ==> k !in at
    ensures Pos(at, j) <= |Insert(lines, at, EMPTY)|
    ensures BodyStart(Insert(lines, at, EMPTY), Pos(at, j)) == Pos(at, BodyStart(lines, j))
    decreases |lines| - j
  {
    Window(lines, at, j, j);
    if j < |lines| {
      InsertAt(lines, at, EMPTY, j);
      if Skippable(lines[j]) {
        BodyStartMoves(lines, at, j + 1);
      }
    } else {
      InsertLength(lines, at, EMPTY);
    }
  }

  /** The walk ends on the same line: a blank right behind the end stops it there too. */
  lemma {:induction false} WalkMoves(lines: seq<Line>, at: set<nat>, last: nat, depth: int, indent: nat)
    requires last < |lines|
    requires forall k :: last <= k < Walk(lines, last, depth, indent) ==> k !in at
    ensures Pos(at, last) < |Insert(lines, at, EMPTY)|
    ensures Walk(Insert(lines, at, EMPTY), Pos(at, last), depth, indent) == Pos(at, Walk(lines, last, depth, indent))
    decreases |lines| - last
  {
    hide Insert, Pos;
    InsertAt(lines, at, EMPTY, last);
    PosStep(at, last);
    if last + 1 < |lines| {
      InsertAt(lines, at, EMPTY, last + 1);
    } else {
      InsertLength(lines, at, EMPTY);
    }
    if last < Walk(lines, last, depth, indent) {
      WalkMoves(lines, at, last + 1, depth + lines[last + 1].brackets, indent);
    }
  }

  /** No control statement lies between a control and its body, so with insertions only at
      ends reported later, the body end of `c` is found again. */
  lemma {:induction false} BodyEndMoves(lines: seq<Line>, at: set<nat>, c: nat)
    requires c < |lines|
    requires forall k :: c <= k < BodyStart(lines, c + 1) ==> k !in at
    requires BodyEnd(lines, c).Some? ==> forall k :: c <= k < BodyEnd(lines, c).value ==> k !in at
    ensures Pos(at, c) < |Insert(lines, at, EMPTY)|
    ensures BodyEnd(Insert(lines, at, EMPTY), Pos(at, c)) ==
            if BodyEnd(lines, c).None? then None else Some(Pos(at, BodyEnd(lines, c).value))
  {
    hide Insert, Walk, Pos;
    PosStep(at, c);
    var b := BodyStart(lines, c + 1);
    InsertAt(lines, at, EMPTY, c);
    BodyStartMoves(lines, at, c + 1);
    if b < |lines| {
      InsertAt(lines, at, EMPTY, b);
      if BodyEnd(lines, c).Some? {
        WalkMoves(lines, at, b, lines[b].brackets, lines[b].indent);
      }
    } else {
      InsertLength(lines, at, EMPTY);
    }
  }

  lemma {:induction false} FlaggedMoves(lines: seq<Line>, at: set<nat>, e: nat)
    requires e < |lines|
    ensures Flagged(Insert(lines, at, EMPTY), Pos(at, e)) == (Flagged(lines, e) && e !in at)
  {
    hide Insert, Pos;
    PosStep(at, e);
    InsertAt(lines, at, EMPTY, e);
    if e + 1 < |lines| {
      InsertAt(lines, at, EMPTY, e + 1);
    } else {
      InsertLength(lines, at, EMPTY);
    }
  }

  // ----- Scanning the fixed buffer -----

  /** What remains of `ends` when those in `at` have been fixed, at their new positions. */
  function Remaining(ends: seq<nat>, at: set<nat>): seq<nat> {
    if ends == [] then []
    else (if ends[0] in at then [] else [Pos(at, ends[0])]) + Remaining(ends[1..], at)
  }

  lemma {:induction false} RescanFrom(lines: seq<Line>, at: set<nat>, i: nat)
    requires AllWellFormed(lines) && i <= |lines|
    requires forall k :: k in at && i <= k ==> k in Scan(lines, i)
    ensures Pos(at, i) <= |Insert(lines, at, EMPTY)|
    ensures Scan(Insert(lines, at, EMPTY), Pos(at, i)) == Remaining(Scan(lines, i), at)
    decreases |lines| - i
  {
    hide Insert, Scan, BodyEnd, BodyStart, Walk, Pos, Flagged;
    var out := Insert(lines, at, EMPTY);
    Window(lines, at, i, i);
    if i == |lines| {
      InsertLength(lines, at, EMPTY);
      ScanEnds(lines);
      ScanEnds(out);
      return;
    }
    assert i !in at by {
      if i in at { ScanBounds(lines, i, i); }
    }
    InsertAt(lines, at, EMPTY, i);
    Window(lines, at, i, i + 1);
    ScanStep(lines, i);
    ScanStep(out, Pos(at, i));
    if !lines[i].control {
      RescanFrom(lines, at, i + 1);
    } else if BodyEnd(lines, i).None? {
      var b := BodyStart(lines, i + 1);
      ScanSkips(lines, i + 1, b);
      forall k | i <= k < b
        ensures k !in at
      {
        if k in at { ScanBounds(lines, b, k); }
      }
      BodyEndMoves(lines, at, i);
      RescanFrom(lines, at, i + 1);
    } else {
      var e := BodyEnd(lines, i).value;
      EndsFollow(lines, at, i);
      BodyEndMoves(lines, at, i);
      FlaggedMoves(lines, at, e);
      RescanFrom(lines, at, e + 1);
      BehindEnd(lines, at, e);
      if e in at || Flagged(lines, e) {
        assert ([e] + Scan(lines, e + 1))[1..] == Scan(lines, e + 1);
      }
    }
  }

  lemma {:induction false} StartBeforeEnd(lines: seq<Line>, i: nat)
    requires i < |lines| && BodyEnd(lines, i).Some?
    ensures BodyStart(lines, i + 1) <= BodyEnd(lines, i).value
  {
  }

  /** Every end reported from control `i` on is its own body end or lies behind it, and
      nothing is inserted between the control and its body. */
  lemma {:induction false} EndsFollow(lines: seq<Line>, at: set<nat>, i: nat)
    requires i < |lines| && lines[i].control && BodyEnd(lines, i).Some?
    requires forall k :: k in at && i <= k ==> k in Scan(lines, i)
    ensures var e := BodyEnd(lines, i).value;
            && (forall k :: k in at && e + 1 <= k ==> k in Scan(lines, e + 1))
            && (forall k :: i <= k < e ==> k !in at)
            && BodyStart(lines, i + 1) <= e
            && (e in at ==> Flagged(lines, e))
  {
    hide Scan, BodyEnd, BodyStart, Walk, Flagged;
    ScanStep(lines, i);
    StartBeforeEnd(lines, i);
    var e := BodyEnd(lines, i).value;
    forall k: nat | e + 1 <= k && k in at
      ensures k in Scan(lines, e + 1)
    {
      assert k in Scan(lines, i);
    }
    forall k: nat | i <= k < e
      ensures k !in at
    {
      if k in Scan(lines, e + 1) { ScanBounds(lines, e + 1, k); }
    }
    if e in Scan(lines, e + 1) { ScanBounds(lines, e + 1, e); }
  }

  /** Behind an end stands the next line, or the inserted blank and then that line. */
  lemma {:induction false} BehindEnd(lines: seq<Line>, at: set<nat>, e: nat)
    requires e < |lines|
    ensures Pos(at, e) + 1 <= |Insert(lines, at, EMPTY)|
    ensures Pos(at, e + 1) <= |Insert(lines, at, EMPTY)|
    ensures Scan(Insert(lines, at, EMPTY), Pos(at, e) + 1) == Scan(Insert(lines, at, EMPTY), Pos(at, e + 1))
  {
    hide Insert, BodyEnd;
    InsertAt(lines, at, EMPTY, e);
  }

  /** Main result. Apply the fix at any subset of the reported ends: scanning the result
      reports exactly the others, each at its new position. */
  lemma {:induction false} Rescan(lines: seq<Line>, at: set<nat>)
    requires AllWellFormed(lines)
    requires forall k :: k in at ==> k in Scan(lines, 0)
    ensures Scan(Insert(lines, at, EMPTY), 0) == Remaining(Scan(lines, 0), at)
  {
    RescanFrom(lines, at, 0);
  }

  lemma {:induction false} NothingRemains(ends: seq<nat>, at: set<nat>)
    requires forall k :: k in ends ==> k in at
    ensures Remaining(ends, at) == []
  {
    if ends != [] { NothingRemains(ends[1..], at); }
  }

  /** The full fix is a fix: nothing is reported afterwards, and deleting what was inserted
      gives the input back. */
  lemma {:induction false} FixIsClean(lines: seq<Line>)
    requires AllWellFormed(lines)
    ensures var at := Elements(Scan(lines, 0));
            Scan(Insert(lines, at, EMPTY), 0) == [] &&
            Delete(Insert(lines, at, EMPTY), Inserted(at, |lines|)) == lines
  {
    var at := Elements(Scan(lines, 0));
    Rescan(lines, at);
    NothingRemains(Scan(lines, 0), at);
    DeleteInserted(lines, at, EMPTY);
  }
}
