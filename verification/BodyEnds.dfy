/** Where a brace-free body ends and which ends are reported, without the walk: a body ends on its first line that
    stops, and an end is reported for every control statement that stands in no earlier body. */
module BodyEnds {
  import opened Text
  import opened Lines
  import opened BraceFree
  import opened LogicalLines

  /** A body that starts at line `b` cannot go on behind line `k`: its brackets are closed and the line ends on a
      semicolon; the file ends or a blank line follows; or its brackets are closed and the next line is not indented
      more than the body, unless line `k` is an attribute. */
  predicate Ends(lines: seq<Line>, b: nat, k: nat)
    requires b <= k < |lines|
  {
    var open := Net(lines, b, k + 1) > 0;
    || (!open && lines[k].semicolon)
    || k + 1 == |lines|
    || lines[k + 1].kind == Blank
    || (!open && !lines[k].attribute && lines[k + 1].indent <= lines[b].indent)
  }

  /** The body of the control at `c` starts at `b`: the first line behind it that is neither blank nor a `//` comment,
      indented deeper and not braced. */
  predicate StartsBody(lines: seq<Line>, c: nat, b: nat)
    requires c < |lines|
  {
    && c < b < |lines|
    && (forall k :: c < k < b ==> lines[k].kind == Blank || lines[k].slashes)
    && lines[b].kind != Blank && !lines[b].slashes
    && lines[b].indent > lines[c].indent && !lines[b].braced
  }

  /** The body at `b` ends on line `e`: the first one on which it can. */
  predicate EndsBody(lines: seq<Line>, b: nat, e: nat) {
    && b <= e < |lines|
    && Ends(lines, b, e)
    && forall k :: b <= k < e ==> !Ends(lines, b, k)
  }

  lemma {:induction false} NetStep(lines: seq<Line>, b: nat, k: nat)
    requires b <= k < |lines|
    ensures Net(lines, b, k + 1) == Net(lines, b, k) + lines[k].brackets
  {
  }

  lemma {:induction false} WalkEnds(lines: seq<Line>, b: nat, last: nat)
    requires b <= last < |lines|
    ensures var e := Walk(lines, last, Net(lines, b, last + 1), lines[b].indent);
            && last <= e < |lines| && Ends(lines, b, e)
            && forall k :: last <= k < e ==> !Ends(lines, b, k)
    decreases |lines| - last
  {
    hide Net;
    if !Ends(lines, b, last) {
      NetStep(lines, b, last + 1);
      WalkEnds(lines, b, last + 1);
    }
  }

  lemma {:induction false} FirstEnd(lines: seq<Line>, b: nat, e: nat, f: nat)
    requires EndsBody(lines, b, e) && EndsBody(lines, b, f)
    ensures e == f
  {
    hide Ends;
  }

  lemma {:induction false} StartIs(lines: seq<Line>, c: nat, b: nat)
    requires c < |lines|
    ensures StartsBody(lines, c, b) <==>
            && b == BodyStart(lines, c + 1) && b < |lines|
            && lines[b].indent > lines[c].indent && !lines[b].braced
  {
    var d := BodyStart(lines, c + 1);
    assert forall k :: c < k < d ==> Skippable(lines[k]);
    assert d < |lines| ==> !Skippable(lines[d]);
  }

  lemma {:induction false} EndOf(lines: seq<Line>, c: nat, b: nat)
    requires c < |lines| && StartsBody(lines, c, b)
    ensures BodyEnd(lines, c).Some? && EndsBody(lines, b, BodyEnd(lines, c).value)
  {
    hide Walk, StartsBody, BodyStart;
    StartIs(lines, c, b);
    NetStep(lines, b, b);
    NetNothing(lines, b);
    WalkEnds(lines, b, b);
  }

  lemma {:induction false} NetNothing(lines: seq<Line>, b: nat)
    requires b <= |lines|
    ensures Net(lines, b, b) == 0
  {
  }

  lemma {:induction false} HasStart(lines: seq<Line>, c: nat)
    requires c < |lines| && BodyEnd(lines, c).Some?
    ensures StartsBody(lines, c, BodyStart(lines, c + 1))
  {
    hide Walk, StartsBody;
    StartIs(lines, c, BodyStart(lines, c + 1));
  }

  /** Main result on the body search: it ends a body on line `e` if and only if a body starts behind the control and
      `e` is the first line on which that body can end. */
  lemma {:induction false} BodyEndExactly(lines: seq<Line>, c: nat, e: nat)
    requires c < |lines|
    ensures BodyEnd(lines, c) == Some(e) <==> exists b :: StartsBody(lines, c, b) && EndsBody(lines, b, e)
  {
    hide BodyEnd, StartsBody, EndsBody, BodyStart;
    if BodyEnd(lines, c) == Some(e) {
      HasStart(lines, c);
      EndOf(lines, c, BodyStart(lines, c + 1));
    }
    if b :| StartsBody(lines, c, b) && EndsBody(lines, b, e) {
      EndOf(lines, c, b);
      FirstEnd(lines, b, e, BodyEnd(lines, c).value);
    }
  }

  // ----- Which ends are reported -----

  /** A control statement with a body that stands in the body of no earlier one. */
  ghost predicate Outermost(lines: seq<Line>, c: nat)
    decreases c
  {
    && c < |lines| && lines[c].control && BodyEnd(lines, c).Some?
    && forall d: nat :: d < c && Outermost(lines, d) ==> BodyEnd(lines, d).value < c
  }

  /** A blank is missing behind line `e`: a line follows that is neither blank nor starts with `}`, `#`, `else` or
      `while`. */
  predicate LacksBlank(lines: seq<Line>, e: nat) {
    e + 1 < |lines| && lines[e + 1].kind != Blank && !lines[e + 1].separates
  }

  /** No body found so far reaches line `i`. */
  ghost predicate Clear(lines: seq<Line>, i: nat) {
    forall d: nat :: d < i && Outermost(lines, d) ==> BodyEnd(lines, d).value < i
  }

  ghost predicate ReportedFrom(lines: seq<Line>, i: nat, e: nat) {
    exists c: nat :: i <= c && Outermost(lines, c) && BodyEnd(lines, c) == Some(e) && LacksBlank(lines, e)
  }

  lemma {:induction false} InsideIsNot(lines: seq<Line>, i: nat, c: nat)
    requires Outermost(lines, i) && i < c <= BodyEnd(lines, i).value
    ensures !Outermost(lines, c)
  {
    hide BodyEnd;
  }

  lemma {:induction false} ScanReports(lines: seq<Line>, i: nat, e: nat)
    requires i <= |lines| && Clear(lines, i)
    ensures e in Scan(lines, i) <==> ReportedFrom(lines, i, e)
    decreases |lines| - i
  {
    hide BodyEnd, Scan, Outermost;
    if i == |lines| {
      ScanEnds(lines);
      PastTheEnd(lines, e);
    } else {
      ScanStep(lines, i);
      ClearIs(lines, i);
      if Outermost(lines, i) {
        var next := BodyEnd(lines, i).value + 1;
        BodyEndBehind(lines, i);
        forall c: nat | i < c < next
          ensures !Outermost(lines, c)
        {
          InsideIsNot(lines, i, c);
        }
        ScanReports(lines, next, e);
      } else {
        ScanReports(lines, i + 1, e);
      }
    }
  }

  lemma {:induction false} BodyEndBehind(lines: seq<Line>, i: nat)
    requires i < |lines| && BodyEnd(lines, i).Some?
    ensures i < BodyEnd(lines, i).value < |lines|
  {
  }

  lemma {:induction false} PastTheEnd(lines: seq<Line>, e: nat)
    ensures !ReportedFrom(lines, |lines|, e)
  {
  }

  lemma {:induction false} ClearIs(lines: seq<Line>, i: nat)
    requires i < |lines| && Clear(lines, i)
    ensures Outermost(lines, i) <==> lines[i].control && BodyEnd(lines, i).Some?
  {
    hide BodyEnd;
  }

  /** Main result on the scan: line `e` is reported if and only if a control statement that stands in no earlier body
      has its body end there and a blank is missing behind it. */
  lemma {:induction false} ScanExactly(lines: seq<Line>, e: nat)
    ensures e in Scan(lines, 0) <==>
            exists c :: Outermost(lines, c) && BodyEnd(lines, c) == Some(e) && LacksBlank(lines, e)
  {
    hide BodyEnd, Scan, Outermost, LacksBlank;
    ScanReports(lines, 0, e);
  }

  /** An attribute line in front of the statement does not end the body. */
  lemma {:induction false} AttributeGoesOn(lines: seq<Line>, c: nat, b: nat)
    requires c < |lines| && StartsBody(lines, c, b) && b + 1 < |lines|
    requires lines[b].attribute && !lines[b].semicolon && lines[b + 1].kind != Blank
    ensures BodyEnd(lines, c).Some? && BodyEnd(lines, c).value > b
  {
    hide BodyEnd, StartsBody;
    EndOf(lines, c, b);
  }
}
