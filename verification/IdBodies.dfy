/** What the id check says, in terms of brace sums: which bodies it judges, which `id:` of a body it looks at, and
    when it reports it. */
module IdBodies {
  import opened Text
  import opened Lines
  import opened Tokenizer
  import opened IdPlacement

  // ----- One body -----

  /** The braces of the first `n` lines, literals included. */
  function RawSum(raws: seq<Line>, n: nat): int
    requires n <= |raws|
  {
    if n == 0 then 0 else RawSum(raws, n - 1) + raws[n - 1].rawBraces
  }

  /** What a logical line adds to the depth: comments and blank lines nothing. */
  function Adds(t: Token): int {
    if t.kind == Comment || t.kind == Blank then 0 else RawSum(t.raws, |t.raws|)
  }

  /** The depth at token `b` inside a body that starts at token `a`. */
  function Level(toks: seq<Token>, a: nat, b: nat): int
    requires a <= b <= |toks|
  {
    if a == b then 0 else Level(toks, a, b - 1) + Adds(toks[b - 1])
  }

  lemma {:induction false} RawSumIs(raws: seq<Line>, n: nat)
    requires n <= |raws|
    ensures RawSum(raws, n) == RawBraces(raws[..n])
  {
    if n > 0 {
      RawSumIs(raws, n - 1);
      assert raws[..n][..n - 1] == raws[..n - 1];
    }
  }

  lemma {:induction false} AddsIs(t: Token)
    ensures Adds(t) == Brace(t)
  {
    RawSumIs(t.raws, |t.raws|);
    assert t.raws[..|t.raws|] == t.raws;
  }

  /** The first `id:` at depth 0 of the body from `start` up to `end`. */
  ghost predicate IsBodyId(toks: seq<Token>, start: nat, end: nat, k: nat) {
    && start <= k < end <= |toks|
    && toks[k].kind == Id && Level(toks, start, k) == 0
    && forall j :: start <= j < k && toks[j].kind == Id ==> Level(toks, start, j) != 0
  }

  /** Something other than comments and blank lines stands at depth 0 in front of token `k`. */
  ghost predicate ContentBefore(toks: seq<Token>, start: nat, k: nat) {
    exists j: nat :: start <= j < k && j < |toks| && IsContent(toks, start, j)
  }

  predicate IsContent(toks: seq<Token>, start: nat, j: nat)
    requires start <= j < |toks|
  {
    Level(toks, start, j) == 0 && toks[j].kind != Comment && toks[j].kind != Blank
  }

  lemma {:induction false} WalkIs(toks: seq<Token>, start: nat, i: nat, end: nat, content: Option<nat>)
    requires start <= i <= end <= |toks|
    requires forall j :: start <= j < i && toks[j].kind == Id ==> Level(toks, start, j) != 0
    requires content.Some? <==> ContentBefore(toks, start, i)
    ensures var w := Walk(toks, i, end, Level(toks, start, i), content);
            && (w.id.Some? ==> IsBodyId(toks, start, end, w.id.value)
                               && (w.content.Some? <==> ContentBefore(toks, start, w.id.value)))
            && (w.id.None? ==> forall k :: !IsBodyId(toks, start, end, k))
    decreases end - i
  {
    hide Adds, Brace, Level, ContentBefore;
    if i < end {
      LevelStep(toks, start, i);
      ContentStep(toks, start, i);
      if Level(toks, start, i) == 0 && (toks[i].kind == Blank || toks[i].kind == Comment) {
        NoBrace(toks[i]);
        WalkIs(toks, start, i + 1, end, content);
      } else if Level(toks, start, i) == 0 && toks[i].kind == Id {
        assert IsBodyId(toks, start, end, i);
      } else {
        WalkIs(toks, start, i + 1, end, if Level(toks, start, i) == 0 && content.None? then Some(i) else content);
      }
    }
  }

  lemma {:induction false} LevelStep(toks: seq<Token>, start: nat, i: nat)
    requires start <= i < |toks|
    ensures Level(toks, start, i + 1) == Level(toks, start, i) + Brace(toks[i])
  {
    AddsIs(toks[i]);
    hide Adds, Brace;
  }

  lemma {:induction false} NoBrace(t: Token)
    requires t.kind == Blank || t.kind == Comment
    ensures Brace(t) == 0
  {
  }

  lemma {:induction false} ContentStep(toks: seq<Token>, start: nat, i: nat)
    requires start <= i < |toks|
    ensures ContentBefore(toks, start, i + 1) <==> ContentBefore(toks, start, i) || IsContent(toks, start, i)
  {
    hide IsContent;
  }

  lemma {:induction false} OneBodyId(toks: seq<Token>, start: nat, end: nat, k: nat, l: nat)
    requires IsBodyId(toks, start, end, k) && IsBodyId(toks, start, end, l)
    ensures k == l
  {
  }

  /** A blank is missing between the `id:` at `k` and what follows it in the body. */
  predicate RunsOn(toks: seq<Token>, end: nat, k: nat)
    requires end <= |toks|
  {
    k + 1 < end && toks[k + 1].kind != Blank
  }

  /** Main result on one body. Its first shallow `id:` is misplaced if and only if content stands in front of it; it
      needs a blank if and only if none does and the body goes on right behind it; in every other case the check is
      quiet. */
  lemma {:induction false} JudgeExactly(toks: seq<Token>, start: nat, end: nat, k: nat)
    requires end <= |toks|
    ensures Judge(toks, start, end) == Misplaced(k) <==> IsBodyId(toks, start, end, k) && ContentBefore(toks, start, k)
    ensures Judge(toks, start, end) == NeedsBlank(k) <==>
            IsBodyId(toks, start, end, k) && !ContentBefore(toks, start, k) && RunsOn(toks, end, k)
    ensures Judge(toks, start, end) == Quiet <==>
            forall l :: IsBodyId(toks, start, end, l) ==> !ContentBefore(toks, start, l) && !RunsOn(toks, end, l)
  {
    hide Walk, Level, ContentBefore, IsBodyId;
    if start <= end {
      NothingBefore(toks, start);
      WalkIs(toks, start, start, end, None);
      var w := Walk(toks, start, end, 0, None);
      if w.id.Some? {
        var id := w.id.value;
        BodyIdInside(toks, start, end, id);
        forall l | IsBodyId(toks, start, end, l)
          ensures l == id
        {
          OneBodyId(toks, start, end, l, id);
        }
      } else {
        assert Judge(toks, start, end) == Quiet;
        assert forall l :: !IsBodyId(toks, start, end, l);
      }
    } else {
      NoBody(toks, start, end);
    }
  }

  lemma {:induction false} BodyIdInside(toks: seq<Token>, start: nat, end: nat, k: nat)
    requires IsBodyId(toks, start, end, k)
    ensures start <= k < end <= |toks|
  {
  }

  lemma {:induction false} NothingBefore(toks: seq<Token>, start: nat)
    requires start <= |toks|
    ensures !ContentBefore(toks, start, start) && Level(toks, start, start) == 0
  {
  }

  lemma {:induction false} NoBody(toks: seq<Token>, start: nat, end: nat)
    requires end < start && end <= |toks|
    ensures Judge(toks, start, end) == Quiet
    ensures forall l :: !IsBodyId(toks, start, end, l)
  {
  }

  // ----- Which bodies -----

  /** A line that opens a body, one that closes a body and opens another, one that closes a body. */
  predicate Enters(t: Token) { t.kind == Open }
  predicate Turns(t: Token) { t.kind != Open && Reopens(t) }
  predicate Leaves(t: Token) { t.kind != Open && !Reopens(t) && Adds(t) < 0 }

  /** How many bodies are open inside the one that line `o` opens, in front of line `i`. */
  function Inner(toks: seq<Token>, o: nat, i: nat): int
    requires o < i <= |toks|
  {
    if i == o + 1 then 0
    else Inner(toks, o, i - 1) + if Enters(toks[i - 1]) then 1 else if Leaves(toks[i - 1]) then -1 else 0
  }

  /** Line `i` closes a body while none is open inside the one of line `o`. */
  predicate Shuts(toks: seq<Token>, o: nat, i: nat)
    requires o < i < |toks|
  {
    Inner(toks, o, i) == 0 && (Leaves(toks[i]) || Turns(toks[i]))
  }

  /** Line `o` opens a body that is not closed in front of line `i`. */
  ghost predicate StillOpen(toks: seq<Token>, o: nat, i: nat) {
    && o < i <= |toks|
    && (Enters(toks[o]) || Turns(toks[o]))
    && forall j :: o < j < i ==> !Shuts(toks, o, j)
  }

  /** The body that line `o` opens is closed by line `i`. */
  ghost predicate IsBody(toks: seq<Token>, o: nat, i: nat)
    ensures IsBody(toks, o, i) ==> o < i < |toks|
  {
    StillOpen(toks, o, i) && i < |toks| && Shuts(toks, o, i)
  }

  /** The stack holds the bodies that are open, the outermost first. */
  ghost predicate OpenBodies(toks: seq<Token>, i: nat, stack: seq<nat>)
    requires i <= |toks|
  {
    && (forall m :: 0 <= m < |stack| ==> stack[m] > 0 && OpenAt(toks, i, stack[m] - 1, |stack| - 1 - m))
    && (forall o: nat :: StillOpen(toks, o, i) ==> o + 1 in stack)
  }

  ghost predicate OpenAt(toks: seq<Token>, i: nat, o: nat, inner: int) {
    StillOpen(toks, o, i) && Inner(toks, o, i) == inner
  }

  lemma {:induction false} EventIs(t: Token)
    ensures EventOf(t) == if Enters(t) then Enter else if Turns(t) then Swap else if Leaves(t) then Leave else Stay
  {
    AddsIs(t);
    hide Adds, Brace;
  }

  lemma {:induction false} StillOpenStep(toks: seq<Token>, o: nat, i: nat)
    requires i < |toks|
    ensures StillOpen(toks, o, i + 1) <==>
            if o == i then Enters(toks[i]) || Turns(toks[i]) else StillOpen(toks, o, i) && !Shuts(toks, o, i)
  {
    hide Shuts, Enters, Turns;
  }

  lemma {:induction false} InnerStep(toks: seq<Token>, o: nat, i: nat)
    requires o < i < |toks|
    ensures Inner(toks, o, i + 1)
            == Inner(toks, o, i) + if Enters(toks[i]) then 1 else if Leaves(toks[i]) then -1 else 0
  {
    hide Enters, Leaves;
  }

  lemma {:induction false} OneEvent(t: Token)
    ensures !(Enters(t) && Turns(t)) && !(Enters(t) && Leaves(t)) && !(Turns(t) && Leaves(t))
  {
  }

  /** An open body in front of line `i`, seen behind it. */
  lemma {:induction false} OpenAtStep(toks: seq<Token>, i: nat, o: nat, inner: nat)
    requires i < |toks| && OpenAt(toks, i, o, inner)
    ensures Shuts(toks, o, i) <==> inner == 0 && (Leaves(toks[i]) || Turns(toks[i]))
    ensures !Shuts(toks, o, i) ==>
              OpenAt(toks, i + 1, o, inner + if Enters(toks[i]) then 1 else if Leaves(toks[i]) then -1 else 0)
  {
    hide Enters, Turns, Leaves;
    StillOpenStep(toks, o, i);
    InnerStep(toks, o, i);
  }

  lemma {:induction false} StackStep(toks: seq<Token>, i: nat, stack: seq<nat>)
    requires i < |toks| && OpenBodies(toks, i, stack)
    ensures OpenBodies(toks, i + 1, NextStack(EventOf(toks[i]), stack, i + 1))
  {
    hide Enters, Turns, Leaves, EventOf, OpenAt, StillOpen, Shuts;
    EventIs(toks[i]);
    OneEvent(toks[i]);
    var t := toks[i];
    var next := NextStack(EventOf(t), stack, i + 1);
    forall m | 0 <= m < |next|
      ensures next[m] > 0 && OpenAt(toks, i + 1, next[m] - 1, |next| - 1 - m)
    {
      if m < |stack| && next[m] == stack[m] && !((Enters(t) || Turns(t)) && m == |next| - 1) {
        OpenAtStep(toks, i, stack[m] - 1, |stack| - 1 - m);
      } else {
        NewBody(toks, i);
      }
    }
    var j := i + 1;
    forall o: nat | StillOpen(toks, o, j)
      ensures o + 1 in next
    {
      KeptOpen(toks, i, stack, o);
    }
  }

  lemma {:induction false} NewBody(toks: seq<Token>, i: nat)
    requires i < |toks| && (Enters(toks[i]) || Turns(toks[i]))
    ensures OpenAt(toks, i + 1, i, 0)
  {
  }

  lemma {:induction false} KeptOpen(toks: seq<Token>, i: nat, stack: seq<nat>, o: nat)
    requires i < |toks| && OpenBodies(toks, i, stack) && StillOpen(toks, o, i + 1)
    ensures o + 1 in NextStack(EventOf(toks[i]), stack, i + 1)
  {
    hide Enters, Turns, Leaves, EventOf, OpenAt, StillOpen, Shuts;
    EventIs(toks[i]);
    OneEvent(toks[i]);
    StillOpenStep(toks, o, i);
    var next := NextStack(EventOf(toks[i]), stack, i + 1);
    if o == i {
      assert next[|next| - 1] == i + 1;
    } else {
      var m :| 0 <= m < |stack| && stack[m] == o + 1;
      OpenAtStep(toks, i, o, |stack| - 1 - m);
      assert m < |next| && next[m] == stack[m];
    }
  }

  /** The body that line `i` closes is the one on top. */
  lemma {:induction false} ClosedIsTop(toks: seq<Token>, i: nat, stack: seq<nat>, o: nat)
    requires i < |toks| && OpenBodies(toks, i, stack)
    ensures IsBody(toks, o, i) <==>
            stack != [] && o + 1 == Top(stack) && (EventOf(toks[i]) == Swap || EventOf(toks[i]) == Leave)
  {
    hide Enters, Turns, Leaves, EventOf, OpenAt, StillOpen, Shuts;
    EventIs(toks[i]);
    OneEvent(toks[i]);
    if stack != [] {
      TopIsOpen(toks, i, stack);
      OpenAtStep(toks, i, Top(stack) - 1, 0);
      OpenIsOpen(toks, i, Top(stack) - 1, 0);
    }
    if o + 1 in stack {
      var m :| 0 <= m < |stack| && stack[m] == o + 1;
      OpenAtStep(toks, i, o, |stack| - 1 - m);
      OpenIsOpen(toks, i, o, |stack| - 1 - m);
    }
  }

  lemma {:induction false} TopIsOpen(toks: seq<Token>, i: nat, stack: seq<nat>)
    requires i < |toks| && OpenBodies(toks, i, stack) && stack != []
    ensures Top(stack) > 0 && OpenAt(toks, i, Top(stack) - 1, 0)
  {
    hide OpenAt, StillOpen;
    var m := |stack| - 1;
    assert OpenAt(toks, i, stack[m] - 1, |stack| - 1 - m);
  }

  lemma {:induction false} OpenIsOpen(toks: seq<Token>, i: nat, o: nat, inner: int)
    requires OpenAt(toks, i, o, inner)
    ensures StillOpen(toks, o, i) && o < i
  {
  }

  ghost predicate JudgedFrom(toks: seq<Token>, i: nat, v: Verdict) {
    exists o: nat, c: nat :: i <= c && IsBody(toks, o, c) && v == Judge(toks, o + 1, c)
  }

  lemma {:induction false} VerdictsFrom(toks: seq<Token>, i: nat, stack: seq<nat>, v: Verdict)
    requires i <= |toks| && OpenBodies(toks, i, stack)
    ensures v in Verdicts(toks, i, stack) <==> JudgedFrom(toks, i, v)
    decreases |toks| - i
  {
    hide Judge, EventOf, Verdicts, OpenBodies, IsBody, NextStack;
    if i == |toks| {
      VerdictsEnd(toks, stack);
      NothingBehind(toks, v);
    } else {
      VerdictsUnfold(toks, i, stack);
      StackStep(toks, i, stack);
      VerdictsFrom(toks, i + 1, NextStack(EventOf(toks[i]), stack, i + 1), v);
      JudgedStep(toks, i, stack, v);
    }
  }

  lemma {:induction false} NothingBehind(toks: seq<Token>, v: Verdict)
    ensures !JudgedFrom(toks, |toks|, v)
  {
    hide Judge;
  }

  lemma {:induction false} JudgedStep(toks: seq<Token>, i: nat, stack: seq<nat>, v: Verdict)
    requires i < |toks| && OpenBodies(toks, i, stack)
    ensures JudgedFrom(toks, i, v) <==> JudgedFrom(toks, i + 1, v) || v in Closing(toks, i, stack)
  {
    hide Judge, EventOf, OpenBodies, IsBody, OpenAt;
    if stack != [] {
      TopIsOpen(toks, i, stack);
      ClosedIsTop(toks, i, stack, Top(stack) - 1);
    }
    if JudgedFrom(toks, i, v) {
      var o: nat, c: nat :| i <= c && IsBody(toks, o, c) && v == Judge(toks, o + 1, c);
      if c == i { ClosedIsTop(toks, i, stack, o); }
    }
    if v in Closing(toks, i, stack) {
      assert IsBody(toks, Top(stack) - 1, i) && v == Judge(toks, Top(stack), i);
    }
  }

  /** Main result on the bodies: a verdict is given if and only if it is the one on a body that some line opens and a
      later line closes. */
  lemma {:induction false} VerdictsExactly(toks: seq<Token>, v: Verdict)
    ensures v in Verdicts(toks, 0, []) <==>
            exists o: nat, c: nat :: IsBody(toks, o, c) && v == Judge(toks, o + 1, c)
  {
    hide Judge, Verdicts, IsBody;
    NoBodiesYet(toks);
    VerdictsFrom(toks, 0, [], v);
  }

  lemma {:induction false} NoBodiesYet(toks: seq<Token>)
    ensures OpenBodies(toks, 0, [])
  {
  }

  lemma {:induction false} ReportedAre(toks: seq<Token>, verdicts: seq<Verdict>, v: Violation)
    ensures v in Reported(toks, verdicts) <==>
            exists k: nat :: (Misplaced(k) in verdicts && v == IdPlacement(Start(toks, k) + 1))
                          || (NeedsBlank(k) in verdicts && v == IdBlankLine(Start(toks, k) + 1))
  {
    hide Start;
    if verdicts != [] {
      ReportedAre(toks, verdicts[1..], v);
      assert verdicts == [verdicts[0]] + verdicts[1..];
      match verdicts[0]
      case Quiet =>
      case Misplaced(k) => assert Misplaced(k) in verdicts;
      case NeedsBlank(k) => assert NeedsBlank(k) in verdicts;
    }
  }

  /** Token `k` is the first shallow `id:` of the body that lines `o` and `c` open and close. */
  ghost predicate FirstId(toks: seq<Token>, o: nat, c: nat, k: nat)
    ensures FirstId(toks, o, c, k) ==> k < c < |toks|
  {
    IsBody(toks, o, c) && IsBodyId(toks, o + 1, c, k)
  }

  lemma {:induction false} IdVerdicts(toks: seq<Token>, k: nat)
    ensures Misplaced(k) in Verdicts(toks, 0, []) <==>
            exists o: nat, c: nat :: FirstId(toks, o, c, k) && ContentBefore(toks, o + 1, k)
    ensures NeedsBlank(k) in Verdicts(toks, 0, []) <==>
            exists o: nat, c: nat :: FirstId(toks, o, c, k) && !ContentBefore(toks, o + 1, k) && RunsOn(toks, c, k)
  {
    hide Judge, Verdicts, IsBody, IsBodyId, ContentBefore, RunsOn;
    VerdictsExactly(toks, Misplaced(k));
    VerdictsExactly(toks, NeedsBlank(k));
    forall o: nat, c: nat | IsBody(toks, o, c)
      ensures Judge(toks, o + 1, c) == Misplaced(k) <==> FirstId(toks, o, c, k) && ContentBefore(toks, o + 1, k)
      ensures Judge(toks, o + 1, c) == NeedsBlank(k) <==>
              FirstId(toks, o, c, k) && !ContentBefore(toks, o + 1, k) && RunsOn(toks, c, k)
    {
      JudgeExactly(toks, o + 1, c, k);
    }
  }

  /** Main result on the rule: line `n` is reported for a misplaced `id:` if and only if it starts the first shallow
      `id:` of some body, with content in front of it. */
  lemma {:induction false} MisplacedExactly(toks: seq<Token>, n: nat)
    ensures IdPlacement(n) in Reported(toks, Verdicts(toks, 0, [])) <==>
            exists o: nat, c: nat, k: nat ::
              FirstId(toks, o, c, k) && ContentBefore(toks, o + 1, k) && n == toks[k].start + 1
  {
    hide Judge, Verdicts, FirstId, ContentBefore;
    var verdicts := Verdicts(toks, 0, []);
    ReportedAre(toks, verdicts, IdPlacement(n));
    if IdPlacement(n) in Reported(toks, verdicts) {
      var k: nat :| Misplaced(k) in verdicts && IdPlacement(n) == IdPlacement(Start(toks, k) + 1);
      IdVerdicts(toks, k);
      var o: nat, c: nat :| FirstId(toks, o, c, k) && ContentBefore(toks, o + 1, k);
      assert n == toks[k].start + 1;
    }
    if o: nat, c: nat, k: nat :| FirstId(toks, o, c, k) && ContentBefore(toks, o + 1, k) && n == toks[k].start + 1 {
      IdVerdicts(toks, k);
      assert Misplaced(k) in verdicts && IdPlacement(n) == IdPlacement(Start(toks, k) + 1);
    }
  }

  /** And for a missing blank if and only if it starts the first shallow `id:` of some body, with no content in front
      of it and something other than a blank line right behind it. */
  lemma {:induction false} BlankWantedExactly(toks: seq<Token>, n: nat)
    ensures IdBlankLine(n) in Reported(toks, Verdicts(toks, 0, [])) <==>
            exists o: nat, c: nat, k: nat ::
              FirstId(toks, o, c, k) && !ContentBefore(toks, o + 1, k) && RunsOn(toks, c, k) && n == toks[k].start + 1
  {
    hide Judge, Verdicts, FirstId, ContentBefore, RunsOn;
    var verdicts := Verdicts(toks, 0, []);
    ReportedAre(toks, verdicts, IdBlankLine(n));
    if IdBlankLine(n) in Reported(toks, verdicts) {
      var k: nat :| NeedsBlank(k) in verdicts && IdBlankLine(n) == IdBlankLine(Start(toks, k) + 1);
      IdVerdicts(toks, k);
      var o: nat, c: nat :| FirstId(toks, o, c, k) && !ContentBefore(toks, o + 1, k) && RunsOn(toks, c, k);
      assert n == toks[k].start + 1;
    }
    if o: nat, c: nat, k: nat :| FirstId(toks, o, c, k) && !ContentBefore(toks, o + 1, k) && RunsOn(toks, c, k)
                                 && n == toks[k].start + 1 {
      IdVerdicts(toks, k);
      assert NeedsBlank(k) in verdicts && IdBlankLine(n) == IdBlankLine(Start(toks, k) + 1);
    }
  }
}
