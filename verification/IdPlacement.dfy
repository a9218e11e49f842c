/** `check_id_placement`: `id:` must come first in an object body and be followed by a blank
    line. The blank it asks for is inserted, and the check then no longer asks for any. */
module IdPlacement {
  import opened Text
  import opened Lines
  import opened Inserts
  import opened Tokenizer

  // ----- Specification -----

  function RawBraces(raws: seq<Line>): int {
    if raws == [] then 0 else RawBraces(raws[..|raws| - 1]) + raws[|raws| - 1].rawBraces
  }

  /** `_brace_delta` of a logical line */
  function Brace(t: Token): int {
    if t.kind == Comment || t.kind == Blank then 0 else RawBraces(t.raws)
  }

  /** `closes_then_opens` */
  predicate Reopens(t: Token) {
    t.kind != Comment && t.kind != Blank && |t.raws| == 1 && t.raws[0].reopens
  }

  /** The first shallow content line and the first shallow `id:` of a body. */
  datatype Shallow = Shallow(content: Option<nat>, id: Option<nat>)

  function Walk(toks: seq<Token>, i: nat, end: nat, depth: int, content: Option<nat>): Shallow
    requires end <= |toks|
    decreases end - i
  {
    if i >= end then Shallow(content, None)
    else if depth == 0 && (toks[i].kind == Blank || toks[i].kind == Comment) then
      Walk(toks, i + 1, end, depth, content)
    else if depth == 0 && toks[i].kind == Id then Shallow(content, Some(i))
    else
      Walk(toks, i + 1, end, depth + Brace(toks[i]), if depth == 0 && content.None? then Some(i) else content)
  }

  /** What the check says of one body; `k` is the logical line of its `id:`. */
  datatype Verdict = Quiet | Misplaced(k: nat) | NeedsBlank(k: nat)

  function Judge(toks: seq<Token>, start: nat, end: nat): Verdict
    requires end <= |toks|
  {
    var w := Walk(toks, start, end, 0, None);
    if w.id.None? then Quiet
    else if w.content.Some? then Misplaced(w.id.value)
    else if w.id.value + 1 < end && w.id.value + 1 < |toks| && toks[w.id.value + 1].kind != Blank
    then NeedsBlank(w.id.value)
    else Quiet
  }

  /** What one logical line does to the stack of open bodies. */
  datatype Event = Enter | Swap | Leave | Stay

  function EventOf(t: Token): Event {
    if t.kind == Open then Enter
    else if Reopens(t) then Swap
    else if Brace(t) < 0 then Leave
    else Stay
  }

  function Top(stack: seq<nat>): nat
    requires stack != []
  {
    stack[|stack| - 1]
  }

  function Under(stack: seq<nat>): seq<nat> {
    if stack == [] then [] else stack[..|stack| - 1]
  }

  /** The verdicts on all bodies closed from line `i` on, with `stack` open. */
  function Verdicts(toks: seq<Token>, i: nat, stack: seq<nat>): seq<Verdict>
    requires i <= |toks|
    decreases |toks| - i
  {
    if i == |toks| then []
    else
      match EventOf(toks[i])
      case Enter => Verdicts(toks, i + 1, stack + [i + 1])
      case Swap =>
        (if stack == [] then [] else [Judge(toks, Top(stack), i)]) +
        Verdicts(toks, i + 1, Under(stack) + [i + 1])
      case Leave =>
        (if stack == [] then [] else [Judge(toks, Top(stack), i)]) + Verdicts(toks, i + 1, Under(stack))
      case Stay => Verdicts(toks, i + 1, stack)
  }

  // ----- The violations and insertions the verdicts stand for -----

  datatype Violation = IdPlacement(line: nat) | IdBlankLine(line: nat)

  function Start(toks: seq<Token>, k: nat): nat {
    if k < |toks| then toks[k].start else 0
  }

  /** Physical index of the last line of logical line `k`. */
  function LastLine(toks: seq<Token>, k: nat): nat {
    if k < |toks| && toks[k].raws != [] then toks[k].start + |toks[k].raws| - 1 else 0
  }

  function Reported(toks: seq<Token>, verdicts: seq<Verdict>): seq<Violation> {
    if verdicts == [] then []
    else
      (match verdicts[0]
       case Quiet => []
       case Misplaced(k) => [IdPlacement(Start(toks, k) + 1)]
       case NeedsBlank(k) => [IdBlankLine(Start(toks, k) + 1)]) + Reported(toks, verdicts[1..])
  }

  function BlanksAfter(toks: seq<Token>, verdicts: seq<Verdict>): seq<nat> {
    if verdicts == [] then []
    else
      (if verdicts[0].NeedsBlank? then [LastLine(toks, verdicts[0].k)] else []) +
      BlanksAfter(toks, verdicts[1..])
  }

  // ----- The loops of the source -----

  method CheckShallowId(toks: seq<Token>, start: nat, end: nat) returns (verdict: Verdict)
    requires end <= |toks|
    ensures verdict == Judge(toks, start, end)
  {
    var innerDepth := 0;
    var firstContent: Option<nat> := None;
    var shallowId: Option<nat> := None;
    var i := start;
    while i < end
      invariant shallowId.None?
      invariant Walk(toks, i, end, innerDepth, firstContent) == Walk(toks, start, end, 0, None)
      decreases end - i
    {
      var line := toks[i];
      if innerDepth == 0 {
        if line.kind == Blank || line.kind == Comment {
          i := i + 1;
          continue;
        }
        if line.kind == Id {
          shallowId := Some(i);
          break;
        }
        if firstContent.None? {
          firstContent := Some(i);
        }
      }
      innerDepth := innerDepth + Brace(line);
      i := i + 1;
    }
    if shallowId.None? {
      return Quiet;
    }
    if firstContent.Some? {
      return Misplaced(shallowId.value);
    }
    var next := shallowId.value + 1;
    if next < end && toks[next].kind != Blank {
      return NeedsBlank(shallowId.value);
    }
    return Quiet;
  }

  method CheckIdPlacement(toks: seq<Token>) returns (violations: seq<Violation>, blanksAfter: seq<nat>)
    ensures violations == Reported(toks, Verdicts(toks, 0, []))
    ensures blanksAfter == BlanksAfter(toks, Verdicts(toks, 0, []))
  {
    hide Judge, EventOf, Verdicts, Reported, BlanksAfter;
    var verdicts: seq<Verdict> := [];
    var bodyStack: seq<nat> := [];
    var i := 0;
    while i < |toks|
      invariant i <= |toks|
      invariant verdicts + Verdicts(toks, i, bodyStack) == Verdicts(toks, 0, [])
      decreases |toks| - i
    {
      VerdictsStep(toks, i, bodyStack);
      match EventOf(toks[i]) {
      case Enter =>
        bodyStack := bodyStack + [i + 1];
      case Swap =>
        if bodyStack != [] {
          var v := CheckShallowId(toks, Top(bodyStack), i);
          ghost var rest := Verdicts(toks, i + 1, Under(bodyStack) + [i + 1]);
          assert verdicts + ([v] + rest) == (verdicts + [v]) + rest;
          verdicts := verdicts + [v];
        }
        bodyStack := Under(bodyStack) + [i + 1];
      case Leave =>
        if bodyStack != [] {
          var v := CheckShallowId(toks, Top(bodyStack), i);
          ghost var rest := Verdicts(toks, i + 1, Under(bodyStack));
          assert verdicts + ([v] + rest) == (verdicts + [v]) + rest;
          verdicts := verdicts + [v];
        }
        bodyStack := Under(bodyStack);
      case Stay =>
      }
      i := i + 1;
    }
    VerdictsEnd(toks, bodyStack);
    assert verdicts == Verdicts(toks, 0, []);
    violations, blanksAfter := Reported(toks, verdicts), BlanksAfter(toks, verdicts);
  }

  lemma {:induction false} VerdictsStep(toks: seq<Token>, i: nat, stack: seq<nat>)
    requires i < |toks|
    ensures Verdicts(toks, i, stack) ==
            match EventOf(toks[i])
            case Enter => Verdicts(toks, i + 1, stack + [i + 1])
            case Swap =>
              if stack == [] then Verdicts(toks, i + 1, Under(stack) + [i + 1])
              else [Judge(toks, Top(stack), i)] + Verdicts(toks, i + 1, Under(stack) + [i + 1])
            case Leave =>
              if stack == [] then Verdicts(toks, i + 1, Under(stack))
              else [Judge(toks, Top(stack), i)] + Verdicts(toks, i + 1, Under(stack))
            case Stay => Verdicts(toks, i + 1, stack)
  {
    hide Judge, EventOf;
  }

  lemma {:induction false} VerdictsEnd(toks: seq<Token>, stack: seq<nat>)
    ensures Verdicts(toks, |toks|, stack) == []
  {
  }

  // ----- Inserting the blanks -----

  /** The logical lines behind which a blank is asked for. */
  function Wanting(verdicts: seq<Verdict>): set<nat> {
    if verdicts == [] then {}
    else (if verdicts[0].NeedsBlank? then {verdicts[0].k} else {}) + Wanting(verdicts[1..])
  }

  const BLANK_TOKEN := Token([EMPTY], Blank, 0)

  /** `id:` lines never close and reopen a body, and blank lines count no braces. */
  ghost predicate TokensWellFormed(toks: seq<Token>) {
    forall k :: 0 <= k < |toks| && toks[k].kind == Id ==> !Reopens(toks[k])
  }

  function Move(at: set<nat>, k: Option<nat>): Option<nat> {
    if k.None? then None else Some(Pos(at, k.value))
  }

  /** Blanks behind `id:` lines are stepped over: the walk finds the same lines again. */
  lemma {:induction false} WalkMoves(toks: seq<Token>, at: set<nat>, i: nat, end: nat, depth: int, content: Option<nat>)
    requires end <= |toks|
    requires forall k :: k in at && k < |toks| ==> toks[k].kind == Id
    ensures Pos(at, end) <= |Insert(toks, at, BLANK_TOKEN)|
    ensures var w := Walk(toks, i, end, depth, content);
            Walk(Insert(toks, at, BLANK_TOKEN), Pos(at, i), Pos(at, end), depth, Move(at, content))
            == Shallow(Move(at, w.content), Move(at, w.id))
    decreases end - i
  {
    hide Insert, Pos, Brace;
    var out := Insert(toks, at, BLANK_TOKEN);
    InsertLength(toks, at, BLANK_TOKEN);
    if end < |toks| { PosIncreases(at, end, |toks|); }
    if i >= end {
      if end < i { PosIncreases(at, end, i); }
    } else {
      PosIncreases(at, i, end);
      InsertAt(toks, at, BLANK_TOKEN, i);
      PosStep(at, i);
      if depth == 0 && (toks[i].kind == Blank || toks[i].kind == Comment) {
        WalkMoves(toks, at, i + 1, end, depth, content);
      } else if !(depth == 0 && toks[i].kind == Id) {
        var content' := if depth == 0 && content.None? then Some(i) else content;
        WalkMoves(toks, at, i + 1, end, depth + Brace(toks[i]), content');
        if i in at {
          InsertedBlank(out, Pos(at, i) + 1, Pos(at, end), depth + Brace(toks[i]), Move(at, content'));
        }
      }
    }
  }

  /** An inserted blank changes neither depth nor findings. */
  lemma {:induction false} InsertedBlank(out: seq<Token>, p: nat, end: nat, depth: int, content: Option<nat>)
    requires p < end <= |out| && out[p] == BLANK_TOKEN
    ensures Walk(out, p, end, depth, content) == Walk(out, p + 1, end, depth, content)
  {
    assert Brace(BLANK_TOKEN) == 0;
  }

  function After(at: set<nat>, v: Verdict): Verdict {
    match v
    case Quiet => Quiet
    case Misplaced(k) => Misplaced(Pos(at, k))
    case NeedsBlank(k) => if k in at then Quiet else NeedsBlank(Pos(at, k))
  }

  lemma {:induction false} WalkBounds(toks: seq<Token>, i: nat, end: nat, depth: int, content: Option<nat>)
    requires end <= |toks|
    ensures var w := Walk(toks, i, end, depth, content);
            w.id.Some? ==> i <= w.id.value < end && toks[w.id.value].kind == Id
    decreases end - i
  {
    if i < end {
      WalkBounds(toks, i + 1, end, depth, content);
      WalkBounds(toks, i + 1, end, depth + Brace(toks[i]), if depth == 0 && content.None? then Some(i) else content);
    }
  }

  lemma {:induction false} JudgeMoves(toks: seq<Token>, at: set<nat>, start: nat, end: nat)
    requires end <= |toks|
    requires forall k :: k in at && k < |toks| ==> toks[k].kind == Id
    ensures Pos(at, end) <= |Insert(toks, at, BLANK_TOKEN)|
    ensures Judge(Insert(toks, at, BLANK_TOKEN), Pos(at, start), Pos(at, end)) == After(at, Judge(toks, start, end))
  {
    hide Insert, Pos, Walk;
    var out := Insert(toks, at, BLANK_TOKEN);
    WalkMoves(toks, at, start, end, 0, None);
    WalkBounds(toks, start, end, 0, None);
    var w := Walk(toks, start, end, 0, None);
    if w.id.Some? {
      var k := w.id.value;
      InsertAt(toks, at, BLANK_TOKEN, k);
      PosStep(at, k);
      PosIncreases(at, k, end);
      if k + 1 < end {
        InsertAt(toks, at, BLANK_TOKEN, k + 1);
        PosIncreases(at, k + 1, end);
      }
    }
  }

  function MoveStack(at: set<nat>, stack: seq<nat>): (r: seq<nat>)
    ensures |r| == |stack| && forall i :: 0 <= i < |stack| ==> r[i] == Pos(at, stack[i])
  {
    seq(|stack|, i requires 0 <= i < |stack| => Pos(at, stack[i]))
  }

  lemma {:induction false} MoveStackPush(at: set<nat>, stack: seq<nat>, x: nat)
    ensures MoveStack(at, stack + [x]) == MoveStack(at, stack) + [Pos(at, x)]
    ensures MoveStack(at, Under(stack)) == Under(MoveStack(at, stack))
  {
  }

  function AllAfter(at: set<nat>, verdicts: seq<Verdict>): seq<Verdict> {
    if verdicts == [] then [] else [After(at, verdicts[0])] + AllAfter(at, verdicts[1..])
  }

  lemma {:induction false} AllAfterConcat(at: set<nat>, xs: seq<Verdict>, ys: seq<Verdict>)
    ensures AllAfter(at, xs + ys) == AllAfter(at, xs) + AllAfter(at, ys)
  {
    if xs == [] {
      assert xs + ys == ys;
    } else {
      assert (xs + ys)[1..] == xs[1..] + ys;
      AllAfterConcat(at, xs[1..], ys);
    }
  }

  lemma {:induction false} AllAfterCons(at: set<nat>, v: Verdict, rest: seq<Verdict>)
    ensures AllAfter(at, [v] + rest) == [After(at, v)] + AllAfter(at, rest)
  {
    assert ([v] + rest)[1..] == rest;
  }

  /** What the event on line `i` adds to the verdicts. */
  function Closing(toks: seq<Token>, i: nat, stack: seq<nat>): seq<Verdict>
    requires i < |toks|
  {
    if stack == [] || EventOf(toks[i]).Enter? || EventOf(toks[i]).Stay? then []
    else [Judge(toks, Top(stack), i)]
  }

  function NextStack(e: Event, stack: seq<nat>, next: nat): seq<nat> {
    match e
    case Enter => stack + [next]
    case Swap => Under(stack) + [next]
    case Leave => Under(stack)
    case Stay => stack
  }

  lemma {:induction false} VerdictsUnfold(toks: seq<Token>, i: nat, stack: seq<nat>)
    requires i < |toks|
    ensures Verdicts(toks, i, stack) ==
            Closing(toks, i, stack) + Verdicts(toks, i + 1, NextStack(EventOf(toks[i]), stack, i + 1))
  {
    hide Judge, EventOf;
  }

  /** Every verdict is the old one, with the insertions done: lines move, fixed ones are quiet. */
  lemma {:induction false} VerdictsMove(toks: seq<Token>, at: set<nat>, i: nat, stack: seq<nat>)
    requires i <= |toks| && TokensWellFormed(toks)
    requires forall k :: k in at && k < |toks| ==> toks[k].kind == Id
    ensures Pos(at, i) <= |Insert(toks, at, BLANK_TOKEN)|
    ensures Verdicts(Insert(toks, at, BLANK_TOKEN), Pos(at, i), MoveStack(at, stack))
         == AllAfter(at, Verdicts(toks, i, stack))
    decreases |toks| - i
  {
    hide Insert, Pos, Judge, EventOf, Verdicts, MoveStack, After, Closing, NextStack, TokensWellFormed, AllAfter;
    var out := Insert(toks, at, BLANK_TOKEN);
    InsertLength(toks, at, BLANK_TOKEN);
    if i == |toks| {
      AllAfterNone(at);
      VerdictsEnd(toks, stack);
      VerdictsEnd(out, MoveStack(at, stack));
    } else {
      InsertAt(toks, at, BLANK_TOKEN, i);
      PosStep(at, i);
      var e := EventOf(toks[i]);
      var next := NextStack(e, stack, i + 1);
      VerdictsUnfold(toks, i, stack);
      VerdictsUnfold(out, Pos(at, i), MoveStack(at, stack));
      NextStackMoves(toks, at, i, stack);
      ClosingMoves(toks, at, i, stack);
      if i in at {
        BlankStays(out, Pos(at, i) + 1, MoveStack(at, next));
      }
      VerdictsMove(toks, at, i + 1, next);
      AllAfterConcat(at, Closing(toks, i, stack), Verdicts(toks, i + 1, next));
    }
  }

  lemma {:induction false} AllAfterNone(at: set<nat>)
    ensures AllAfter(at, []) == []
  {
  }

  lemma {:induction false} BlankStays(out: seq<Token>, p: nat, stack: seq<nat>)
    requires p < |out| && out[p] == BLANK_TOKEN
    ensures Verdicts(out, p, stack) == Verdicts(out, p + 1, stack)
  {
  }

  lemma {:induction false} ClosingMoves(toks: seq<Token>, at: set<nat>, i: nat, stack: seq<nat>)
    requires i < |toks|
    requires forall k :: k in at && k < |toks| ==> toks[k].kind == Id
    ensures Pos(at, i) < |Insert(toks, at, BLANK_TOKEN)|
    ensures Closing(Insert(toks, at, BLANK_TOKEN), Pos(at, i), MoveStack(at, stack))
         == AllAfter(at, Closing(toks, i, stack))
  {
    hide Insert, Pos, Judge, EventOf, MoveStack, After;
    InsertAt(toks, at, BLANK_TOKEN, i);
    if stack != [] {
      JudgeMoves(toks, at, Top(stack), i);
      AllAfterCons(at, Judge(toks, Top(stack), i), []);
    }
  }

  lemma {:induction false} NextStackMoves(toks: seq<Token>, at: set<nat>, i: nat, stack: seq<nat>)
    requires i < |toks| && TokensWellFormed(toks)
    requires forall k :: k in at && k < |toks| ==> toks[k].kind == Id
    ensures NextStack(EventOf(toks[i]), MoveStack(at, stack), Pos(at, i) + 1)
         == MoveStack(at, NextStack(EventOf(toks[i]), stack, i + 1))
  {
    hide Pos, EventOf, MoveStack, TokensWellFormed, Under;
    PosStep(at, i);
    if i in at { IdOpensNothing(toks, i); }
    MoveStackPush(at, stack, i + 1);
    MoveStackPush(at, Under(stack), i + 1);
  }

  lemma {:induction false} IdOpensNothing(toks: seq<Token>, i: nat)
    requires i < |toks| && TokensWellFormed(toks) && toks[i].kind == Id
    ensures EventOf(toks[i]) != Enter && EventOf(toks[i]) != Swap
  {
  }

  lemma {:induction false} WantingAre(verdicts: seq<Verdict>, k: nat)
    ensures k in Wanting(verdicts) <==> NeedsBlank(k) in verdicts
  {
    if verdicts != [] {
      WantingAre(verdicts[1..], k);
      assert verdicts == [verdicts[0]] + verdicts[1..];
    }
  }

  lemma {:induction false} WantingIds(toks: seq<Token>, i: nat, stack: seq<nat>, k: nat)
    requires i <= |toks| && NeedsBlank(k) in Verdicts(toks, i, stack)
    ensures k + 1 < |toks| && toks[k].kind == Id
    decreases |toks| - i
  {
    hide Judge, EventOf, Verdicts;
    if i == |toks| {
      VerdictsEnd(toks, stack);
    } else {
      VerdictsUnfold(toks, i, stack);
      var next := NextStack(EventOf(toks[i]), stack, i + 1);
      if NeedsBlank(k) in Verdicts(toks, i + 1, next) {
        WantingIds(toks, i + 1, next, k);
      } else {
        assert Judge(toks, Top(stack), i) == NeedsBlank(k);
        JudgeBlank(toks, Top(stack), i, k);
      }
    }
  }

  lemma {:induction false} JudgeBlank(toks: seq<Token>, start: nat, end: nat, k: nat)
    requires end <= |toks| && Judge(toks, start, end) == NeedsBlank(k)
    ensures k + 1 < end && toks[k].kind == Id
  {
    WalkBounds(toks, start, end, 0, None);
  }

  lemma {:induction false} NoneWanting(at: set<nat>, verdicts: seq<Verdict>)
    requires Wanting(verdicts) <= at
    ensures Wanting(AllAfter(at, verdicts)) == {}
    ensures forall k :: Misplaced(k) in verdicts ==> Misplaced(Pos(at, k)) in AllAfter(at, verdicts)
  {
    if verdicts != [] {
      NoneWanting(at, verdicts[1..]);
      AllAfterCons(at, verdicts[0], verdicts[1..]);
      var out := AllAfter(at, verdicts);
      assert out[1..] == AllAfter(at, verdicts[1..]);
      forall k | Misplaced(k) in verdicts
        ensures Misplaced(Pos(at, k)) in out
      {
        if verdicts[0] == Misplaced(k) {
          assert out[0] == Misplaced(Pos(at, k));
        } else {
          assert Misplaced(k) in verdicts[1..];
          assert Misplaced(Pos(at, k)) in out[1..];
        }
      }
    }
  }

  /** With the blanks in place the check asks for no further blank, whatever the nesting of
      bodies, and every misplaced `id:` is still reported. */
  lemma {:induction false} BlanksSettleIds(toks: seq<Token>)
    requires TokensWellFormed(toks)
    ensures var before := Verdicts(toks, 0, []);
            var at := Wanting(before);
            var after := Verdicts(Insert(toks, at, BLANK_TOKEN), 0, []);
            && Wanting(after) == {}
            && forall k :: Misplaced(k) in before ==> Misplaced(Pos(at, k)) in after
  {
    var before := Verdicts(toks, 0, []);
    var at := Wanting(before);
    forall k | k in at && k < |toks|
      ensures toks[k].kind == Id
    {
      WantingAre(before, k);
      WantingIds(toks, 0, [], k);
    }
    VerdictsMove(toks, at, 0, []);
    NoneWanting(at, before);
  }
}
