/** Exactly when `emit_statement` keeps the string literals of a statement: a test on the statement and on
    the places where it is cut. */
module LiteralCuts {
  import opened Text
  import opened Splitting
  import opened LineWrap
  import opened Literals

  // ----- The text that filling writes -----

  function Gap(line: string): string {
    if EndsWith(line, ",") then " " else ""
  }

  /** Whether the next piece starts a new line. */
  predicate Breaks(line: string, piece: string) {
    |line + Gap(line) + piece| > MAX_COLS && !EndsWith(line, "(")
  }

  /** What stands in front of a piece: a line break and the margin, a space behind a comma, or nothing. */
  function Separator(line: string, margin: nat, piece: string): string {
    if Breaks(line, piece) then ['\n'] + Spaces(margin) else Gap(line)
  }

  function NextLine(line: string, margin: nat, piece: string): string {
    if Breaks(line, piece) then Spaces(margin) + piece else line + Gap(line) + piece
  }

  /** What is written behind `line`. */
  function FillText(args: seq<string>, k: nat, line: string, margin: nat): string
    decreases |args| - k
  {
    if k >= |args| then ""
    else
      var piece := Piece(args, k);
      Separator(line, margin, piece) + piece + FillText(args, k + 1, NextLine(line, margin, piece), margin)
  }

  lemma {:induction false} FillIs(args: seq<string>, k: nat, line: string, margin: nat)
    ensures Join(Fill(args, k, line, margin), '\n') == line + FillText(args, k, line, margin)
    decreases |args| - k
  {
    hide Piece, Spaces, EndsWith;
    if k >= |args| {
      assert line + "" == line;
    } else {
      var piece := Piece(args, k);
      var next := NextLine(line, margin, piece);
      var rest := FillText(args, k + 1, next, margin);
      FillIs(args, k + 1, next, margin);
      if Breaks(line, piece) {
        var more := Fill(args, k + 1, next, margin);
        assert ([line] + more)[1..] == more;
        assert line + ['\n'] + (Spaces(margin) + piece + rest) == line + (['\n'] + Spaces(margin) + piece + rest);
      } else {
        assert line + Gap(line) + piece + rest == line + (Gap(line) + piece + rest);
      }
    }
  }

  // ----- Literals split at a character that is no whitespace -----

  lemma {:induction false} BehindTight(s: string, m: Mode)
    ensures Behind(Tight(s, m), m) == Behind(s, m)
    decreases |s|
  {
    hide Tight, Behind, Next;
    TightStep(s, m);
    if s != [] {
      BehindTight(s[1..], Next(m, s[0]));
      if m.Code? && IsSpace(s[0]) {
        SpaceStays(s[0]);
        assert [] + Tight(s[1..], Next(m, s[0])) == Tight(s[1..], Next(m, s[0]));
      } else {
        var t := [s[0]] + Tight(s[1..], Next(m, s[0]));
        TightStep(t, m);
        assert t[1..] == Tight(s[1..], Next(m, s[0]));
      }
    }
  }

  lemma {:induction false} SpaceStays(c: char)
    requires IsSpace(c)
    ensures Next(CODE, c) == CODE
  {
  }

  lemma {:induction false} TightSqueezes(s: string, m: Mode)
    ensures Squeeze(Tight(s, m)) == Squeeze(s)
    decreases |s|
  {
    hide Tight, Behind, Next;
    TightStep(s, m);
    if s != [] {
      TightSqueezes(s[1..], Next(m, s[0]));
      if m.Code? && IsSpace(s[0]) {
        assert [] + Tight(s[1..], Next(m, s[0])) == Tight(s[1..], Next(m, s[0]));
      } else {
        assert ([s[0]] + Tight(s[1..], Next(m, s[0])))[1..] == Tight(s[1..], Next(m, s[0]));
      }
    }
  }

  /** The leading gap of a text that goes on is the leading gap of its first part. */
  lemma {:induction false} LeadGoesOn(p: string, c: char, r: string)
    requires !IsSpace(c)
    ensures SkipSpaces(p + [c] + r, 0) == SkipSpaces(p, 0)
  {
    var i := SkipSpaces(p, 0);
    var x := p[i..] + [c] + r;
    assert p + [c] + r == p[..i] + x;
    assert x[0] == if i < |p| then p[i] else c;
    LeadIs(p[..i], x);
  }

  lemma {:induction false} GapsStep(a: string, b: string, m: Mode)
    ensures var i, j := SkipSpaces(a, 0), SkipSpaces(b, 0);
            SameGaps(a, b, m) <==>
              && (m.Code? || a[..i] == b[..j])
              && if i == |a| || j == |b| then i == |a| && j == |b|
                 else a[i] == b[j] && SameGaps(a[i + 1..], b[j + 1..], Next(Behind(a[..i], m), a[i]))
  {
    hide Behind, Next;
  }

  /** Gaps that agree up to the end agree up to a character in between. */
  lemma {:induction false} GapsSplit(p: string, a: string, c: char, r: string, b: string, m: Mode)
    requires !IsSpace(c) && Squeeze(p) == Squeeze(a)
    requires SameGaps(p + [c] + r, a + [c] + b, m)
    ensures SameGaps(p + [c], a + [c], m)
    decreases |p|
  {
    hide Squeeze, Behind, Next, SameGaps, SkipSpaces;
    var u, v := p + [c] + r, a + [c] + b;
    var s, t := p + [c], a + [c];
    var i, j := SkipSpaces(p, 0), SkipSpaces(a, 0);
    GapsStep(u, v, m);
    GapsStep(s, t, m);
    LeadSlices(p, c, r);
    LeadSlices(a, c, b);
    FirstsAgree(p, a);
    if i < |p| {
      GapsSplit(p[i + 1..], a[j + 1..], c, r, b, Next(Behind(p[..i], m), p[i]));
    } else {
      NoGaps(Next(Behind(s[..i], m), s[i]));
    }
  }

  /** The parts of a text that goes on behind `p` and `c`. */
  lemma {:induction false} LeadSlices(p: string, c: char, r: string)
    requires !IsSpace(c)
    ensures var i, u, s := SkipSpaces(p, 0), p + [c] + r, p + [c];
            && SkipSpaces(u, 0) == SkipSpaces(s, 0) == i
            && u[..i] == s[..i] == p[..i]
            && (i < |p| ==> u[i] == s[i] == p[i] && u[i + 1..] == p[i + 1..] + [c] + r && s[i + 1..] == p[i + 1..] + [c])
            && (i == |p| ==> s[i] == c && s[i + 1..] == "")
  {
    LeadGoesOn(p, c, r);
    LeadGoesOn(p, c, "");
    assert p + [c] + "" == p + [c];
  }

  lemma {:induction false} FirstsAgree(p: string, a: string)
    requires Squeeze(p) == Squeeze(a)
    ensures var i, j := SkipSpaces(p, 0), SkipSpaces(a, 0);
            && (i == |p| <==> j == |a|)
            && (i < |p| ==> p[i] == a[j] && Squeeze(p[i + 1..]) == Squeeze(a[j + 1..]))
  {
    hide Squeeze, SkipSpaces;
    LeadingGap(p, CODE);
    LeadingGap(a, CODE);
    var i, j := SkipSpaces(p, 0), SkipSpaces(a, 0);
    if i < |p| && j < |a| {
      assert Squeeze(p)[1..] == Squeeze(p[i + 1..]) && Squeeze(a)[1..] == Squeeze(a[j + 1..]);
    }
  }

  lemma {:induction false} NoGaps(m: Mode)
    ensures SameGaps("", "", m)
  {
  }

  /** Texts that keep their literals as a whole keep them up to a character in between. */
  lemma {:induction false} TightSplits(p: string, a: string, c: char, r: string, b: string, m: Mode)
    requires !IsSpace(c) && Squeeze(p) == Squeeze(a)
    requires Tight(p + [c] + r, m) == Tight(a + [c] + b, m)
    ensures Tight(p, m) == Tight(a, m)
  {
    hide Squeeze, Tight, Behind, SameGaps;
    TightSqueezes(p + [c] + r, m);
    TightSqueezes(a + [c] + b, m);
    LiteralsKeptExactly(p + [c] + r, a + [c] + b, m);
    GapsSplit(p, a, c, r, b, m);
    SqueezeAppend(p, [c]);
    SqueezeAppend(a, [c]);
    LiteralsKeptExactly(p + [c], a + [c], m);
    TightAppend(p, [c], m);
    TightAppend(a, [c], m);
    OneTight(c, Behind(p, m));
    OneTight(c, Behind(a, m));
    assert Tight(p, m) == (Tight(p, m) + [c])[..|Tight(p, m)|];
    assert Tight(a, m) == (Tight(a, m) + [c])[..|Tight(a, m)|];
    assert |Tight(p, m) + [c]| == |Tight(a, m) + [c]|;
  }

  lemma {:induction false} OneTight(c: char, m: Mode)
    requires !IsSpace(c)
    ensures Tight([c], m) == [c]
  {
    assert [c][1..] == [];
  }

  lemma {:induction false} Cancel(x: string, y: string, z: string)
    ensures x + y == x + z <==> y == z
  {
    if x + y == x + z {
      assert y == (x + y)[|x|..] && z == (x + z)[|x|..];
    }
  }

  // ----- Exactly when -----

  /** From argument `k` on, met in mode `m`: what is put in front of it and stripped off it changes no literal. */
  predicate FillKeeps(args: seq<string>, k: nat, line: string, margin: nat, m: Mode)
    decreases |args| - k
  {
    k >= |args| ||
    var piece := Piece(args, k);
    && Tight(Separator(line, margin, piece) + Strip(args[k]), m) == Tight(args[k], m)
    && FillKeeps(args, k + 1, NextLine(line, margin, piece), margin,
                 Behind(args[k] + if k + 1 < |args| then "," else "", m))
  }

  lemma {:induction false} SeparatorIsSpace(line: string, margin: nat, piece: string)
    ensures Squeeze(Separator(line, margin, piece)) == []
  {
    hide EndsWith;
    SqueezeSpaces(Separator(line, margin, piece));
  }

  lemma {:induction false} FillKept(args: seq<string>, k: nat, line: string, margin: nat, m: Mode)
    requires k <= |args|
    ensures Tight(FillText(args, k, line, margin), m) == Tight(Join(args[k..], ','), m)
            <==> FillKeeps(args, k, line, margin, m)
    decreases |args| - k
  {
    hide Tight, Behind, Squeeze, Join, Strip, Separator, NextLine, Breaks, FillText, FillKeeps;
    if k == |args| {
      NothingFilled(args, line, margin, m);
    } else {
      var piece := Piece(args, k);
      var a := args[k];
      var p := Separator(line, margin, piece) + Strip(a);
      var next := NextLine(line, margin, piece);
      FillStep(args, k, line, margin, m);
      SeparatorIsSpace(line, margin, piece);
      SqueezeAppend(Separator(line, margin, piece), Strip(a));
      SqueezeStrip(a);
      assert [] + Squeeze(a) == Squeeze(a);
      if k + 1 < |args| {
        FillKept(args, k + 1, next, margin, Behind(a + ",", m));
        OnePiece(p, a, FillText(args, k + 1, next, margin), Join(args[k + 1..], ','), m);
      }
    }
  }

  lemma {:induction false} NothingFilled(args: seq<string>, line: string, margin: nat, m: Mode)
    ensures FillText(args, |args|, line, margin) == "" == Join(args[|args|..], ',')
    ensures FillKeeps(args, |args|, line, margin, m)
  {
    assert args[|args|..] == [];
  }

  /** What one piece contributes to the written and to the original text. */
  lemma {:induction false} FillStep(args: seq<string>, k: nat, line: string, margin: nat, m: Mode)
    requires k < |args|
    ensures var piece := Piece(args, k);
            var p := Separator(line, margin, piece) + Strip(args[k]);
            var next := NextLine(line, margin, piece);
            && (k + 1 < |args| ==>
                  && FillText(args, k, line, margin) == p + [','] + FillText(args, k + 1, next, margin)
                  && Join(args[k..], ',') == args[k] + [','] + Join(args[k + 1..], ',')
                  && (FillKeeps(args, k, line, margin, m) <==>
                        Tight(p, m) == Tight(args[k], m)
                        && FillKeeps(args, k + 1, next, margin, Behind(args[k] + ",", m))))
            && (k + 1 == |args| ==>
                  && FillText(args, k, line, margin) == p && Join(args[k..], ',') == args[k]
                  && (FillKeeps(args, k, line, margin, m) <==> Tight(p, m) == Tight(args[k], m)))
  {
    hide Tight, Behind, Join, Strip, Separator, NextLine;
    JoinFrom(args, k);
    var piece := Piece(args, k);
    var sep := Separator(line, margin, piece);
    if k + 1 < |args| {
      var r := FillText(args, k + 1, NextLine(line, margin, piece), margin);
      assert sep + (Strip(args[k]) + ",") + r == (sep + Strip(args[k])) + [','] + r;
    } else {
      assert args[k] + "" == args[k];
      assert sep + (Strip(args[k]) + "") + "" == sep + Strip(args[k]);
    }
  }

  /** A piece and what follows it: kept as a whole exactly when both are. */
  lemma {:induction false} OnePiece(p: string, a: string, r: string, b: string, m: Mode)
    requires Squeeze(p) == Squeeze(a)
    ensures var m' := Behind(a + ",", m);
            Tight(p + [','] + r, m) == Tight(a + [','] + b, m)
            <==> Tight(p, m) == Tight(a, m) && Tight(r, m') == Tight(b, m')
  {
    hide Tight, Behind, Squeeze;
    if Tight(p + [','] + r, m) == Tight(a + [','] + b, m) {
      TightSplits(p, a, ',', r, b, m);
    }
    if Tight(p, m) == Tight(a, m) {
      BehindTight(p, m);
      BehindTight(a, m);
      TightAppend(p, ",", m);
      TightAppend(a, ",", m);
      TightAppend(p + [','], r, m);
      TightAppend(a + [','], b, m);
      Cancel(Tight(a + [','], m), Tight(r, Behind(a + ",", m)), Tight(b, Behind(a + ",", m)));
    }
  }

  predicate BreakKeeps(indent: string, text: string) {
    var open := CallBreak(text, 0);
    open < 0 ||
    var head := indent + text[..open + 1];
    FillKeeps(Args(text[open + 1..], 0, 0, ""), 0, head, |head|, Behind(text[..open + 1], CODE))
  }

  /** The test: no ` = ` is cut inside a literal, and no argument whose literal the cut at a comma would change. */
  predicate Keeps(indent: string, text: string)
    decreases |text|
  {
    |indent + text| <= MAX_COLS ||
    var at := Assignment(text, 0);
    var tail := if at.Some? then EmitStatement(indent + "  ", text[at.value + 3..]) else [];
    if at.Some? && |indent| + at.value + 2 <= MAX_COLS && (|tail| == 1 || |tail[0]| <= MAX_COLS) then
      Behind(text[..at.value], CODE).Code? && Keeps(indent + "  ", text[at.value + 3..])
    else BreakKeeps(indent, text)
  }

  /** Main result: the emitter keeps the literals of a statement, line breaks included, if and only if the
      statement passes the test. */
  lemma {:induction false} EmitKeepsLiteralsExactly(indent: string, text: string)
    requires forall i :: 0 <= i < |indent| ==> IsSpace(indent[i])
    ensures Tight(Join(EmitStatement(indent, text), '\n'), CODE) == Tight(text, CODE) <==> Keeps(indent, text)
    decreases |text|
  {
    hide Tight, Behind, Assignment, CallBreak, Args, Fill, Join, BreakKeeps;
    OneLineKept(indent, text);
    var at := Assignment(text, 0);
    if |indent + text| > MAX_COLS {
      var tail := if at.Some? then EmitStatement(indent + "  ", text[at.value + 3..]) else [];
      if at.Some? && |indent| + at.value + 2 <= MAX_COLS && (|tail| == 1 || |tail[0]| <= MAX_COLS) {
        EmitKeepsLiteralsExactly(indent + "  ", text[at.value + 3..]);
        JoinCons(indent + text[..at.value] + " =", tail);
        AssignmentKept(indent, text, at.value, Join(tail, '\n'));
      } else {
        BrokenKept(indent, text);
      }
    }
  }

  lemma {:induction false} JoinCons(line: string, lines: seq<string>)
    requires lines != []
    ensures Join([line] + lines, '\n') == line + ['\n'] + Join(lines, '\n')
  {
    assert ([line] + lines)[1..] == lines;
  }

  lemma {:induction false} OneLineKept(indent: string, text: string)
    requires forall i :: 0 <= i < |indent| ==> IsSpace(indent[i])
    ensures Join([indent + text], '\n') == indent + text
    ensures Tight(indent + text, CODE) == Tight(text, CODE)
  {
    hide Tight, Behind;
    TightAppend(indent, text, CODE);
    TightSpaces(indent, CODE);
    assert [] + Tight(text, CODE) == Tight(text, CODE);
  }

  /** A line break in place of the space behind `=` keeps a literal exactly when it stands in code. */
  lemma {:induction false} AssignmentKept(indent: string, text: string, at: nat, written: string)
    requires forall i :: 0 <= i < |indent| ==> IsSpace(indent[i])
    requires at + 3 <= |text| && text[at..at + 3] == " = "
    ensures Tight(indent + text[..at] + " =" + ['\n'] + written, CODE) == Tight(text, CODE)
            <==> Behind(text[..at], CODE).Code? && Tight(written, CODE) == Tight(text[at + 3..], CODE)
  {
    hide Tight, Behind;
    var name, rhs := text[..at], text[at + 3..];
    var n := Behind(name, CODE);
    assert text == name + (" =" + ([' '] + rhs));
    assert indent + text[..at] + " =" + ['\n'] + written == indent + (name + (" =" + (['\n'] + written)));
    OneLineKept(indent, name + (" =" + (['\n'] + written)));
    TightAppend(name, " =" + ([' '] + rhs), CODE);
    TightAppend(name, " =" + (['\n'] + written), CODE);
    TightAppend(" =", [' '] + rhs, n);
    TightAppend(" =", ['\n'] + written, n);
    EqualsIn(n);
    var n' := Behind(" =", n);
    Cancel(Tight(name, CODE), Tight(" =" + ([' '] + rhs), n), Tight(" =" + (['\n'] + written), n));
    Cancel(Tight(" =", n), Tight([' '] + rhs, n'), Tight(['\n'] + written, n'));
    TightAppend([' '], rhs, n');
    TightAppend(['\n'], written, n');
    TightSpaces([' '], n');
    TightSpaces(['\n'], n');
    if n.Code? {
      assert [] + Tight(rhs, CODE) == Tight(rhs, CODE) && [] + Tight(written, CODE) == Tight(written, CODE);
    } else {
      assert Tight([' '] + rhs, n')[0] == ' ';
      assert Tight(['\n'] + written, n')[0] == '\n';
    }
  }

  lemma {:induction false} EqualsIn(m: Mode)
    ensures Behind(" =", m).Code? <==> m.Code?
  {
    assert " ="[1..] == "=" && "="[1..] == "";
  }

  lemma {:induction false} BrokenKept(indent: string, text: string)
    requires forall i :: 0 <= i < |indent| ==> IsSpace(indent[i])
    ensures Tight(Join(Broken(indent, text), '\n'), CODE) == Tight(text, CODE) <==> BreakKeeps(indent, text)
  {
    hide Tight, Behind, CallBreak, Args, Fill, FillKeeps, FillText, Join;
    OneLineKept(indent, text);
    var open := CallBreak(text, 0);
    if open >= 0 {
      var front, rest := text[..open + 1], text[open + 1..];
      var head := indent + front;
      var args := Args(rest, 0, 0, "");
      var written := FillText(args, 0, head, |head|);
      FillIs(args, 0, head, |head|);
      FillKept(args, 0, head, |head|, Behind(front, CODE));
      assert args[0..] == args;
      ArgsJoin(rest, 0, 0, "");
      assert "" + rest[0..] == rest && text == front + rest;
      assert head + written == indent + (front + written);
      OneLineKept(indent, front + written);
      TightAppend(front, written, CODE);
      TightAppend(front, rest, CODE);
      Cancel(Tight(front, CODE), Tight(written, Behind(front, CODE)), Tight(rest, Behind(front, CODE)));
    }
  }
}
