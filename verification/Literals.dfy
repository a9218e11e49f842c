/** What line wrapping does to string literals. The emitter looks at no quote, so a comma, an opener or
    a ` = ` inside a literal is a place to cut like any other. */
module Literals {
  import opened Text
  import opened Splitting
  import opened LineWrap
  import Sanitizer

  predicate Proper(m: Sanitizer.Mode) {
    m.Code? || Sanitizer.IsQuote(m.quote)
  }

  /** In code, or in a literal that a quote character opened. */
  type Mode = m: Sanitizer.Mode | Proper(m) witness Sanitizer.Code

  const CODE: Mode := Sanitizer.Code

  function Next(m: Mode, c: char): Mode {
    Sanitizer.Step(m, c)
  }

  /** The mode behind `s`, when `s` starts in mode `m`. */
  function Behind(s: string, m: Mode): Mode {
    if s == [] then m else Behind(s[1..], Next(m, s[0]))
  }

  /** The text without the whitespace of its code: literals stay as they are. */
  function Tight(s: string, m: Mode): string {
    if s == [] then []
    else (if m.Code? && IsSpace(s[0]) then [] else [s[0]]) + Tight(s[1..], Next(m, s[0]))
  }

  lemma {:induction false} TightStep(s: string, m: Mode)
    ensures s == [] ==> Tight(s, m) == [] && Behind(s, m) == m
    ensures s != [] ==>
              && Tight(s, m) == (if m.Code? && IsSpace(s[0]) then [] else [s[0]]) + Tight(s[1..], Next(m, s[0]))
              && Behind(s, m) == Behind(s[1..], Next(m, s[0]))
  {
    hide Next;
  }

  lemma {:induction false} Grouping(a: string, b: string, c: string)
    ensures a + (b + c) == (a + b) + c
  {
  }

  lemma {:induction false} TightAppend(a: string, b: string, m: Mode)
    ensures Tight(a + b, m) == Tight(a, m) + Tight(b, Behind(a, m))
    ensures Behind(a + b, m) == Behind(b, Behind(a, m))
    decreases |a|
  {
    hide Next, Tight, Behind;
    TightStep(a, m);
    TightStep(a + b, m);
    if a == [] {
      assert a + b == b;
      assert [] + Tight(b, m) == Tight(b, m);
    } else {
      assert (a + b)[1..] == a[1..] + b;
      TightAppend(a[1..], b, Next(m, a[0]));
      var first := if m.Code? && IsSpace(a[0]) then [] else [a[0]];
      Grouping(first, Tight(a[1..], Next(m, a[0])), Tight(b, Behind(a, m)));
    }
  }

  /** Whitespace vanishes from code and stays in a literal, and neither opens nor closes one. */
  lemma {:induction false} TightSpaces(s: string, m: Mode)
    requires forall i :: 0 <= i < |s| ==> IsSpace(s[i])
    ensures m.Code? ==> Tight(s, m) == [] && Behind(s, m) == CODE
    ensures !m.Code? ==> Tight(s, m) == s && !Behind(s, m).Code?
    decreases |s|
  {
    if s != [] {
      TightSpaces(s[1..], Next(m, s[0]));
      assert s == [s[0]] + s[1..];
    }
  }

  /** Text that starts and ends in code may be stripped. */
  lemma {:induction false} TightStrip(s: string)
    requires Behind(s, CODE) == CODE
    ensures Tight(Strip(s), CODE) == Tight(s, CODE) && Behind(Strip(s), CODE) == CODE
  {
    hide Tight, Behind;
    var r := RStrip(s);
    var l := LStrip(r);
    var lead, tail := r[..|r| - |l|], s[|r|..];
    assert s == r + tail && r == lead + l;
    TightAppend(r, tail, CODE);
    TightSpaces(tail, Behind(r, CODE));
    TightAppend(lead, l, CODE);
    TightSpaces(lead, CODE);
    assert Tight(r, CODE) + [] == Tight(r, CODE) && [] + Tight(l, CODE) == Tight(l, CODE);
  }

  /** The lines one by one, each read from code on. */
  function TightAll(lines: seq<string>): string {
    if lines == [] then [] else Tight(lines[0], CODE) + TightAll(lines[1..])
  }

  /** No literal is open at the end of a line. */
  predicate Closed(lines: seq<string>) {
    forall k :: 0 <= k < |lines| ==> Behind(lines[k], CODE) == CODE
  }

  lemma {:induction false} TightCons(line: string, lines: seq<string>)
    ensures TightAll([line] + lines) == Tight(line, CODE) + TightAll(lines)
    ensures Closed([line] + lines) <==> Behind(line, CODE) == CODE && Closed(lines)
  {
    assert ([line] + lines)[1..] == lines;
    assert forall k :: 0 <= k < |lines| ==> ([line] + lines)[k + 1] == lines[k];
  }

  lemma {:induction false} PieceTight(args: seq<string>, k: nat)
    requires k < |args| && Closed(args)
    ensures Behind(Piece(args, k), CODE) == CODE
    ensures Tight(Piece(args, k), CODE) + Tight(Join(args[k + 1..], ','), CODE) == Tight(Join(args[k..], ','), CODE)
  {
    hide Join, Strip, Tight, Behind;
    JoinFrom(args, k);
    TightStrip(args[k]);
    CommaTight();
    if k + 1 < |args| {
      var rest := Join(args[k + 1..], ',');
      TightAppend(Strip(args[k]), ",", CODE);
      TightAppend(args[k], "," + rest, CODE);
      TightAppend(",", rest, CODE);
    } else {
      assert args[k + 1..] == [];
      assert Strip(args[k]) + "" == Strip(args[k]) && args[k] + "" == args[k];
      JoinNothing();
    }
  }

  lemma {:induction false} CommaTight()
    ensures Tight(",", CODE) == "," && Behind(",", CODE) == CODE && Tight("", CODE) == "" && Behind("", CODE) == CODE
  {
    assert ","[1..] == "";
  }

  lemma {:induction false} FillTight(args: seq<string>, k: nat, line: string, margin: nat)
    requires k <= |args| && Closed(args) && Behind(line, CODE) == CODE
    ensures Closed(Fill(args, k, line, margin))
    ensures TightAll(Fill(args, k, line, margin)) == Tight(line, CODE) + Tight(Join(args[k..], ','), CODE)
    decreases |args| - k
  {
    hide Tight, Behind, Piece, Join, Spaces, Closed, TightAll, EndsWith;
    if k == |args| {
      CommaTight();
      assert args[k..] == [];
      JoinNothing();
      TightCons(line, []);
      NoLines();
      assert [line] + [] == [line];
    } else {
      var piece := Piece(args, k);
      var gap := if EndsWith(line, ",") then " " else "";
      var candidate := line + gap + piece;
      PieceTight(args, k);
      if |candidate| > MAX_COLS && !EndsWith(line, "(") {
        var next := Spaces(margin) + piece;
        TightAppend(Spaces(margin), piece, CODE);
        TightSpaces(Spaces(margin), CODE);
        FillTight(args, k + 1, next, margin);
        TightCons(line, Fill(args, k + 1, next, margin));
      } else {
        TightAppend(line + gap, piece, CODE);
        TightAppend(line, gap, CODE);
        TightSpaces(gap, CODE);
        FillTight(args, k + 1, candidate, margin);
      }
    }
  }

  lemma {:induction false} NoLines()
    ensures TightAll([]) == [] && Closed([])
  {
  }

  /** Every place where the emitter cuts the statement lies in code: the ` = `, the opener and each comma. */
  predicate CutsInCode(indent: string, text: string)
    decreases |text|
  {
    |indent + text| <= MAX_COLS ||
    var at := Assignment(text, 0);
    var tail := if at.Some? then EmitStatement(indent + "  ", text[at.value + 3..]) else [];
    if at.Some? && |indent| + at.value + 2 <= MAX_COLS && (|tail| == 1 || |tail[0]| <= MAX_COLS) then
      Behind(text[..at.value], CODE) == CODE && CutsInCode(indent + "  ", text[at.value + 3..])
    else BreakInCode(text)
  }

  predicate BreakInCode(text: string) {
    var open := CallBreak(text, 0);
    open < 0 || (Behind(text[..open + 1], CODE) == CODE && Closed(Args(text[open + 1..], 0, 0, "")))
  }

  /** Main result on literals: when no cut lies in a literal, no literal is broken over two lines, and the
      statement keeps everything but the whitespace of its code. */
  lemma {:induction false} LiteralsSurvive(indent: string, text: string)
    requires forall i :: 0 <= i < |indent| ==> IsSpace(indent[i])
    requires Behind(text, CODE) == CODE && CutsInCode(indent, text)
    ensures Closed(EmitStatement(indent, text))
    ensures TightAll(EmitStatement(indent, text)) == Tight(text, CODE)
    decreases |text|
  {
    hide Tight, Behind, Assignment, CallBreak, Args, Fill, Closed, TightAll, BreakInCode;
    OneLineTight(indent, text);
    var at := Assignment(text, 0);
    if |indent + text| > MAX_COLS {
      var tail := if at.Some? then EmitStatement(indent + "  ", text[at.value + 3..]) else [];
      if at.Some? && |indent| + at.value + 2 <= MAX_COLS && (|tail| == 1 || |tail[0]| <= MAX_COLS) {
        AssignmentTight(indent, text, at.value);
        LiteralsSurvive(indent + "  ", text[at.value + 3..]);
        TightCons(indent + text[..at.value] + " =", tail);
      } else {
        BrokenTight(indent, text);
      }
    }
  }

  lemma {:induction false} OneLineTight(indent: string, text: string)
    requires forall i :: 0 <= i < |indent| ==> IsSpace(indent[i])
    requires Behind(text, CODE) == CODE
    ensures TightAll([indent + text]) == Tight(text, CODE) && Closed([indent + text])
  {
    hide Tight, Behind, Closed, TightAll;
    TightAppend(indent, text, CODE);
    TightSpaces(indent, CODE);
    TightCons(indent + text, []);
    NoLines();
    assert [indent + text] + [] == [indent + text];
  }

  lemma {:induction false} AssignmentTight(indent: string, text: string, at: nat)
    requires forall i :: 0 <= i < |indent| ==> IsSpace(indent[i])
    requires at + 3 <= |text| && text[at..at + 3] == " = "
    requires Behind(text, CODE) == CODE && Behind(text[..at], CODE) == CODE
    ensures Behind(indent + text[..at] + " =", CODE) == CODE && Behind(text[at + 3..], CODE) == CODE
    ensures Tight(indent + text[..at] + " =", CODE) + Tight(text[at + 3..], CODE) == Tight(text, CODE)
  {
    hide Tight, Behind;
    var name, rhs := text[..at], text[at + 3..];
    assert text == name + " = " + rhs;
    TightAppend(name + " = ", rhs, CODE);
    TightAppend(name, " = ", CODE);
    TightAppend(indent + name, " =", CODE);
    TightAppend(indent, name, CODE);
    TightSpaces(indent, CODE);
    assert " = " == " =" + " ";
    TightAppend(" =", " ", CODE);
    TightSpaces(" ", CODE);
    EqualsTight();
  }

  lemma {:induction false} EqualsTight()
    ensures Behind(" =", CODE) == CODE
  {
    assert " ="[1..] == "=" && "="[1..] == "";
  }

  lemma {:induction false} BrokenTight(indent: string, text: string)
    requires forall i :: 0 <= i < |indent| ==> IsSpace(indent[i])
    requires Behind(text, CODE) == CODE && BreakInCode(text)
    ensures Closed(Broken(indent, text)) && TightAll(Broken(indent, text)) == Tight(text, CODE)
  {
    hide Tight, Behind, CallBreak, Args, Fill, Closed, TightAll;
    OneLineTight(indent, text);
    var open := CallBreak(text, 0);
    if open >= 0 {
      var head := indent + text[..open + 1];
      var rest := text[open + 1..];
      var args := Args(rest, 0, 0, "");
      TightAppend(indent, text[..open + 1], CODE);
      TightSpaces(indent, CODE);
      FillTight(args, 0, head, |head|);
      assert args[0..] == args;
      ArgsJoin(rest, 0, 0, "");
      assert "" + rest[0..] == rest;
      assert text == text[..open + 1] + rest;
      TightAppend(text[..open + 1], rest, CODE);
    }
  }

  // The cuts look at no quote, so a literal with a comma at depth 0 is a place to cut.

  /** The two texts have the same whitespace inside literals, gap by gap; in code gaps may differ. */
  predicate SameGaps(a: string, b: string, m: Mode)
    decreases |a|
  {
    var i, j := SkipSpaces(a, 0), SkipSpaces(b, 0);
    && (m.Code? || a[..i] == b[..j])
    && if i == |a| || j == |b| then i == |a| && j == |b|
       else a[i] == b[j] && SameGaps(a[i + 1..], b[j + 1..], Next(Behind(a[..i], m), a[i]))
  }

  lemma {:induction false} LeadingGap(s: string, m: Mode)
    ensures var i := SkipSpaces(s, 0);
            && Squeeze(s) == (if i == |s| then [] else [s[i]] + Squeeze(s[i + 1..]))
            && Tight(s, m) == (if m.Code? then [] else s[..i]) +
                 (if i == |s| then [] else [s[i]] + Tight(s[i + 1..], Next(Behind(s[..i], m), s[i])))
            && (m.Code? ==> Behind(s[..i], m) == CODE)
  {
    hide Squeeze, Tight, Behind;
    var i := SkipSpaces(s, 0);
    assert s == s[..i] + s[i..];
    SqueezeAppend(s[..i], s[i..]);
    SqueezeSpaces(s[..i]);
    TightAppend(s[..i], s[i..], m);
    TightSpaces(s[..i], m);
    if i < |s| {
      assert s[i..] == [s[i]] + s[i + 1..] && s[i..][1..] == s[i + 1..];
      HeadStays(s[i..], Behind(s[..i], m));
    } else {
      assert s[i..] == [];
      NothingTight(m);
    }
  }

  lemma {:induction false} HeadStays(s: string, m: Mode)
    requires s != [] && !IsSpace(s[0])
    ensures Squeeze(s) == [s[0]] + Squeeze(s[1..])
    ensures Tight(s, m) == [s[0]] + Tight(s[1..], Next(m, s[0]))
  {
  }

  lemma {:induction false} NothingTight(m: Mode)
    ensures Squeeze("") == [] && forall n: Mode :: Tight("", n) == []
  {
  }

  /** Two texts that agree up to whitespace keep the same literals if and only if no gap inside a literal
      differs. */
  lemma {:induction false} LiteralsKeptExactly(a: string, b: string, m: Mode)
    requires Squeeze(a) == Squeeze(b)
    ensures Tight(a, m) == Tight(b, m) <==> SameGaps(a, b, m)
    decreases |a|
  {
    hide Squeeze, Tight, Behind;
    var i, j := SkipSpaces(a, 0), SkipSpaces(b, 0);
    LeadingGap(a, m);
    LeadingGap(b, m);
    var x := if i == |a| then [] else [a[i]] + Tight(a[i + 1..], Next(Behind(a[..i], m), a[i]));
    var y := if j == |b| then [] else [b[j]] + Tight(b[j + 1..], Next(Behind(b[..j], m), b[j]));
    if m.Code? {
      assert [] + x == x && [] + y == y;
    } else {
      GapsDecide(a[..i], x, b[..j], y);
    }
    if i < |a| && j < |b| {
      assert Squeeze(a)[0] == a[i] && Squeeze(b)[0] == b[j];
      assert Squeeze(a)[1..] == Squeeze(a[i + 1..]) && Squeeze(b)[1..] == Squeeze(b[j + 1..]);
      if m.Code? || a[..i] == b[..j] {
        LiteralsKeptExactly(a[i + 1..], b[j + 1..], Next(Behind(a[..i], m), a[i]));
        assert x[1..] == Tight(a[i + 1..], Next(Behind(a[..i], m), a[i]));
        assert y[1..] == Tight(b[j + 1..], Next(Behind(b[..j], m), b[j]));
        assert x == [a[i]] + x[1..] && y == [b[j]] + y[1..];
        assert Behind(a[..i], m) == Behind(b[..j], m);
        assert x == y <==> x[1..] == y[1..];
      }
    }
  }

  lemma {:induction false} LeadIs(u: string, x: string)
    requires forall k :: 0 <= k < |u| ==> IsSpace(u[k])
    requires x != [] ==> !IsSpace(x[0])
    ensures SkipSpaces(u + x, 0) == |u|
  {
    var s := u + x;
    var i := SkipSpaces(s, 0);
    assert x != [] ==> s[|u|] == x[0];
    assert forall k :: 0 <= k < |u| ==> s[k] == u[k];
  }

  /** Different runs of whitespace in front of something else never read the same. */
  lemma {:induction false} GapsDecide(u: string, x: string, v: string, y: string)
    requires forall k :: 0 <= k < |u| ==> IsSpace(u[k])
    requires forall k :: 0 <= k < |v| ==> IsSpace(v[k])
    requires x != [] ==> !IsSpace(x[0])
    requires y != [] ==> !IsSpace(y[0])
    ensures u + x == v + y <==> u == v && x == y
  {
    if u + x == v + y {
      LeadIs(u, x);
      LeadIs(v, y);
      assert u == (u + x)[..|u|] && v == (v + y)[..|v|];
      assert x == (u + x)[|u|..] && y == (v + y)[|v|..];
    }
  }

  // ----- A literal that is broken over two lines -----

  lemma {:induction false} ArgsOver(rest: string, i: nat, j: nat, current: string)
    requires i <= j <= |rest| && forall k :: i <= k < j ==> !Opener(rest[k]) && !Closer(rest[k]) && rest[k] != ','
    ensures Args(rest, i, 0, current) == Args(rest, j, 0, current + rest[i..j])
    decreases j - i
  {
    if i < j {
      ArgsOver(rest, i + 1, j, current + [rest[i]]);
      assert current + [rest[i]] + rest[i + 1..j] == current + rest[i..j];
    } else {
      assert current + rest[i..j] == current;
    }
  }

  lemma {:induction false} AheadOver(text: string, i: nat, j: nat)
    requires i <= j < |text| && forall k :: i <= k < j ==> !Opener(text[k]) && !Closer(text[k]) && text[k] != ','
    ensures CommaAhead(text, i, 1) == CommaAhead(text, j, 1)
    decreases j - i
  {
    if i < j { AheadOver(text, i + 1, j); }
  }

  lemma {:induction false} NoAssignment(text: string, i: nat)
    requires '=' !in text
    ensures Assignment(text, i) == None
    decreases |text| - i
  {
    if i + 3 <= |text| {
      assert text[i..i + 3][1] == text[i + 1];
      NoAssignment(text, i + 1);
    }
  }

  lemma {:induction false} StaysOpen(s: string, m: Mode)
    requires m.Literal? && forall k :: 0 <= k < |s| ==> s[k] != '\\' && s[k] != m.quote
    ensures Behind(s, m) == m
    decreases |s|
  {
    if s != [] { StaysOpen(s[1..], m); }
  }

  /** The argument list of the example, cut inside its literal. */
  lemma {:induction false} ExampleArgs(x: string)
    requires forall k :: 0 <= k < |x| ==> x[k] == 'x'
    ensures var args := Args("\"" + x + ",b\", c)", 0, 0, "");
            |args| > 1 && args[0] == "\"" + x
  {
    hide Args;
    var rest := "\"" + x + ",b\", c)";
    var n := 1 + |x|;
    assert rest[0] == '"' && forall k :: 0 <= k < |x| ==> rest[1 + k] == x[k];
    assert rest[n] == ',' && rest[..n] == "\"" + x;
    ArgsOver(rest, 0, n, "");
    assert "" + rest[0..n] == "\"" + x;
    ArgsCut(rest, n, "\"" + x);
  }

  lemma {:induction false} ArgsCut(rest: string, i: nat, current: string)
    requires i < |rest| && rest[i] == ','
    ensures Args(rest, i, 0, current) == [current] + Args(rest, i + 1, 0, "")
  {
  }

  lemma {:induction false} ExampleBreak(text: string, x: string)
    requires forall k :: 0 <= k < |x| ==> x[k] == 'x'
    requires text == "f(" + ("\"" + x + ",b\", c)")
    ensures CallBreak(text, 0) == 1
  {
    hide CommaAhead;
    var n := 3 + |x|;
    assert text[0] == 'f' && text[1] == '(' && text[2] == '"' && text[n] == ',';
    assert forall k :: 0 <= k < |x| ==> text[3 + k] == x[k];
    AheadOver(text, 2, n);
    AheadOpens(text, n);
  }

  lemma {:induction false} AheadOpens(text: string, n: nat)
    requires 2 <= n < |text| && text[1] == '(' && text[n] == ',' && CommaAhead(text, 2, 1) == CommaAhead(text, n, 1)
    ensures CommaAhead(text, 1, 0)
  {
  }

  /** An overlong call whose first argument is the literal `"x...x,b"`: the first line ends inside it. */
  lemma {:induction false} CommaBreaksLiteral(x: string)
    requires |x| >= MAX_COLS && forall k :: 0 <= k < |x| ==> x[k] == 'x'
    ensures var lines := EmitStatement("", "f(" + ("\"" + x + ",b\", c)"));
            lines[0] == "f(\"" + x + "," && !Closed(lines)
  {
    hide CommaAhead, CallBreak, Args, Assignment, Behind, Strip;
    var rest := "\"" + x + ",b\", c)";
    var text := "f(" + rest;
    assert '=' !in text;
    NoAssignment(text, 0);
    ExampleBreak(text, x);
    assert text[..2] == "f(" && text[2..] == rest && "" + text[..2] == "f(";
    ExampleArgs(x);
    var args := Args(rest, 0, 0, "");
    PieceIs(args, x);
    ExampleFill(args, x);
    ExampleOpen(x);
  }

  lemma {:induction false} PieceIs(args: seq<string>, x: string)
    requires |args| > 1 && args[0] == "\"" + x && x != [] && forall k :: 0 <= k < |x| ==> x[k] == 'x'
    ensures Piece(args, 0) == "\"" + x + ","
  {
    var s := "\"" + x;
    assert s[0] == '"' && s[|s| - 1] == 'x';
    assert RStrip(s) == s && LStrip(s) == s;
  }

  lemma {:induction false} ExampleFill(args: seq<string>, x: string)
    requires |args| > 1 && Piece(args, 0) == "\"" + x + "," && |x| >= MAX_COLS
    ensures Fill(args, 0, "f(", 2)[0] == "f(\"" + x + ","
  {
    hide Piece;
    var line := "f(\"" + x + ",";
    assert "f(" + "" + ("\"" + x + ",") == line;
    assert line[|line| - 1..] == "," && "f("[1..] == "(";
    assert |line + " " + Piece(args, 1)| > MAX_COLS;
  }

  lemma {:induction false} ExampleOpen(x: string)
    requires forall k :: 0 <= k < |x| ==> x[k] == 'x'
    ensures Behind("f(\"" + x + ",", CODE) == Sanitizer.Literal('"')
  {
    hide Behind;
    var open: Mode := Sanitizer.Literal('"');
    assert "f(\"" + x + "," == "f(\"" + (x + ",");
    TightAppend("f(\"", x + ",", CODE);
    assert Behind("f(\"", CODE) == open by { OpenQuote(); }
    StaysOpen(x + ",", open);
  }

  lemma {:induction false} OpenQuote()
    ensures Behind("f(\"", CODE) == Sanitizer.Literal('"')
  {
    assert "f(\""[1..] == "(\"" && "(\""[1..] == "\"" && "\""[1..] == "";
  }
}
