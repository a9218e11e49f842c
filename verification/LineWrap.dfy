/** Line wrapping in the registry generator: `split_text` cuts a string literal into chunks,
    `emit_statement` breaks a statement at assignments and top-level argument commas. */
module LineWrap {
  import opened Text
  import opened Splitting

  const MAX_COLS := 100

  // ----- split_text -----

  /** The chunks from word `i` on, with `current` being collected. */
  function Pack(words: seq<string>, i: nat, current: string, width: nat): seq<string>
    decreases |words| - i
  {
    if i >= |words| then [current]
    else
      var candidate := if current == "" then words[i] else current + " " + words[i];
      if |candidate| > width && current != ""
      then [current + " "] + Pack(words, i + 1, words[i], width)
      else Pack(words, i + 1, candidate, width)
  }

  function AtLeast16(width: int): nat {
    if width < 16 then 16 else width
  }

  function Chunks(text: string, width: int): seq<string> {
    Pack(Split(text, ' '), 0, "", AtLeast16(width))
  }

  method SplitText(text: string, width: int) returns (chunks: seq<string>)
    ensures chunks == Chunks(text, width)
  {
    var limit := if width < 16 then 16 else width;
    var words := Split(text, ' ');
    chunks := [];
    var current := "";
    var i := 0;
    while i < |words|
      invariant chunks + Pack(words, i, current, limit) == Chunks(text, width)
    {
      var word := words[i];
      var candidate := if current == "" then word else current + " " + word;
      if |candidate| > limit && current != "" {
        assert chunks + ([current + " "] + Pack(words, i + 1, word, limit)) == (chunks + [current + " "]) + Pack(words, i + 1, word, limit);
        chunks := chunks + [current + " "];
        current := word;
      } else {
        current := candidate;
      }
      i := i + 1;
    }
    chunks := chunks + [current];
  }

  function Concat(chunks: seq<string>): string {
    if chunks == [] then "" else chunks[0] + Concat(chunks[1..])
  }

  /** How often a word after the first is met with nothing collected, so that the space in
      front of it is not written: the loop's own test `not current`. */
  function Lost(words: seq<string>, i: nat, current: string, width: nat): nat
    decreases |words| - i
  {
    if i >= |words| then 0
    else
      var candidate := if current == "" then words[i] else current + " " + words[i];
      var next := if |candidate| > width && current != "" then words[i] else candidate;
      (if i > 0 && current == "" then 1 else 0) + Lost(words, i + 1, next, width)
  }

  /** What is still to be written: the collected text, then each word behind a space. */
  function Pending(words: seq<string>, i: nat, current: string): string
    decreases |words| - i
  {
    if i >= |words| then current
    else Pending(words, i + 1, if i == 0 then words[i] else current + " " + words[i])
  }

  lemma {:induction false} PendingPrefix(words: seq<string>, i: nat, a: string, b: string)
    requires i > 0
    ensures Pending(words, i, a + b) == a + Pending(words, i, b)
    decreases |words| - i
  {
    if i < |words| {
      assert (a + b) + " " + words[i] == a + (b + " " + words[i]);
      PendingPrefix(words, i + 1, a, b + " " + words[i]);
    }
  }

  lemma {:induction false} PendingJoin(words: seq<string>, i: nat, current: string)
    requires 0 < i <= |words|
    ensures Pending(words, i, current) == Join([current] + words[i..], ' ')
    decreases |words| - i
  {
    if i < |words| {
      var next := current + " " + words[i];
      PendingJoin(words, i + 1, next);
      assert words[i..] == [words[i]] + words[i + 1..];
      var rest := words[i + 1..];
      assert ([current] + ([words[i]] + rest))[1..] == [words[i]] + rest;
      if rest == [] {
        assert [next] + rest == [next] && [words[i]] + rest == [words[i]];
      } else {
        assert ([next] + rest)[1..] == rest && ([words[i]] + rest)[1..] == rest;
        assert next + [' '] + Join(rest, ' ') == current + [' '] + (words[i] + [' '] + Join(rest, ' '));
      }
    } else {
      assert [current] + words[i..] == [current];
    }
  }

  /** Each lost space shortens the text by one, and nothing else does. */
  lemma {:induction false} PackLength(words: seq<string>, i: nat, current: string, width: nat)
    requires i == 0 ==> current == ""
    ensures |Concat(Pack(words, i, current, width))| + Lost(words, i, current, width) == |Pending(words, i, current)|
    decreases |words| - i
  {
    if i >= |words| {
      assert Concat([current]) == current + Concat([]);
    } else {
      var candidate := if current == "" then words[i] else current + " " + words[i];
      if |candidate| > width && current != "" {
        PackLength(words, i + 1, words[i], width);
        PendingPrefix(words, i + 1, current + " ", words[i]);
        assert Concat([current + " "] + Pack(words, i + 1, words[i], width))
            == (current + " ") + Concat(Pack(words, i + 1, words[i], width)) by { ConcatCons(current + " ", Pack(words, i + 1, words[i], width)); }
      } else {
        PackLength(words, i + 1, candidate, width);
        if i > 0 && current == "" {
          PendingPrefix(words, i + 1, " ", words[i]);
          assert current + " " + words[i] == " " + words[i];
        }
      }
    }
  }

  lemma {:induction false} ConcatCons(x: string, rest: seq<string>)
    ensures Concat([x] + rest) == x + Concat(rest)
  {
    assert ([x] + rest)[1..] == rest;
  }

  /** When no space is lost the chunks spell the text. */
  lemma {:induction false} PackExact(words: seq<string>, i: nat, current: string, width: nat)
    requires i == 0 ==> current == ""
    requires Lost(words, i, current, width) == 0
    ensures Concat(Pack(words, i, current, width)) == Pending(words, i, current)
    decreases |words| - i
  {
    if i >= |words| {
      assert Concat([current]) == current + Concat([]);
    } else {
      var candidate := if current == "" then words[i] else current + " " + words[i];
      if |candidate| > width && current != "" {
        PackExact(words, i + 1, words[i], width);
        PendingPrefix(words, i + 1, current + " ", words[i]);
        ConcatCons(current + " ", Pack(words, i + 1, words[i], width));
      } else {
        PackExact(words, i + 1, candidate, width);
      }
    }
  }

  /** The words still pending at the start are the text. */
  lemma {:induction false} PendingText(text: string)
    ensures Pending(Split(text, ' '), 0, "") == text
  {
    var words := Split(text, ' ');
    JoinSplit(text, ' ');
    PendingJoin(words, 1, words[0]);
    assert [words[0]] + words[1..] == words;
  }

  /** Main result on `split_text`: exactly when the loop never meets a later word with nothing
      collected do the chunks concatenate to the text; otherwise one space is missing for each
      such word. */
  lemma {:induction false} ChunksSpellText(text: string, width: int)
    ensures var lost := Lost(Split(text, ' '), 0, "", AtLeast16(width));
            && (Concat(Chunks(text, width)) == text <==> lost == 0)
            && |Concat(Chunks(text, width))| == |text| - lost
  {
    var words := Split(text, ' ');
    PendingText(text);
    PackLength(words, 0, "", AtLeast16(width));
    if Lost(words, 0, "", AtLeast16(width)) == 0 {
      PackExact(words, 0, "", AtLeast16(width));
    }
  }

  lemma {:induction false} NoEmptyWordNoLoss(words: seq<string>, i: nat, current: string, width: nat)
    requires forall k :: 0 <= k < |words| - 1 ==> words[k] != ""
    requires 0 < i < |words| ==> current != ""
    ensures Lost(words, i, current, width) == 0
    decreases |words| - i
  {
    if i < |words| {
      var candidate := if current == "" then words[i] else current + " " + words[i];
      NoEmptyWordNoLoss(words, i + 1, if |candidate| > width && current != "" then words[i] else candidate, width);
    }
  }

  /** Text without a leading or doubled space loses nothing; a trailing space does no harm. */
  lemma {:induction false} TidyTextIsSpelled(text: string, width: int)
    requires forall k :: 0 <= k < |Split(text, ' ')| - 1 ==> Split(text, ' ')[k] != ""
    ensures Concat(Chunks(text, width)) == text
  {
    NoEmptyWordNoLoss(Split(text, ' '), 0, "", AtLeast16(width));
    ChunksSpellText(text, width);
  }

  /** A leading space is always lost. */
  lemma {:induction false} LeadingSpaceIsLost(rest: string, width: int)
    ensures Concat(Chunks(" " + rest, width)) != " " + rest
  {
    var text := " " + rest;
    SplitStep(text, ' ');
    assert text[1..] == rest;
    var words := Split(text, ' ');
    assert words[0] == "" && |words| > 1;
    assert Lost(words, 0, "", AtLeast16(width)) == Lost(words, 1, "", AtLeast16(width));
    ChunksSpellText(text, width);
  }

  /** A chunk within the width, or a single word, with its trailing space at most. */
  ghost predicate Fits(words: seq<string>, chunk: string, width: nat) {
    |chunk| <= width + 1 || exists k :: 0 <= k < |words| && (chunk == words[k] || chunk == words[k] + " ")
  }

  lemma {:induction false} PackFits(words: seq<string>, i: nat, current: string, width: nat, c: nat)
    requires |current| <= width || exists k :: 0 <= k < |words| && current == words[k]
    requires c < |Pack(words, i, current, width)|
    ensures Fits(words, Pack(words, i, current, width)[c], width)
    decreases |words| - i
  {
    if i < |words| {
      var candidate := if current == "" then words[i] else current + " " + words[i];
      if |candidate| > width && current != "" {
        if c == 0 {
          if |current| > width {
            var k :| 0 <= k < |words| && current == words[k];
            assert current + " " == words[k] + " ";
          }
        } else {
          PackFits(words, i + 1, words[i], width, c - 1);
        }
      } else {
        PackFits(words, i + 1, candidate, width, c);
      }
    }
  }

  lemma {:induction false} ChunksFit(text: string, width: int, c: nat)
    requires c < |Chunks(text, width)|
    ensures Fits(Split(text, ' '), Chunks(text, width)[c], AtLeast16(width))
  {
    PackFits(Split(text, ' '), 0, "", AtLeast16(width), c);
  }

  // ----- call_break -----

  predicate Opener(c: char) { c == '(' || c == '[' || c == '{' }
  predicate Closer(c: char) { c == ')' || c == ']' || c == '}' }

  /** From `scan` on, at bracket depth `depth`, a comma at depth 1 comes before the depth is 0. */
  predicate CommaAhead(text: string, scan: nat, depth: int)
    decreases |text| - scan
  {
    scan < |text| &&
    if Opener(text[scan]) then CommaAhead(text, scan + 1, depth + 1)
    else if Closer(text[scan]) then depth - 1 != 0 && CommaAhead(text, scan + 1, depth - 1)
    else (text[scan] == ',' && depth == 1) || CommaAhead(text, scan + 1, depth)
  }

  /** A `(` or `{` whose argument list has a top-level comma. */
  predicate BreakAt(text: string, index: nat) {
    index < |text| && (text[index] == '(' || text[index] == '{') && CommaAhead(text, index, 0)
  }

  method HasTopComma(text: string, index: nat) returns (found: bool)
    requires index < |text|
    ensures found == CommaAhead(text, index, 0)
  {
    var depth := 0;
    for scan := index to |text|
      invariant CommaAhead(text, scan, depth) == CommaAhead(text, index, 0)
    {
      if Opener(text[scan]) {
        depth := depth + 1;
      } else if Closer(text[scan]) {
        depth := depth - 1;
        if depth == 0 {
          return false;
        }
      } else if text[scan] == ',' && depth == 1 {
        return true;
      }
    }
    return false;
  }

  /** The first break position from `index` on, or -1. */
  function CallBreak(text: string, index: nat): (r: int)
    ensures r == -1 || (index <= r < |text| && BreakAt(text, r))
    ensures forall k :: index <= k < (if r == -1 then |text| else r) ==> !BreakAt(text, k)
    decreases |text| - index
  {
    if index >= |text| then -1
    else if BreakAt(text, index) then index
    else CallBreak(text, index + 1)
  }

  method FindCallBreak(text: string) returns (r: int)
    ensures r == CallBreak(text, 0)
  {
    hide CommaAhead;
    for index := 0 to |text|
      invariant CallBreak(text, index) == CallBreak(text, 0)
    {
      if text[index] == '(' || text[index] == '{' {
        var found := HasTopComma(text, index);
        if found {
          return index;
        }
      }
    }
    return -1;
  }

  // ----- emit_statement -----

  /** The text without its whitespace. */
  function Squeeze(s: string): string {
    if s == [] then [] else (if IsSpace(s[0]) then [] else [s[0]]) + Squeeze(s[1..])
  }

  function SqueezeAll(lines: seq<string>): string {
    Squeeze(Concat(lines))
  }

  function Spaces(n: nat): (s: string)
    ensures |s| == n && forall i :: 0 <= i < n ==> s[i] == ' '
  {
    seq(n, _ => ' ')
  }

  /** `text.partition(" = ")`: the index of the first occurrence. */
  function Assignment(text: string, i: nat): (r: Option<nat>)
    ensures r.Some? ==> i <= r.value && r.value + 3 <= |text| && text[r.value..r.value + 3] == " = "
    decreases |text| - i
  {
    if i + 3 > |text| then None
    else if text[i..i + 3] == " = " then Some(i)
    else Assignment(text, i + 1)
  }

  /** The arguments of `rest`, cut at commas at depth 0. */
  function Args(rest: string, i: nat, depth: int, current: string): (args: seq<string>)
    ensures args != []
    decreases |rest| - i
  {
    if i >= |rest| then [current]
    else
      var d := if Opener(rest[i]) then depth + 1 else if Closer(rest[i]) then depth - 1 else depth;
      if rest[i] == ',' && d == 0 then [current] + Args(rest, i + 1, d, "")
      else Args(rest, i + 1, d, current + [rest[i]])
  }

  method SplitArgs(rest: string) returns (args: seq<string>)
    ensures args == Args(rest, 0, 0, "")
  {
    args := [];
    var depth := 0;
    var current := "";
    for i := 0 to |rest|
      invariant args + Args(rest, i, depth, current) == Args(rest, 0, 0, "")
    {
      var c := rest[i];
      if Opener(c) {
        depth := depth + 1;
      } else if Closer(c) {
        depth := depth - 1;
      }
      if c == ',' && depth == 0 {
        assert args + ([current] + Args(rest, i + 1, depth, "")) == (args + [current]) + Args(rest, i + 1, depth, "");
        args := args + [current];
        current := "";
      } else {
        current := current + [c];
      }
    }
    args := args + [current];
  }

  function Piece(args: seq<string>, k: nat): string
    requires k < |args|
  {
    Strip(args[k]) + if k + 1 < |args| then "," else ""
  }

  /** The lines from argument `k` on, with `line` being filled. */
  function Fill(args: seq<string>, k: nat, line: string, margin: nat): (lines: seq<string>)
    ensures lines != []
    decreases |args| - k
  {
    if k >= |args| then [line]
    else
      var candidate := line + (if EndsWith(line, ",") then " " else "") + Piece(args, k);
      if |candidate| > MAX_COLS && !EndsWith(line, "(")
      then [line] + Fill(args, k + 1, Spaces(margin) + Piece(args, k), margin)
      else Fill(args, k + 1, candidate, margin)
  }

  method FillLines(args: seq<string>, head: string) returns (lines: seq<string>)
    ensures lines == Fill(args, 0, head, |head|)
  {
    hide Piece, Spaces;
    lines := [];
    var line := head;
    var k := 0;
    while k < |args|
      invariant lines + Fill(args, k, line, |head|) == Fill(args, 0, head, |head|)
    {
      var piece := Piece(args, k);
      var candidate := line + (if EndsWith(line, ",") then " " else "") + piece;
      if |candidate| > MAX_COLS && !EndsWith(line, "(") {
        ghost var rest := Fill(args, k + 1, Spaces(|head|) + piece, |head|);
        assert lines + ([line] + rest) == (lines + [line]) + rest;
        lines := lines + [line];
        line := Spaces(|head|) + piece;
      } else {
        line := candidate;
      }
      k := k + 1;
    }
    lines := lines + [line];
  }

  function Broken(indent: string, text: string): (lines: seq<string>)
    ensures lines != []
  {
    var open := CallBreak(text, 0);
    if open < 0 then [indent + text]
    else
      var head := indent + text[..open + 1];
      Fill(Args(text[open + 1..], 0, 0, ""), 0, head, |head|)
  }

  function EmitStatement(indent: string, text: string): (lines: seq<string>)
    ensures lines != []
    decreases |text|
  {
    if |indent + text| <= MAX_COLS then [indent + text]
    else
      var at := Assignment(text, 0);
      if at.Some? && |indent| + at.value + 2 <= MAX_COLS then
        var tail := EmitStatement(indent + "  ", text[at.value + 3..]);
        if |tail| == 1 || |tail[0]| <= MAX_COLS then [indent + text[..at.value] + " ="] + tail
        else Broken(indent, text)
      else Broken(indent, text)
  }

  method Emit(indent: string, text: string) returns (lines: seq<string>)
    ensures lines == EmitStatement(indent, text)
    decreases |text|
  {
    hide Assignment, CallBreak, Args, Fill;
    if |indent + text| <= MAX_COLS {
      return [indent + text];
    }
    var at := Assignment(text, 0);
    if at.Some? && |indent| + at.value + 2 <= MAX_COLS {
      var tail := Emit(indent + "  ", text[at.value + 3..]);
      if |tail| == 1 || |tail[0]| <= MAX_COLS {
        return [indent + text[..at.value] + " ="] + tail;
      }
    }
    var open := FindCallBreak(text);
    if open < 0 {
      return [indent + text];
    }
    var head := indent + text[..open + 1];
    var args := SplitArgs(text[open + 1..]);
    lines := FillLines(args, head);
  }

  // ----- Tokens survive -----

  lemma {:induction false} SqueezeAppend(a: string, b: string)
    ensures Squeeze(a + b) == Squeeze(a) + Squeeze(b)
  {
    if a == [] {
      assert a + b == b;
    } else {
      assert (a + b)[1..] == a[1..] + b;
      SqueezeAppend(a[1..], b);
    }
  }

  lemma {:induction false} SqueezeSpaces(s: string)
    requires forall i :: 0 <= i < |s| ==> IsSpace(s[i])
    ensures Squeeze(s) == []
  {
    if s != [] { SqueezeSpaces(s[1..]); }
  }

  lemma {:induction false} SqueezeStrip(s: string)
    ensures Squeeze(Strip(s)) == Squeeze(s)
  {
    var r := RStrip(s);
    var l := LStrip(r);
    assert s == r + s[|r|..] && r == r[..|r| - |l|] + l;
    SqueezeAppend(r, s[|r|..]);
    SqueezeSpaces(s[|r|..]);
    SqueezeAppend(r[..|r| - |l|], l);
    SqueezeSpaces(r[..|r| - |l|]);
  }

  lemma {:induction false} ArgsJoin(rest: string, i: nat, depth: int, current: string)
    requires i <= |rest|
    ensures Join(Args(rest, i, depth, current), ',') == current + rest[i..]
    decreases |rest| - i
  {
    if i < |rest| {
      var d := if Opener(rest[i]) then depth + 1 else if Closer(rest[i]) then depth - 1 else depth;
      assert rest[i..] == [rest[i]] + rest[i + 1..];
      if rest[i] == ',' && d == 0 {
        ArgsJoin(rest, i + 1, d, "");
        var more := Args(rest, i + 1, d, "");
        assert ([current] + more)[1..] == more;
      } else {
        ArgsJoin(rest, i + 1, d, current + [rest[i]]);
      }
    }
  }

  lemma {:induction false} JoinFrom(args: seq<string>, k: nat)
    requires k < |args|
    ensures Join(args[k..], ',') == args[k] + if k + 1 < |args| then "," + Join(args[k + 1..], ',') else ""
  {
    assert args[k..][1..] == args[k + 1..];
  }

  lemma {:induction false} PieceSqueezes(args: seq<string>, k: nat)
    requires k < |args|
    ensures Squeeze(Piece(args, k)) + Squeeze(Join(args[k + 1..], ',')) == Squeeze(Join(args[k..], ','))
  {
    hide Join, Strip;
    JoinFrom(args, k);
    SqueezeStrip(args[k]);
    if k + 1 < |args| {
      var rest := Join(args[k + 1..], ',');
      SqueezeAppend(Strip(args[k]), ",");
      SqueezeAppend(args[k], "," + rest);
      SqueezeAppend(",", rest);
    } else {
      assert args[k + 1..] == [];
      assert Strip(args[k]) + "" == Strip(args[k]) && args[k] + "" == args[k];
      JoinNothing();
    }
  }

  lemma {:induction false} JoinNothing()
    ensures Join([], ',') == "" && Squeeze("") == ""
  {
  }

  lemma {:induction false} FillSqueezes(args: seq<string>, k: nat, line: string, margin: nat)
    requires k <= |args|
    ensures SqueezeAll(Fill(args, k, line, margin)) == Squeeze(line) + Squeeze(Join(args[k..], ','))
    decreases |args| - k
  {
    hide Squeeze, Piece, Join, Spaces;
    if k == |args| {
      assert args[k..] == [];
      JoinNothing();
      ConcatCons(line, []);
      assert [line] + [] == [line] && Concat([]) == "";
      assert line + "" == line;
    } else {
      var piece := Piece(args, k);
      var gap := if EndsWith(line, ",") then " " else "";
      var candidate := line + gap + piece;
      PieceSqueezes(args, k);
      if |candidate| > MAX_COLS && !EndsWith(line, "(") {
        var next := Spaces(margin) + piece;
        FillSqueezes(args, k + 1, next, margin);
        ConcatCons(line, Fill(args, k + 1, next, margin));
        SqueezeAppend(line, Concat(Fill(args, k + 1, next, margin)));
        SqueezeAppend(Spaces(margin), piece);
        SqueezeSpaces(Spaces(margin));
      } else {
        FillSqueezes(args, k + 1, candidate, margin);
        SqueezeAppend(line + gap, piece);
        SqueezeAppend(line, gap);
        SqueezeSpaces(gap);
      }
    }
  }

  /** Main result on `emit_statement`: however the statement is broken, its lines read in
      order and without whitespace are the statement without whitespace. */
  lemma {:induction false} TokensSurvive(indent: string, text: string)
    requires forall i :: 0 <= i < |indent| ==> IsSpace(indent[i])
    ensures SqueezeAll(EmitStatement(indent, text)) == Squeeze(text)
    decreases |text|
  {
    hide Squeeze, Assignment, CallBreak, Args, Fill, Concat;
    OneLine(indent, text);
    var at := Assignment(text, 0);
    if |indent + text| > MAX_COLS {
      BrokenSqueezes(indent, text);
      if at.Some? && |indent| + at.value + 2 <= MAX_COLS {
        var rhs := text[at.value + 3..];
        var tail := EmitStatement(indent + "  ", rhs);
        TokensSurvive(indent + "  ", rhs);
        var front := indent + text[..at.value] + " =";
        ConcatCons(front, tail);
        SqueezeAppend(front, Concat(tail));
        AssignmentSqueezes(indent, text, at.value);
      }
    }
  }

  lemma {:induction false} OneLine(indent: string, text: string)
    requires forall i :: 0 <= i < |indent| ==> IsSpace(indent[i])
    ensures SqueezeAll([indent + text]) == Squeeze(text)
  {
    assert Concat([indent + text]) == (indent + text) + Concat([]);
    assert (indent + text) + "" == indent + text;
    SqueezeAppend(indent, text);
    SqueezeSpaces(indent);
  }

  lemma {:induction false} AssignmentSqueezes(indent: string, text: string, at: nat)
    requires forall i :: 0 <= i < |indent| ==> IsSpace(indent[i])
    requires at + 3 <= |text| && text[at..at + 3] == " = "
    ensures Squeeze(indent + text[..at] + " =") + Squeeze(text[at + 3..]) == Squeeze(text)
  {
    hide Squeeze;
    var name, rhs := text[..at], text[at + 3..];
    assert text == name + " = " + rhs;
    SqueezeAppend(name + " = ", rhs);
    SqueezeAppend(name, " = ");
    SqueezeAppend(indent + name, " =");
    SqueezeAppend(indent, name);
    SqueezeSpaces(indent);
    assert " = " == " =" + " ";
    SqueezeAppend(" =", " ");
    SqueezeSpaces(" ");
  }

  lemma {:induction false} BrokenSqueezes(indent: string, text: string)
    requires forall i :: 0 <= i < |indent| ==> IsSpace(indent[i])
    ensures SqueezeAll(Broken(indent, text)) == Squeeze(text)
  {
    hide Squeeze, CallBreak, Args, Fill, Concat;
    OneLine(indent, text);
    var open := CallBreak(text, 0);
    if open >= 0 {
      var head := indent + text[..open + 1];
      var rest := text[open + 1..];
      var args := Args(rest, 0, 0, "");
      FillSqueezes(args, 0, head, |head|);
      assert args[0..] == args;
      ArgsJoin(rest, 0, 0, "");
      assert "" + rest[0..] == rest;
      assert text == text[..open + 1] + rest;
      SqueezeAppend(text[..open + 1], rest);
      SqueezeAppend(indent, text[..open + 1]);
      SqueezeSpaces(indent);
    }
  }
}
