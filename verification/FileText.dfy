/** `process_file` from text to text: the text is split into lines, the lines are processed, and what
    changed is joined again with `\n`. */
module FileText {
  import opened Text
  import opened Splitting
  import opened Lines
  import opened Inserts
  import opened SourceFile
  import opened Fences
  import Tokenizer
  import QmlPass
  import IdPlacement
  import PropertySort

  /** QML files get every rule, other covered sources the brace-free one, the rest only line endings. */
  datatype FileKind = Qml | Covered | EndingsOnly

  /** The line boundaries of `str.splitlines`. */
  predicate IsBreak(c: char) {
    || '\n' <= c <= '\r'
    || '\U{1C}' <= c <= '\U{1E}'
    || c == '\U{85}' || c == '\U{2028}' || c == '\U{2029}'
  }

  /** `str.splitlines`, which takes `\r\n` as one boundary, with `current` being collected. */
  function LinesFrom(s: string, current: string): seq<string>
    decreases |s|
  {
    if s == "" then (if current == "" then [] else [current])
    else if s[0] == '\r' && |s| > 1 && s[1] == '\n' then [current] + LinesFrom(s[2..], "")
    else if IsBreak(s[0]) then [current] + LinesFrom(s[1..], "")
    else LinesFrom(s[1..], current + [s[0]])
  }

  function SplitLines(s: string): seq<string> {
    LinesFrom(s, "")
  }

  ghost function NewRaws(raws: seq<string>, kind: FileKind): seq<string> {
    if kind == EndingsOnly then raws else Texts(Processed(DescribeAll(raws), kind == Qml))
  }

  function Rejoined(raw: string, newRaws: seq<string>): string {
    var text := Join(newRaws, '\n');
    if EndsWith(raw, "\n") && !EndsWith(text, "\n") then text + "\n" else text
  }

  /** What is written, if anything. */
  ghost function NewText(raw: string, kind: FileKind): Option<string> {
    var raws := SplitLines(raw);
    var newRaws := NewRaws(raws, kind);
    if newRaws == raws && '\r' !in raw then None
    else if Rejoined(raw, newRaws) == raw then None
    else Some(Rejoined(raw, newRaws))
  }

  method ProcessText(raw: string, kind: FileKind) returns (out: Option<string>)
    ensures out == NewText(raw, kind)
  {
    hide SplitLines, Rejoined;
    var raws := SplitLines(raw);
    var newRaws, changed := raws, false;
    if kind != EndingsOnly {
      newRaws, changed := ProcessFile(raws, kind == Qml);
    }
    if !changed && '\r' !in raw {
      return None;
    }
    var newText := Rejoined(raw, newRaws);
    if newText == raw {
      return None;
    }
    return Some(newText);
  }

  // ----- What the written text holds -----

  ghost predicate NoBreaks(lines: seq<string>) {
    forall k :: 0 <= k < |lines| ==> forall c :: c in lines[k] ==> !IsBreak(c)
  }

  lemma {:induction false} LinesHaveNoBreaks(s: string, current: string)
    requires forall c :: c in current ==> !IsBreak(c)
    ensures NoBreaks(LinesFrom(s, current))
    decreases |s|
  {
    if s != "" {
      if s[0] == '\r' && |s| > 1 && s[1] == '\n' {
        LinesHaveNoBreaks(s[2..], "");
      } else if IsBreak(s[0]) {
        LinesHaveNoBreaks(s[1..], "");
      } else {
        LinesHaveNoBreaks(s[1..], current + [s[0]]);
      }
    }
  }

  /** Processing adds no line but the empty one. */
  lemma {:induction false} LineComesFromInput(lines: seq<Line>, isQml: bool, p: nat)
    requires p < |Processed(lines, isQml)|
    ensures Processed(lines, isQml)[p] == EMPTY || Processed(lines, isQml)[p] in lines
  {
    hide Insert, Unfenced, Pos, QmlPass.Fixed;
    var buffer := AfterQml(lines, isQml);
    var k := Origin(buffer, Unfenced(buffer), EMPTY, p);
    InsertAt(buffer, Unfenced(buffer), EMPTY, k);
    if isQml {
      QmlPass.RewrittenFacts(Tokenizer.Tokens(lines, 0));
      FixedComesFromInput(lines, k);
    }
  }

  lemma {:induction false} FixedComesFromInput(lines: seq<Line>, p: nat)
    requires PropertySort.Ordered(QmlPass.Rewritten(Tokenizer.Tokens(lines, 0)), |Tokenizer.Tokens(lines, 0)|)
    requires p < |QmlPass.Fixed(lines)|
    ensures QmlPass.Fixed(lines)[p] == EMPTY || QmlPass.Fixed(lines)[p] in lines
  {
    hide Tokenizer.Tokens, QmlPass.Rewritten, PropertySort.Rewrite, Insert, Tokenizer.Flatten, Elements,
      IdPlacement.BlanksAfter, IdPlacement.Verdicts, Pos;
    var toks := Tokenizer.Tokens(lines, 0);
    QmlPass.SortPermutesLines(toks);
    Tokenizer.TokensPartition(lines, 0);
    assert lines[0..] == lines;
    var sorted := Tokenizer.Flatten(QmlPass.Sorted(toks));
    var at := Elements(IdPlacement.BlanksAfter(toks, IdPlacement.Verdicts(toks, 0, [])));
    var k := Origin(sorted, at, EMPTY, p);
    InsertAt(sorted, at, EMPTY, k);
    assert sorted[k] in multiset(sorted);
  }

  lemma {:induction false} NewRawsHaveNoBreaks(raws: seq<string>, kind: FileKind)
    requires NoBreaks(raws)
    ensures NoBreaks(NewRaws(raws, kind))
  {
    hide Describe, Processed;
    if kind != EndingsOnly {
      var lines := DescribeAll(raws);
      DescribedInput(raws);
      var out := Processed(lines, kind == Qml);
      forall p | 0 <= p < |out|
        ensures forall c :: c in out[p].text ==> !IsBreak(c)
      {
        LineComesFromInput(lines, kind == Qml, p);
        if out[p] in lines {
          var k :| 0 <= k < |lines| && lines[k] == out[p];
          DescribeKeepsText(raws[k]);
        }
      }
    }
  }

  lemma {:induction false} SomeLine(s: string, current: string)
    requires s != "" || current != ""
    ensures LinesFrom(s, current) != []
    decreases |s|
  {
    if s != "" && !IsBreak(s[0]) { SomeLine(s[1..], current + [s[0]]); }
  }

  ghost predicate EndsBlank(lines: seq<string>) {
    lines != [] && lines[|lines| - 1] == ""
  }

  lemma {:induction false} PropHasText(raw: string)
    requires Describe(raw).kind == Prop
    ensures raw != ""
  {
    hide Describe;
    EmptyIsDescribed();
  }

  lemma {:induction false} SameBlankness(a: Line, b: Line)
    requires a == Describe(a.text) && b == Describe(b.text)
    requires a == b || a.kind == b.kind == Prop
    ensures a.text == "" <==> b.text == ""
  {
    hide Describe;
    if a.kind == Prop { PropHasText(a.text); }
    if b.kind == Prop { PropHasText(b.text); }
  }

  /** Whatever is sorted and inserted, the new lines end in a blank one if and only if the old ones did. */
  lemma {:induction false} LastBlankStays(raws: seq<string>, kind: FileKind)
    ensures EndsBlank(NewRaws(raws, kind)) <==> EndsBlank(raws)
    ensures NewRaws(raws, kind) == [] <==> raws == []
    ensures |raws| == 1 ==> |NewRaws(raws, kind)| == 1
  {
    hide Describe, Processed, AllWellFormed;
    if kind != EndingsOnly {
      var lines := DescribeAll(raws);
      var out := Processed(lines, kind == Qml);
      if raws == [] {
        assert lines == [];
        NothingToProcess(kind == Qml);
      } else {
        ProcessedIsDescribed(raws, kind == Qml);
        DescribedIsWellFormed(lines);
        LastLineStays(lines, kind == Qml);
        DescribeKeepsText(raws[|raws| - 1]);
        SameBlankness(out[|out| - 1], lines[|lines| - 1]);
      }
    }
  }

  /** Reading on over characters that break no line. */
  lemma {:induction false} LinesOver(a: string, rest: string, current: string)
    requires forall c :: c in a ==> !IsBreak(c)
    ensures LinesFrom(a + rest, current) == LinesFrom(rest, current + a)
    decreases |a|
  {
    if a == "" {
      assert a + rest == rest && current + a == current;
    } else {
      assert (a + rest)[1..] == a[1..] + rest && (a + rest)[0] == a[0];
      assert a[0] in a;
      LinesOver(a[1..], rest, current + [a[0]]);
      assert current + [a[0]] + a[1..] == current + a;
    }
  }

  lemma {:induction false} LinesBreak(rest: string, current: string)
    ensures LinesFrom(['\n'] + rest, current) == [current] + LinesFrom(rest, "")
  {
    assert (['\n'] + rest)[1..] == rest;
  }

  lemma {:induction false} LinesStop(current: string)
    ensures LinesFrom("", current) == if current == "" then [] else [current]
  {
  }

  ghost function WithoutLastBlank(lines: seq<string>): seq<string> {
    if EndsBlank(lines) then lines[..|lines| - 1] else lines
  }

  /** Joined lines split again into the same lines; only an empty last line is lost, unless a newline follows it. */
  lemma {:induction false} SplitJoined(lines: seq<string>)
    requires NoBreaks(lines)
    ensures SplitLines(Join(lines, '\n')) == WithoutLastBlank(lines)
    ensures lines != [] ==> SplitLines(Join(lines, '\n') + "\n") == lines
    decreases |lines|
  {
    hide LinesFrom;
    if lines == [] {
      LinesStop("");
    } else {
      var first := lines[0];
      forall c | c in first ensures !IsBreak(c) { }
      if |lines| == 1 {
        assert lines == [first] && first + "" == first && "" + first == first;
        LinesOver(first, "", "");
        LinesStop(first);
        LinesOver(first, "\n", "");
        LinesBreak("", first);
        LinesStop("");
        assert "\n" == ['\n'] + "" && [first] + [] == [first];
      } else {
        var tail := lines[1..];
        var rest := Join(tail, '\n');
        SplitJoined(tail);
        assert Join(lines, '\n') == first + (['\n'] + rest);
        assert Join(lines, '\n') + "\n" == first + (['\n'] + (rest + "\n"));
        assert "" + first == first;
        LinesOver(first, ['\n'] + rest, "");
        LinesBreak(rest, first);
        LinesOver(first, ['\n'] + (rest + "\n"), "");
        LinesBreak(rest + "\n", first);
        assert lines == [first] + tail;
        assert lines[|lines| - 1] == tail[|tail| - 1];
        assert [first] + tail[..|tail| - 1] == lines[..|lines| - 1];
      }
    }
  }

  lemma {:induction false} LastChar(s: string)
    ensures EndsWith(s, "\n") <==> s != "" && s[|s| - 1] == '\n'
  {
    if s != "" { assert s[|s| - 1..] == [s[|s| - 1]]; }
  }

  lemma {:induction false} JoinedEnds(lines: seq<string>)
    requires NoBreaks(lines)
    ensures EndsWith(Join(lines, '\n'), "\n") <==> |lines| > 1 && lines[|lines| - 1] == ""
    decreases |lines|
  {
    if |lines| == 1 {
      var first := lines[0];
      LastChar(first);
      assert first != "" ==> first[|first| - 1] in first;
    } else if |lines| > 1 {
      var tail := lines[1..];
      var rest := Join(tail, '\n');
      JoinedEnds(tail);
      var whole := lines[0] + ['\n'] + rest;
      if rest == "" {
        assert whole[|whole| - 1..] == "\n";
        EmptyJoin(tail);
      } else {
        assert whole[|whole| - 1..] == rest[|rest| - 1..];
        if |tail| == 1 {
          assert rest == tail[0];
        }
      }
    }
  }

  lemma {:induction false} EmptyJoin(lines: seq<string>)
    requires Join(lines, '\n') == "" && lines != []
    ensures lines == [""]
  {
  }

  /** The only line boundary in joined lines is `\n`. */
  lemma {:induction false} JoinBreaks(lines: seq<string>)
    requires NoBreaks(lines)
    ensures forall c :: c in Join(lines, '\n') && IsBreak(c) ==> c == '\n'
    decreases |lines|
  {
    hide IsBreak;
    if lines != [] {
      assert forall c :: c in lines[0] ==> !IsBreak(c);
      if |lines| > 1 {
        JoinBreaks(lines[1..]);
      }
    }
  }

  /** The text ends in a blank line that a rewrite loses: one with another line before it, or one no `\n` follows. */
  ghost predicate LosesBlank(raw: string) {
    EndsBlank(SplitLines(raw)) && !(|SplitLines(raw)| == 1 && EndsWith(raw, "\n"))
  }

  /** Main result: a file that is rewritten holds no line boundary but `\n`, ends in one if it did, and holds exactly
      the processed lines, except that the last of them is lost if and only if the text that was read ends in a
      blank line which has another line before it, or which no newline follows. */
  lemma {:induction false} WrittenText(raw: string, kind: FileKind)
    requires NewText(raw, kind).Some?
    ensures var text := NewText(raw, kind).value;
            var newRaws := NewRaws(SplitLines(raw), kind);
            && (forall c :: c in text && IsBreak(c) ==> c == '\n')
            && (EndsWith(raw, "\n") ==> EndsWith(text, "\n"))
            && (LosesBlank(raw) ==> newRaws != [])
            && SplitLines(text) == if LosesBlank(raw) then newRaws[..|newRaws| - 1] else newRaws
  {
    hide NewRaws, LinesFrom, EndsWith, IsBreak;
    var raws := SplitLines(raw);
    LinesHaveNoBreaks(raw, "");
    NewRawsHaveNoBreaks(raws, kind);
    LastBlankStays(raws, kind);
    var newRaws := NewRaws(raws, kind);
    SplitJoined(newRaws);
    JoinedEnds(newRaws);
    JoinBreaks(newRaws);
    NewlineEnds(Join(newRaws, '\n'));
    OneRaw(raw, kind);
    if raw != "" { SomeLine(raw, ""); }
  }

  /** A single blank line stays single. */
  lemma {:induction false} OneRaw(raw: string, kind: FileKind)
    ensures var raws, newRaws := SplitLines(raw), NewRaws(SplitLines(raw), kind);
            EndsBlank(newRaws) ==> (|newRaws| == 1 <==> |raws| == 1)
  {
    hide Describe, Processed, AllWellFormed, LinesFrom;
    var raws := SplitLines(raw);
    LastBlankStays(raws, kind);
    if kind != EndingsOnly {
      DescribedInput(raws);
      DescribedIsWellFormed(DescribeAll(raws));
      ProcessedGrows(DescribeAll(raws), kind == Qml);
    }
  }

  lemma {:induction false} ProcessedGrows(lines: seq<Line>, isQml: bool)
    requires AllWellFormed(lines)
    ensures |lines| <= |Processed(lines, isQml)|
  {
    hide Processed, AllWellFormed;
    NeverShorter(lines, isQml);
  }

  lemma {:induction false} NewlineEnds(s: string)
    ensures EndsWith(s + "\n", "\n")
  {
    assert (s + "\n")[|s|..] == "\n";
  }

  // ----- Two files that lose a line -----

  /** Two line ends after the last word: the blank line between them is lost. */
  lemma {:induction false} BlankLineIsLost()
    ensures LosesBlank("a\r\n\r\n") && SplitLines("a\r\n\r\n") == ["a", ""]
    ensures NewText("a\r\n\r\n", EndingsOnly) == Some("a\n") && SplitLines("a\n") == ["a"]
  {
    var raw := "a\r\n\r\n";
    assert LinesFrom("", "") == [];
    assert LinesFrom("\r\n", "") == [""] + LinesFrom("", "");
    assert raw[1..][2..] == "\r\n";
    assert LinesFrom(raw[1..], "a") == ["a"] + LinesFrom("\r\n", "");
    assert "" + [raw[0]] == "a" && LinesFrom(raw, "") == LinesFrom(raw[1..], "" + [raw[0]]);
    assert Join(["a", ""], '\n') == "a\n";
    assert LinesFrom("\n", "a") == ["a"] + LinesFrom("", "");
    assert "a\n"[1..] == "\n";
  }

  /** A file of one carriage return becomes empty. */
  lemma {:induction false} LoneBlankLineIsLost()
    ensures LosesBlank("\r") && NewText("\r", EndingsOnly) == Some("") && SplitLines("") == []
  {
    assert LinesFrom("", "") == [];
    assert LinesFrom("\r", "") == [""];
  }
}
