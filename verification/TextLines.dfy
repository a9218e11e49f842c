/** What splitting a text into lines means: the lines hold no boundary, and with one boundary behind each they spell
    the text. */
module TextLines {
  import opened FileText

  predicate IsEnd(e: string) {
    e == "\r\n" || (|e| == 1 && IsBreak(e[0]))
  }

  /** A `\r` that is followed by `\n` is one boundary with it. */
  predicate Cut(e: string, rest: string) {
    !(e == "\r" && rest != "" && rest[0] == '\n')
  }

  /** `lines`, each with its own end, spell `s`; only a last line that is not empty may have no end. */
  ghost predicate Spells(s: string, lines: seq<string>, ends: seq<string>)
    decreases |lines|
  {
    && |lines| == |ends|
    && if lines == [] then s == ""
       else
         && (forall c :: c in lines[0] ==> !IsBreak(c))
         && |lines[0]| + |ends[0]| <= |s|
         && s[..|lines[0]|] == lines[0] && s[|lines[0]|..|lines[0]| + |ends[0]|] == ends[0]
         && var rest := s[|lines[0]| + |ends[0]|..];
            && (if ends[0] == "" then lines[0] != "" && rest == "" && |lines| == 1 else IsEnd(ends[0]) && Cut(ends[0], rest))
            && Spells(rest, lines[1..], ends[1..])
  }

  lemma {:induction false} EndBreaks(e: string, rest: string, current: string)
    requires IsEnd(e) && Cut(e, rest)
    ensures LinesFrom(e + rest, current) == [current] + LinesFrom(rest, "")
  {
    var s := e + rest;
    assert |e| == 1 ==> s[1..] == rest;
    assert |e| == 2 ==> s[2..] == rest;
  }

  lemma {:induction false} SpelledAreLines(s: string, lines: seq<string>, ends: seq<string>)
    requires Spells(s, lines, ends)
    ensures SplitLines(s) == lines
    decreases |lines|
  {
    hide LinesFrom, IsBreak;
    if lines == [] {
      LinesStop("");
    } else {
      var line, e := lines[0], ends[0];
      var rest := s[|line| + |e|..];
      assert s == line + (e + rest);
      LinesOver(line, e + rest, "");
      assert "" + line == line && lines == [line] + lines[1..];
      if e == "" {
        assert e + rest == "";
        LinesStop(line);
        assert lines[1..] == [];
      } else {
        EndBreaks(e, rest, line);
        SpelledAreLines(rest, lines[1..], ends[1..]);
      }
    }
  }

  /** The ends of the lines of `s`, behind `current`. */
  lemma {:induction false} LinesAreSpelled(s: string, current: string) returns (ends: seq<string>)
    requires forall c :: c in current ==> !IsBreak(c)
    ensures Spells(current + s, LinesFrom(s, current), ends)
    decreases |s|
  {
    hide Spells, IsBreak;
    if s == "" {
      ends := if current == "" then [] else [""];
      NoEnd(current);
    } else {
      var e := if s[0] == '\r' && |s| > 1 && s[1] == '\n' then "\r\n" else [s[0]];
      if e == "\r\n" || IsBreak(s[0]) {
        var rest := s[|e|..];
        var tail := LinesAreSpelled(rest, "");
        assert "" + rest == rest && s == e + rest;
        IsAnEnd(s);
        EndBreaks(e, rest, current);
        OneMoreLine(current, e, rest, LinesFrom(rest, ""), tail);
        ends := [e] + tail;
        assert current + s == current + e + rest;
      } else {
        ends := LinesAreSpelled(s[1..], current + [s[0]]);
        assert current + [s[0]] + s[1..] == current + s;
      }
    }
  }

  lemma {:induction false} IsAnEnd(s: string)
    requires s != "" && IsBreak(s[0])
    ensures var e := if s[0] == '\r' && |s| > 1 && s[1] == '\n' then "\r\n" else [s[0]];
            IsEnd(e) && Cut(e, s[|e|..])
  {
  }

  lemma {:induction false} NoEnd(current: string)
    requires forall c :: c in current ==> !IsBreak(c)
    ensures Spells(current + "", LinesFrom("", current), if current == "" then [] else [""])
  {
    if current != "" {
      var lines, ends := [current], [""];
      assert lines[1..] == [] && ends[1..] == [];
      assert Spells("", [], []);
      assert current + "" == current;
    }
  }

  lemma {:induction false} OneMoreLine(line: string, e: string, rest: string, lines: seq<string>, ends: seq<string>)
    requires (forall c :: c in line ==> !IsBreak(c)) && IsEnd(e) && Cut(e, rest) && Spells(rest, lines, ends)
    ensures Spells(line + e + rest, [line] + lines, [e] + ends)
  {
    hide IsBreak;
    var s := line + e + rest;
    assert s[|line| + |e|..] == rest && s[..|line|] == line && s[|line|..|line| + |e|] == e;
    assert ([line] + lines)[1..] == lines && ([e] + ends)[1..] == ends;
  }

  /** Main result: the lines of a text are the one list of texts without a boundary that spells it with a boundary
      behind each, `\r\n` being one and not two. */
  lemma {:induction false} LinesExactly(s: string, lines: seq<string>)
    ensures SplitLines(s) == lines <==> exists ends :: Spells(s, lines, ends)
  {
    hide LinesFrom, Spells;
    if SplitLines(s) == lines {
      var ends := LinesAreSpelled(s, "");
      assert "" + s == s;
    }
    if ends :| Spells(s, lines, ends) {
      SpelledAreLines(s, lines, ends);
    }
  }

  /** The boundaries of `str.splitlines`. */
  lemma {:induction false} BreaksAre(c: char)
    ensures IsBreak(c) <==>
            c as int in {0x0A, 0x0B, 0x0C, 0x0D, 0x1C, 0x1D, 0x1E, 0x85, 0x2028, 0x2029}
  {
  }
}
