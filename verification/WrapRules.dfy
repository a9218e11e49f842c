/** What the line wrapping decides, in terms of the text alone: where a literal is cut, where a call may be broken,
    what its arguments are, and how many of them a line holds. */
module WrapRules {
  import opened Text
  import opened Splitting
  import opened LineWrap

  // ----- Chunks -----

  /** The words from `a` to before `b` with a space between them; empty words in front are passed over. */
  function Row(words: seq<string>, a: nat, b: nat): string
    requires a <= b <= |words|
    decreases b - a
  {
    if a == b then "" else if words[a] == "" then Row(words, a + 1, b) else Join(words[a..b], ' ')
  }

  /** One more word, behind a space unless nothing stands in front of it. */
  lemma {:induction false} RowMore(words: seq<string>, a: nat, b: nat)
    requires a <= b < |words|
    ensures Row(words, a, b + 1) == if Row(words, a, b) == "" then words[b] else Row(words, a, b) + " " + words[b]
    decreases b - a
  {
    if a == b {
      assert words[a..b + 1] == [words[b]];
    } else if words[a] == "" {
      RowMore(words, a + 1, b);
    } else {
      var front := words[a..b];
      assert words[a..b + 1] == front + [words[b]] && front[0] != "";
      JoinAppend(front, [words[b]], ' ');
      JoinStarts(front);
    }
  }

  lemma {:induction false} JoinStarts(parts: seq<string>)
    requires parts != [] && parts[0] != ""
    ensures Join(parts, ' ') != ""
  {
  }

  /** Chunk `i` of a packing: the words between two cuts, as many as fit. */
  ghost predicate IsChunk(words: seq<string>, width: nat, a: nat, b: nat, chunk: string)
    requires a <= b <= |words|
  {
    && chunk == Row(words, a, b) + (if b == |words| then "" else " ")
    && (forall k :: a < k < b ==> Row(words, a, k) == "" || |Row(words, a, k + 1)| <= width)
    && (b < |words| ==> Row(words, a, b) != "" && |Row(words, a, b + 1)| > width)
  }

  /** The chunks from word `a` on. */
  ghost predicate IsPacking(words: seq<string>, width: nat, a: nat, chunks: seq<string>)
    requires a <= |words|
    decreases |words| - a
  {
    chunks != [] && exists b :: a <= b <= |words| && StartsPacking(words, width, a, b, chunks)
  }

  ghost predicate StartsPacking(words: seq<string>, width: nat, a: nat, b: nat, chunks: seq<string>)
    requires a <= b <= |words| && chunks != []
    decreases |words| - a, 0
  {
    && IsChunk(words, width, a, b, chunks[0])
    && (b == |words| ==> |chunks| == 1)
    && (b < |words| ==> b > a && IsPacking(words, width, b, chunks[1..]))
  }

  lemma {:induction false} PackIsPacking(words: seq<string>, width: nat, a: nat, i: nat)
    requires a <= i <= |words|
    requires forall k :: a < k < i ==> Row(words, a, k) == "" || |Row(words, a, k + 1)| <= width
    ensures IsPacking(words, width, a, Pack(words, i, Row(words, a, i), width))
    decreases |words| - i
  {
    hide Row, IsPacking, IsChunk;
    var current := Row(words, a, i);
    if i == |words| {
      LastChunk(words, width, a);
    } else {
      RowMore(words, a, i);
      NoRow(words, a);
      if |Row(words, a, i + 1)| > width && current != "" {
        NoRow(words, i);
        RowMore(words, i, i);
        PackIsPacking(words, width, i, i + 1);
        FullChunk(words, width, a, i, Pack(words, i + 1, words[i], width));
      } else {
        PackIsPacking(words, width, a, i + 1);
      }
    }
  }

  lemma {:induction false} NoRow(words: seq<string>, a: nat)
    requires a <= |words|
    ensures Row(words, a, a) == ""
  {
  }

  lemma {:induction false} LastChunk(words: seq<string>, width: nat, a: nat)
    requires a <= |words|
    requires forall k :: a < k < |words| ==> Row(words, a, k) == "" || |Row(words, a, k + 1)| <= width
    ensures IsPacking(words, width, a, [Row(words, a, |words|)])
  {
    hide Row;
    var b := |words|;
    assert [Row(words, a, b)][0] == Row(words, a, b) + "";
    assert StartsPacking(words, width, a, b, [Row(words, a, b)]);
  }

  lemma {:induction false} FullChunk(words: seq<string>, width: nat, a: nat, b: nat, rest: seq<string>)
    requires a < b < |words| && Row(words, a, b) != "" && |Row(words, a, b + 1)| > width
    requires forall k :: a < k < b ==> Row(words, a, k) == "" || |Row(words, a, k + 1)| <= width
    requires IsPacking(words, width, b, rest)
    ensures IsPacking(words, width, a, [Row(words, a, b) + " "] + rest)
  {
    hide Row;
    var chunks := [Row(words, a, b) + " "] + rest;
    assert chunks[1..] == rest;
    assert StartsPacking(words, width, a, b, chunks);
  }

  /** There is one cut: a later one would hold a word too many, an earlier one would not be full. */
  lemma {:induction false} OneCut(words: seq<string>, width: nat, a: nat, b: nat, c: nat, x: string, y: string)
    requires a <= b < c <= |words| && b > a
    ensures !(IsChunk(words, width, a, b, x) && IsChunk(words, width, a, c, y))
  {
    hide Row;
  }

  lemma {:induction false} OnePacking(words: seq<string>, width: nat, a: nat, xs: seq<string>, ys: seq<string>)
    requires a <= |words| && IsPacking(words, width, a, xs) && IsPacking(words, width, a, ys)
    ensures xs == ys
    decreases |words| - a
  {
    hide Row, IsChunk;
    var b :| a <= b <= |words| && StartsPacking(words, width, a, b, xs);
    var c :| a <= c <= |words| && StartsPacking(words, width, a, c, ys);
    if b < c { OneCut(words, width, a, b, c, xs[0], ys[0]); }
    if c < b { OneCut(words, width, a, c, b, ys[0], xs[0]); }
    assert b == c;
    SameChunk(words, width, a, b, xs[0], ys[0]);
    if b < |words| {
      OnePacking(words, width, b, xs[1..], ys[1..]);
    }
    assert xs == [xs[0]] + xs[1..] && ys == [ys[0]] + ys[1..];
  }

  lemma {:induction false} SameChunk(words: seq<string>, width: nat, a: nat, b: nat, x: string, y: string)
    requires a <= b <= |words| && IsChunk(words, width, a, b, x) && IsChunk(words, width, a, b, y)
    ensures x == y
  {
  }

  /** Main result on `split_text`: the chunks are the words packed greedily, at least 16 wide. */
  lemma {:induction false} ChunksExactly(text: string, width: int, chunks: seq<string>)
    ensures chunks == Chunks(text, width)
            <==> IsPacking(Split(text, ' '), if width > 16 then width else 16, 0, chunks)
  {
    hide IsPacking, Row;
    var words := Split(text, ' ');
    var limit := if width > 16 then width else 16;
    NoRow(words, 0);
    PackIsPacking(words, limit, 0, 0);
    if IsPacking(words, limit, 0, chunks) {
      OnePacking(words, limit, 0, chunks, Chunks(text, width));
    }
  }

  // ----- Where a call may be broken -----

  /** Opening minus closing brackets from `i` to before `j`. */
  function Nesting(text: string, i: nat, j: nat): int
    requires i <= j <= |text|
  {
    if i == j then 0
    else
      var c := text[j - 1];
      Nesting(text, i, j - 1)
      + if c == '(' || c == '[' || c == '{' then 1 else if c == ')' || c == ']' || c == '}' then -1 else 0
  }

  /** A comma at `c` separates two arguments of the bracket at `i`, which is still open there. */
  predicate Separates(text: string, i: nat, c: nat) {
    && i < c < |text| && text[c] == ',' && Nesting(text, i, c) == 1
    && forall j :: i < j < c ==> Nesting(text, i, j) > 0
  }

  /** A round or curly bracket at `i` with two arguments. */
  ghost predicate HasArguments(text: string, i: nat) {
    && i < |text| && (text[i] == '(' || text[i] == '{')
    && exists c :: i < c < |text| && Separates(text, i, c)
  }

  lemma {:induction false} CommaAheadIs(text: string, i: nat, scan: nat)
    requires i < scan <= |text| && forall j :: i < j <= scan ==> Nesting(text, i, j) > 0
    ensures CommaAhead(text, scan, Nesting(text, i, scan)) <==> exists c :: scan <= c < |text| && Separates(text, i, c)
    decreases |text| - scan
  {
    if scan < |text| {
      NestingStep(text, i, scan);
      hide Nesting;
      if Nesting(text, i, scan + 1) > 0 {
        CommaAheadIs(text, i, scan + 1);
        if text[scan] == ',' && Nesting(text, i, scan) == 1 {
          assert Separates(text, i, scan);
        }
        if exists c :: scan + 1 <= c < |text| && Separates(text, i, c) {
          var c :| scan + 1 <= c < |text| && Separates(text, i, c);
          assert scan <= c;
        }
        if exists c :: scan <= c < |text| && Separates(text, i, c) {
          var c :| scan <= c < |text| && Separates(text, i, c);
          assert c == scan || scan + 1 <= c;
        }
      } else {
        forall c | scan <= c < |text|
          ensures !Separates(text, i, c)
        {
          ClosedBefore(text, i, scan + 1, c);
        }
      }
    }
  }

  lemma {:induction false} ClosedBefore(text: string, i: nat, j: nat, c: nat)
    requires i < j && j - 1 <= c < |text| && Nesting(text, i, j) <= 0
    requires text[j - 1] != ','
    ensures !Separates(text, i, c)
  {
    hide Nesting;
  }

  lemma {:induction false} NestingStep(text: string, i: nat, j: nat)
    requires i <= j < |text|
    ensures Nesting(text, i, j + 1) ==
            Nesting(text, i, j) + if Opener(text[j]) then 1 else if Closer(text[j]) then -1 else 0
    ensures Nesting(text, i, i) == 0
  {
  }

  lemma {:induction false} BreakExactly(text: string, i: nat)
    ensures BreakAt(text, i) <==> HasArguments(text, i)
  {
    hide Nesting, CommaAhead, Separates;
    if i < |text| && (text[i] == '(' || text[i] == '{') {
      NestingStep(text, i, i);
      CommaAheadStarts(text, i);
      CommaAheadIs(text, i, i + 1);
      if exists c :: i < c < |text| && Separates(text, i, c) {
        var c :| i < c < |text| && Separates(text, i, c);
        assert i + 1 <= c;
      }
    }
  }

  lemma {:induction false} CommaAheadStarts(text: string, i: nat)
    requires i < |text| && Opener(text[i])
    ensures CommaAhead(text, i, 0) == CommaAhead(text, i + 1, 1)
  {
  }

  /** Main result on `call_break`: the first round or curly bracket with two arguments. */
  lemma {:induction false} CallBreakExactly(text: string, r: int)
    ensures r == CallBreak(text, 0) <==>
            if r == -1 then forall k :: 0 <= k < |text| ==> !HasArguments(text, k)
            else 0 <= r < |text| && HasArguments(text, r) && forall k :: 0 <= k < r ==> !HasArguments(text, k)
  {
    hide CallBreak, HasArguments, BreakAt;
    forall k: nat
      ensures BreakAt(text, k) <==> HasArguments(text, k)
    {
      BreakExactly(text, k);
    }
  }

  // ----- Arguments -----

  /** A comma outside every bracket. */
  predicate TopComma(rest: string, k: nat) {
    k < |rest| && rest[k] == ',' && Nesting(rest, 0, k) == 0
  }

  /** The pieces of `rest` between the cuts `ks`. */
  predicate CutAt(rest: string, ks: seq<nat>, args: seq<string>) {
    && |args| == |ks| + 1
    && (forall i :: 0 <= i < |ks| ==> ks[i] < |rest|)
    && (forall i, j :: 0 <= i < j < |ks| ==> ks[i] < ks[j])
    && forall i :: 0 <= i < |args| ==> args[i] == rest[StartOf(ks, i)..EndAt(rest, ks, i)]
  }

  function StartOf(ks: seq<nat>, i: nat): nat
    requires i <= |ks|
  {
    if i == 0 then 0 else ks[i - 1] + 1
  }

  function EndAt(rest: string, ks: seq<nat>, i: nat): nat
    requires i <= |ks|
  {
    if i == |ks| then |rest| else ks[i]
  }

  /** The arguments from position `i` on, the one begun at `from` included. */
  lemma {:induction false} ArgsCut(rest: string, from: nat, i: nat) returns (ks: seq<nat>)
    requires from <= i <= |rest|
    ensures |Args(rest, i, Nesting(rest, 0, i), rest[from..i])| == |ks| + 1
    ensures forall k :: 0 <= k < |ks| ==> i <= ks[k] < |rest|
    ensures forall k, l :: 0 <= k < l < |ks| ==> ks[k] < ks[l]
    ensures forall k: nat :: k in ks <==> k >= i && TopComma(rest, k)
    ensures var args := Args(rest, i, Nesting(rest, 0, i), rest[from..i]);
            && args[0] == rest[from..EndAt(rest, ks, 0)]
            && forall k :: 1 <= k < |args| ==> args[k] == rest[StartOf(ks, k)..EndAt(rest, ks, k)]
    decreases |rest| - i
  {
    hide Nesting, Args;
    ArgsStep(rest, i, Nesting(rest, 0, i), rest[from..i]);
    if i == |rest| {
      ks := [];
    } else {
      NestingStep(rest, 0, i);
      assert rest[from..i + 1] == rest[from..i] + [rest[i]];
      if TopComma(rest, i) {
        assert rest[i + 1..i + 1] == "";
        var more := ArgsCut(rest, i + 1, i + 1);
        ks := [i] + more;
        OneMoreCut(rest, rest[from..i], Args(rest, i + 1, Nesting(rest, 0, i + 1), ""), i, more);
      } else {
        ks := ArgsCut(rest, from, i + 1);
      }
    }
  }

  lemma {:induction false} ArgsStep(rest: string, i: nat, depth: int, current: string)
    ensures i >= |rest| ==> Args(rest, i, depth, current) == [current]
    ensures i < |rest| ==>
              var d := if Opener(rest[i]) then depth + 1 else if Closer(rest[i]) then depth - 1 else depth;
              Args(rest, i, depth, current) ==
              if rest[i] == ',' && d == 0 then [current] + Args(rest, i + 1, d, "")
              else Args(rest, i + 1, d, current + [rest[i]])
  {
  }

  /** A first argument in front of the others. */
  lemma {:induction false} OneMoreCut(rest: string, first: string, tail: seq<string>, i: nat, more: seq<nat>)
    requires |tail| == |more| + 1 && i < |rest|
    requires forall k :: 0 <= k < |more| ==> i < more[k] < |rest|
    requires forall k, l :: 0 <= k < l < |more| ==> more[k] < more[l]
    requires tail[0] == rest[i + 1..EndAt(rest, more, 0)]
    requires forall k :: 1 <= k < |tail| ==> tail[k] == rest[StartOf(more, k)..EndAt(rest, more, k)]
    ensures var args, ks := [first] + tail, [i] + more;
            forall k :: 1 <= k < |args| ==> args[k] == rest[StartOf(ks, k)..EndAt(rest, ks, k)]
  {
    var args, ks := [first] + tail, [i] + more;
    forall k | 1 <= k < |args|
      ensures args[k] == rest[StartOf(ks, k)..EndAt(rest, ks, k)]
    {
      assert args[k] == tail[k - 1];
    }
  }

  /** Main result on the arguments: they are cut at the commas outside every bracket, and nowhere else. */
  lemma {:induction false} ArgsExactly(rest: string) returns (ks: seq<nat>)
    ensures CutAt(rest, ks, Args(rest, 0, 0, ""))
    ensures forall k: nat :: k in ks <==> TopComma(rest, k)
  {
    assert rest[0..0] == "";
    ks := ArgsCut(rest, 0, 0);
  }

  // ----- Filling lines -----

  /** Arguments `a` to before `b`, each but the last of all with its comma, one space between two. */
  function Listed(args: seq<string>, a: nat, b: nat): string
    requires a <= b <= |args|
    decreases b - a
  {
    if a == b then ""
    else Strip(args[a]) + (if a + 1 < |args| then "," else "") + (if a + 1 < b then " " else "") + Listed(args, a + 1, b)
  }

  predicate HasRoom(args: seq<string>, start: string, a: nat, b: nat)
    requires a <= b <= |args|
  {
    |start + Listed(args, a, b)| <= 100
  }

  /** A line that starts with `start` and holds arguments `a` to before `b`: the first `must` of them in any case, each
      further one because there is room for it, and not the next because there is none. */
  ghost predicate IsLine(args: seq<string>, start: string, must: nat, a: nat, b: nat, line: string)
    requires a <= b <= |args|
  {
    && line == start + Listed(args, a, b)
    && (b < |args| ==> a + must <= b && !HasRoom(args, start, a, b + 1))
    && (forall k :: a + must < k <= b ==> HasRoom(args, start, a, k))
  }

  /** The lines of the arguments: line `i` holds those from cut `i` to before the next cut, the lines behind the first
      are indented by `margin` and hold at least one. */
  ghost predicate IsFilling(
    args: seq<string>, start: string, must: nat, margin: nat, cuts: seq<nat>, lines: seq<string>)
  {
    && |cuts| == |lines| + 1 && lines != []
    && cuts[|lines|] == |args|
    && forall i :: 0 <= i < |lines| ==> LineAt(args, start, must, margin, cuts, lines, i)
  }

  ghost predicate LineAt(
    args: seq<string>, start: string, must: nat, margin: nat, cuts: seq<nat>, lines: seq<string>, i: nat)
    requires i < |lines| && |cuts| == |lines| + 1
  {
    && cuts[i] <= cuts[i + 1] <= |args|
    && if i == 0 then IsLine(args, start, must, cuts[i], cuts[i + 1], lines[i])
       else cuts[i] < |args| && IsLine(args, Spaces(margin), 1, cuts[i], cuts[i + 1], lines[i])
  }

  lemma {:induction false} ListedMore(args: seq<string>, a: nat, k: nat)
    requires a <= k < |args|
    ensures Listed(args, a, k + 1) == Listed(args, a, k) + (if k > a then " " else "") + Piece(args, k)
    decreases k - a
  {
    hide Strip;
    if a == k {
      assert Listed(args, a + 1, k + 1) == "";
    } else {
      ListedMore(args, a + 1, k);
      if k == a + 1 {
        assert Listed(args, a + 1, k) == "";
      }
    }
  }

  /** Behind an argument that is not the last of all a line ends on a comma. */
  lemma {:induction false} EndsOnComma(args: seq<string>, start: string, a: nat, k: nat)
    requires a < k < |args|
    ensures EndsWith(start + Listed(args, a, k), ",") && !EndsWith(start + Listed(args, a, k), "(")
  {
    hide Strip, Listed;
    ListedMore(args, a, k - 1);
    var line := start + Listed(args, a, k);
    assert Piece(args, k - 1)[|Piece(args, k - 1)| - 1] == ',';
    assert line[|line| - 1] == ',';
    assert line[|line| - 1..] == ",";
  }

  /** Filling, with arguments `a` to before `k` on the line already. */
  lemma {:induction false} FillFills(args: seq<string>, start: string, must: nat, a: nat, k: nat, margin: nat)
    returns (cuts: seq<nat>)
    requires a <= k <= |args| && !EndsWith(start, ",")
    requires k == a ==> must == if EndsWith(start, "(") then 1 else 0
    requires k > a ==> must <= 1
    requires forall j :: a + must < j <= k ==> HasRoom(args, start, a, j)
    ensures IsFilling(args, start, must, margin, cuts, Fill(args, k, start + Listed(args, a, k), margin))
    ensures cuts[0] == a
    decreases |args| - k, 1
  {
    hide Listed, HasRoom, Piece, EndsWith, IsFilling, Fill, Spaces;
    var line := start + Listed(args, a, k);
    FillStep(args, k, line, margin);
    if k == |args| {
      cuts := [a, k];
      LastLine(args, start, must, a);
      OneLine(args, start, must, a, margin, line);
    } else {
      ListedMore(args, a, k);
      if k > a { EndsOnComma(args, start, a, k); } else { Unlisted(args, start, a); }
      assert line + (if EndsWith(line, ",") then " " else "") + Piece(args, k) == start + Listed(args, a, k + 1);
      RoomIs(args, start, a, k + 1);
      if HasRoom(args, start, a, k + 1) || EndsWith(line, "(") {
        cuts := FillFills(args, start, must, a, k + 1, margin);
      } else {
        var rest := FillBehind(args, k, margin);
        cuts := [a] + rest;
        LineBehind(args, start, must, a, margin, rest, Fill(args, k + 1, Spaces(margin) + Piece(args, k), margin));
      }
    }
  }

  /** The lines behind a full one, from argument `k` on. */
  lemma {:induction false} FillBehind(args: seq<string>, k: nat, margin: nat) returns (cuts: seq<nat>)
    requires k < |args|
    ensures IsFilling(args, Spaces(margin), 1, margin, cuts, Fill(args, k + 1, Spaces(margin) + Piece(args, k), margin))
    ensures cuts[0] == k
    decreases |args| - k, 0
  {
    hide Listed, HasRoom, Piece, EndsWith, IsFilling, Fill, Spaces;
    SpacesEnd(margin);
    ListedMore(args, k, k);
    Unlisted(args, Spaces(margin), k);
    assert "" + "" + Piece(args, k) == Piece(args, k);
    cuts := FillFills(args, Spaces(margin), 1, k, k + 1, margin);
  }

  lemma {:induction false} FillStep(args: seq<string>, k: nat, line: string, margin: nat)
    requires k <= |args|
    ensures k == |args| ==> Fill(args, k, line, margin) == [line]
    ensures k < |args| ==>
              var candidate := line + (if EndsWith(line, ",") then " " else "") + Piece(args, k);
              Fill(args, k, line, margin) ==
              if |candidate| > MAX_COLS && !EndsWith(line, "(")
              then [line] + Fill(args, k + 1, Spaces(margin) + Piece(args, k), margin)
              else Fill(args, k + 1, candidate, margin)
  {
  }

  lemma {:induction false} OneLine(args: seq<string>, start: string, must: nat, a: nat, margin: nat, line: string)
    requires a <= |args| && IsLine(args, start, must, a, |args|, line)
    ensures IsFilling(args, start, must, margin, [a, |args|], [line])
  {
    hide Spaces, IsLine;
    var cuts := [a, |args|];
    assert cuts[0] == a && cuts[1] == |args| && [line][0] == line;
    assert LineAt(args, start, must, margin, cuts, [line], 0);
  }

  lemma {:induction false} LastLine(args: seq<string>, start: string, must: nat, a: nat)
    requires a <= |args| && forall j :: a + must < j <= |args| ==> HasRoom(args, start, a, j)
    ensures IsLine(args, start, must, a, |args|, start + Listed(args, a, |args|))
  {
    hide HasRoom, Listed;
  }

  lemma {:induction false} LineBehind(
    args: seq<string>, start: string, must: nat, a: nat, margin: nat, rest: seq<nat>, lines: seq<string>)
    requires IsFilling(args, Spaces(margin), 1, margin, rest, lines)
    requires a + must <= rest[0] < |args| && !HasRoom(args, start, a, rest[0] + 1)
    requires forall j :: a + must < j <= rest[0] ==> HasRoom(args, start, a, j)
    ensures IsFilling(args, start, must, margin, [a] + rest, [start + Listed(args, a, rest[0])] + lines)
  {
    hide HasRoom, Listed, Spaces, IsLine;
    var cuts, all := [a] + rest, [start + Listed(args, a, rest[0])] + lines;
    FullLine(args, start, must, a, rest[0]);
    forall i | 0 <= i < |all|
      ensures LineAt(args, start, must, margin, cuts, all, i)
    {
      if i > 0 {
        assert LineAt(args, Spaces(margin), 1, margin, rest, lines, i - 1);
        assert all[i] == lines[i - 1] && cuts[i] == rest[i - 1] && cuts[i + 1] == rest[i];
      }
    }
  }

  lemma {:induction false} FullLine(args: seq<string>, start: string, must: nat, a: nat, b: nat)
    requires a + must <= b < |args| && !HasRoom(args, start, a, b + 1)
    requires forall j :: a + must < j <= b ==> HasRoom(args, start, a, j)
    ensures IsLine(args, start, must, a, b, start + Listed(args, a, b))
  {
    hide HasRoom, Listed;
  }

  lemma {:induction false} Unlisted(args: seq<string>, start: string, a: nat)
    requires a <= |args|
    ensures Listed(args, a, a) == "" && start + Listed(args, a, a) == start
  {
  }

  lemma {:induction false} RoomIs(args: seq<string>, start: string, a: nat, k: nat)
    requires a <= k <= |args|
    ensures HasRoom(args, start, a, k) <==> |start + Listed(args, a, k)| <= MAX_COLS
  {
  }

  lemma {:induction false} SpacesEnd(n: nat)
    ensures !EndsWith(Spaces(n), ",") && !EndsWith(Spaces(n), "(")
  {
    var s := Spaces(n);
    if n > 0 {
      assert s[n - 1] == ' ' && s[n - 1..][0] == s[n - 1];
    }
  }

  /** A filling is determined by its start. */
  lemma {:induction false} OneFilling(
    args: seq<string>, start: string, must: nat, margin: nat,
    cs: seq<nat>, xs: seq<string>, ds: seq<nat>, ys: seq<string>)
    requires IsFilling(args, start, must, margin, cs, xs) && IsFilling(args, start, must, margin, ds, ys)
    requires cs[0] == ds[0]
    ensures xs == ys
  {
    hide Listed, HasRoom;
    var n := 0;
    while n < |xs| && n < |ys|
      invariant n <= |xs| && n <= |ys|
      invariant cs[n] == ds[n] && (forall i :: 0 <= i < n ==> xs[i] == ys[i])
      invariant n < |xs| ==> LineAt(args, start, must, margin, cs, xs, n)
      invariant n < |ys| ==> LineAt(args, start, must, margin, ds, ys, n)
    {
      var from, own := if n == 0 then start else Spaces(margin), if n == 0 then must else 1;
      OneEnd(args, from, own, cs[n], cs[n + 1], ds[n + 1], xs[n], ys[n]);
      n := n + 1;
    }
  }

  lemma {:induction false} OneEnd(
    args: seq<string>, start: string, must: nat, a: nat, b: nat, c: nat, x: string, y: string)
    requires a <= b <= |args| && a <= c <= |args|
    requires IsLine(args, start, must, a, b, x) && IsLine(args, start, must, a, c, y)
    ensures b == c && x == y
  {
    hide Listed, HasRoom;
  }

  /** The lines of a call that is broken behind `head`: from argument 0 on, filled in one way. */
  ghost predicate IsBroken(args: seq<string>, head: string, lines: seq<string>) {
    exists cuts: seq<nat> ::
      && cuts != [] && cuts[0] == 0
      && IsFilling(args, head, if EndsWith(head, "(") then 1 else 0, |head|, cuts, lines)
  }

  /** Main result on filling: each line takes as many arguments as 100 columns hold, one in any case behind a round
      bracket or the margin. */
  lemma {:induction false} FillExactly(args: seq<string>, head: string, lines: seq<string>)
    requires !EndsWith(head, ",")
    ensures lines == Fill(args, 0, head, |head|) <==> IsBroken(args, head, lines)
  {
    hide Fill, IsLine, Spaces;
    var must := if EndsWith(head, "(") then 1 else 0;
    var filled := Fill(args, 0, head, |head|);
    Unlisted(args, head, 0);
    var cuts := FillFills(args, head, must, 0, 0, |head|);
    assert IsFilling(args, head, must, |head|, cuts, filled);
    if IsBroken(args, head, lines) {
      var ds: seq<nat> :|
        ds != [] && ds[0] == 0 && IsFilling(args, head, must, |head|, ds, lines);
      OneFilling(args, head, must, |head|, cuts, filled, ds, lines);
    }
  }

  // ----- Statements -----

  predicate AssignsAt(text: string, at: nat) {
    at + 3 <= |text| && text[at] == ' ' && text[at + 1] == '=' && text[at + 2] == ' '
  }

  /** The first ` = ` of a text. */
  ghost predicate AssignsFirst(text: string, at: nat) {
    AssignsAt(text, at) && forall k: nat :: k < at ==> !AssignsAt(text, k)
  }

  lemma {:induction false} AssignmentFrom(text: string, i: nat)
    ensures var r := Assignment(text, i);
            forall k: nat :: i <= k && (r.Some? ==> k < r.value) ==> !AssignsAt(text, k)
    ensures Assignment(text, i).Some? ==> AssignsAt(text, Assignment(text, i).value)
    decreases |text| - i
  {
    if i + 3 <= |text| {
      AssignsIs(text, i);
      if !AssignsAt(text, i) { AssignmentFrom(text, i + 1); }
    }
  }

  lemma {:induction false} AssignsIs(text: string, i: nat)
    requires i + 3 <= |text|
    ensures text[i..i + 3] == " = " <==> AssignsAt(text, i)
  {
    var t := text[i..i + 3];
    assert t[0] == text[i] && t[1] == text[i + 1] && t[2] == text[i + 2];
    if AssignsAt(text, i) {
      assert t == [' ', '=', ' '];
    }
  }

  lemma {:induction false} AssignmentExactly(text: string, at: nat)
    ensures Assignment(text, 0) == Some(at) <==> AssignsFirst(text, at)
  {
    hide Assignment;
    AssignmentFrom(text, 0);
  }

  /** The lines of a statement: itself when it has room or no place to break; behind its first ` = ` when that line has
      room and the rest is one line or starts with a line that has room; otherwise broken at its first call. */
  ghost predicate IsEmitted(indent: string, text: string, lines: seq<string>)
    decreases |text|
  {
    if |indent| + |text| <= 100 then lines == [indent + text]
    else if exists at: nat, tail :: SplitsOff(indent, text, at, tail) then
      exists at: nat, tail :: SplitsOff(indent, text, at, tail) && lines == [indent + text[..at] + " ="] + tail
    else if exists k: nat :: BreaksAt(text, k) then
      exists k: nat :: BreaksAt(text, k) && IsBrokenAt(indent, text, k, lines)
    else lines == [indent + text]
  }

  /** The part behind the first ` = ` becomes the lines `tail`. */
  ghost predicate SplitsOff(indent: string, text: string, at: nat, tail: seq<string>)
    decreases |text|, 0
  {
    && AssignsFirst(text, at) && |indent| + at + 2 <= 100
    && (tail != [] && (|tail| == 1 || |tail[0]| <= 100))
    && at + 3 <= |text| && IsEmitted(indent + "  ", text[at + 3..], tail)
  }

  ghost predicate BreaksAt(text: string, k: nat) {
    HasArguments(text, k) && forall j: nat :: j < k ==> !HasArguments(text, j)
  }

  ghost predicate IsBrokenAt(indent: string, text: string, k: nat, lines: seq<string>)
    requires BreaksAt(text, k)
  {
    IsBroken(Args(text[k + 1..], 0, 0, ""), indent + text[..k + 1], lines)
  }

  lemma {:induction false} BreaksIs(text: string, k: nat)
    ensures CallBreak(text, 0) == k <==> BreaksAt(text, k)
    ensures CallBreak(text, 0) < 0 ==> !BreaksAt(text, k)
  {
    hide CallBreak, HasArguments;
    CallBreakExactly(text, k);
    CallBreakExactly(text, -1);
    CallBreakExactly(text, CallBreak(text, 0));
    assert BreaksAt(text, k) ==> k < |text| by { ArgumentsInside(text, k); }
  }

  lemma {:induction false} ArgumentsInside(text: string, k: nat)
    ensures HasArguments(text, k) ==> k < |text| && (text[k] == '(' || text[k] == '{')
  {
  }

  lemma {:induction false} BrokenIs(indent: string, text: string, k: nat, lines: seq<string>)
    requires BreaksAt(text, k)
    ensures k < |text| && (lines == Broken(indent, text) <==> IsBrokenAt(indent, text, k, lines))
  {
    hide CallBreak, HasArguments, Args, Fill, IsBroken;
    BreaksIs(text, k);
    ArgumentsInside(text, k);
    var head := indent + text[..k + 1];
    assert head[|head| - 1] == text[k];
    assert head[|head| - 1..] == [text[k]];
    FillExactly(Args(text[k + 1..], 0, 0, ""), head, lines);
  }

  lemma {:induction false} UnbrokenIs(indent: string, text: string)
    requires forall k: nat :: !BreaksAt(text, k)
    ensures Broken(indent, text) == [indent + text]
  {
    hide BreaksAt, Args, Fill, CallBreak;
    var r := CallBreak(text, 0);
    if r >= 0 { BreaksIs(text, r); }
  }

  /** What `emit_statement` does behind an assignment, or without one. */
  lemma {:induction false} EmitStep(indent: string, text: string)
    ensures |indent| + |text| <= MAX_COLS ==> EmitStatement(indent, text) == [indent + text]
    ensures |indent| + |text| > MAX_COLS ==>
              EmitStatement(indent, text) ==
              if Splits(indent, text) then
                var at := Assignment(text, 0).value;
                [indent + text[..at] + " ="] + EmitStatement(indent + "  ", text[at + 3..])
              else Broken(indent, text)
  {
    hide Assignment, Broken;
  }

  predicate Splits(indent: string, text: string) {
    var at := Assignment(text, 0);
    && at.Some? && |indent| + at.value + 2 <= MAX_COLS
    && var tail := EmitStatement(indent + "  ", text[at.value + 3..]);
       |tail| == 1 || |tail[0]| <= MAX_COLS
  }

  lemma {:induction false} SplitsIs(indent: string, text: string, at: nat, tail: seq<string>)
    requires forall rest, lines :: |rest| < |text| ==>
               (lines == EmitStatement(indent + "  ", rest) <==> IsEmitted(indent + "  ", rest, lines))
    ensures SplitsOff(indent, text, at, tail)
            <==> Splits(indent, text) && Assignment(text, 0) == Some(at) && at + 3 <= |text|
                 && tail == EmitStatement(indent + "  ", text[at + 3..])
  {
    hide Assignment, EmitStatement, IsEmitted, AssignsFirst;
    AssignmentExactly(text, at);
    if at + 3 <= |text| {
      var rest := text[at + 3..];
      assert |rest| < |text|;
      assert tail == EmitStatement(indent + "  ", rest) <==> IsEmitted(indent + "  ", rest, tail);
    }
  }

  /** The cases of `IsEmitted` one by one. */
  lemma {:induction false} EmittedShort(indent: string, text: string, lines: seq<string>)
    requires |indent| + |text| <= 100
    ensures IsEmitted(indent, text, lines) <==> lines == [indent + text]
  {
  }

  lemma {:induction false} EmittedSplit(indent: string, text: string, lines: seq<string>, at: nat, tail: seq<string>)
    requires |indent| + |text| > 100 && SplitsOff(indent, text, at, tail)
    requires forall b: nat, other :: SplitsOff(indent, text, b, other) ==> b == at && other == tail
    ensures at <= |text|
    ensures IsEmitted(indent, text, lines) <==> lines == [indent + text[..at] + " ="] + tail
  {
    hide SplitsOff, BreaksAt;
    SplitInside(indent, text, at, tail);
  }

  lemma {:induction false} SplitInside(indent: string, text: string, at: nat, tail: seq<string>)
    requires SplitsOff(indent, text, at, tail)
    ensures at <= |text|
  {
  }

  lemma {:induction false} EmittedBroken(indent: string, text: string, lines: seq<string>, k: nat)
    requires |indent| + |text| > 100 && (forall at: nat, tail :: !SplitsOff(indent, text, at, tail)) && BreaksAt(text, k)
    ensures IsEmitted(indent, text, lines) <==> IsBrokenAt(indent, text, k, lines)
  {
    hide SplitsOff, IsBrokenAt, HasArguments;
  }

  lemma {:induction false} EmittedWhole(indent: string, text: string, lines: seq<string>)
    requires |indent| + |text| > 100 && (forall at: nat, tail :: !SplitsOff(indent, text, at, tail))
    requires forall k: nat :: !BreaksAt(text, k)
    ensures IsEmitted(indent, text, lines) <==> lines == [indent + text]
  {
    hide SplitsOff, IsBrokenAt, BreaksAt;
  }

  /** Main result on `emit_statement`. */
  lemma {:induction false} EmitExactly(indent: string, text: string, lines: seq<string>)
    ensures lines == EmitStatement(indent, text) <==> IsEmitted(indent, text, lines)
    decreases |text|
  {
    hide EmitStatement, IsEmitted, Splits, SplitsOff, BreaksAt, Broken, IsBrokenAt, Assignment;
    EmitStep(indent, text);
    if |indent| + |text| <= 100 {
      EmittedShort(indent, text, lines);
    } else {
      forall rest, more | |rest| < |text|
        ensures more == EmitStatement(indent + "  ", rest) <==> IsEmitted(indent + "  ", rest, more)
      {
        EmitExactly(indent + "  ", rest, more);
      }
      forall at: nat, tail
        ensures SplitsOff(indent, text, at, tail) <==>
                  Splits(indent, text) && Assignment(text, 0) == Some(at) && at + 3 <= |text| &&
                  tail == EmitStatement(indent + "  ", text[at + 3..])
      {
        SplitsIs(indent, text, at, tail);
      }
      if Splits(indent, text) {
        var at := SplitPlace(indent, text);
        EmittedSplit(indent, text, lines, at, EmitStatement(indent + "  ", text[at + 3..]));
      } else if k: nat :| BreaksAt(text, k) {
        BrokenIs(indent, text, k, lines);
        EmittedBroken(indent, text, lines, k);
      } else {
        UnbrokenIs(indent, text);
        EmittedWhole(indent, text, lines);
      }
    }
  }

  lemma {:induction false} SplitPlace(indent: string, text: string) returns (at: nat)
    requires Splits(indent, text)
    ensures Assignment(text, 0) == Some(at) && at + 3 <= |text|
  {
    hide EmitStatement;
    at := Assignment(text, 0).value;
  }
}
