/** `_strip_strings_and_comments`: string literals become fill characters and a
    `//` comment is dropped, so brackets can be counted and columns survive. */
module Sanitizer {
  import opened Text

  predicate IsQuote(c: char) { c == '"' || c == '\'' }

  // ----- The specification: the scanner as a two-mode recursion -----

  predicate CommentAt(line: string, i: nat) {
    i + 1 < |line| && line[i] == '/' && line[i + 1] == '/'
  }

  /** The output from position `i` on, in code (`quote` is None) or in a literal. */
  function From(line: string, i: nat, quote: Option<char>, fill: char): string
    requires i <= |line|
    decreases |line| - i
  {
    if i == |line| then []
    else if quote.None? then
      if CommentAt(line, i) then []
      else if IsQuote(line[i]) then [fill] + From(line, i + 1, Some(line[i]), fill)
      else [line[i]] + From(line, i + 1, None, fill)
    else if line[i] == '\\' && i + 1 < |line| then
      [fill, fill] + From(line, i + 2, quote, fill)
    else
      [fill] + From(line, i + 1, if line[i] == quote.value then None else quote, fill)
  }

  function Sanitize(line: string, fill: char): string {
    From(line, 0, None, fill)
  }

  lemma {:induction false} Shift(done: string, step: string, rest: string)
    ensures done + (step + rest) == (done + step) + rest
  {
  }

  /** The scanner itself. */
  method StripStringsAndComments(line: string, fill: char) returns (result: string)
    ensures result == Sanitize(line, fill)
  {
    result := [];
    var i := 0;
    while i < |line|
      invariant i <= |line|
      invariant result + From(line, i, None, fill) == Sanitize(line, fill)
    {
      var ch := line[i];
      if CommentAt(line, i) {
        break;
      }
      if IsQuote(ch) {
        Shift(result, [fill], From(line, i + 1, Some(ch), fill));
        result := result + [fill];
        i := i + 1;
        var open := true;
        while open && i < |line|
          invariant i <= |line|
          invariant result + From(line, i, if open then Some(ch) else None, fill) == Sanitize(line, fill)
          decreases |line| - i, open
        {
          if line[i] == '\\' && i + 1 < |line| {
            Shift(result, [fill, fill], From(line, i + 2, Some(ch), fill));
            i := i + 2;
            result := result + [fill, fill];
          } else {
            open := line[i] != ch;
            Shift(result, [fill], From(line, i + 1, if open then Some(ch) else None, fill));
            result := result + [fill];
            i := i + 1;
          }
        }
      } else {
        Shift(result, [ch], From(line, i + 1, None, fill));
        result := result + [ch];
        i := i + 1;
      }
    }
  }

  // ----- An independent reading: a character automaton -----

  datatype Mode = Code | Literal(quote: char) | Escaped(quote: char)

  function Step(mode: Mode, c: char): Mode {
    match mode
    case Code => if IsQuote(c) then Literal(c) else Code
    case Literal(q) => if c == '\\' then Escaped(q) else if c == q then Code else Literal(q)
    case Escaped(q) => Literal(q)
  }

  /** The mode in which the automaton meets character `k`. */
  function ModeAt(line: string, k: nat): Mode
    requires k <= |line|
  {
    if k == 0 then Code else Step(ModeAt(line, k - 1), line[k - 1])
  }

  predicate CommentStart(line: string, k: nat)
    requires k <= |line|
  {
    CommentAt(line, k) && ModeAt(line, k).Code?
  }

  /** What the sanitized line shows in column `k`. */
  function Shown(line: string, k: nat, fill: char): char
    requires k < |line|
  {
    if ModeAt(line, k).Code? && !IsQuote(line[k]) then line[k] else fill
  }

  /** The columns from `i` up to the first comment that starts outside every literal. */
  function Columns(line: string, i: nat, fill: char): string
    requires i <= |line|
    decreases |line| - i
  {
    if i == |line| || CommentStart(line, i) then [] else [Shown(line, i, fill)] + Columns(line, i + 1, fill)
  }

  lemma {:induction false} ColumnsAt(line: string, i: nat, k: nat, fill: char)
    requires i <= |line| && k <= |Columns(line, i, fill)|
    ensures i + k <= |line|
    ensures k < |Columns(line, i, fill)| ==>
              i + k < |line| && Columns(line, i, fill)[k] == Shown(line, i + k, fill) && !CommentStart(line, i + k)
    ensures k == |Columns(line, i, fill)| ==> i + k == |line| || CommentStart(line, i + k)
    decreases k
  {
    if k > 0 { ColumnsAt(line, i + 1, k - 1, fill); }
  }

  lemma {:induction false} FromIsColumns(line: string, i: nat, quote: Option<char>, fill: char)
    requires i <= |line|
    requires ModeAt(line, i) == if quote.None? then Code else Literal(quote.value)
    ensures From(line, i, quote, fill) == Columns(line, i, fill)
    decreases |line| - i
  {
    if i == |line| || (quote.None? && CommentAt(line, i)) {
    } else if quote.Some? && line[i] == '\\' && i + 1 < |line| {
      assert ModeAt(line, i + 1) == Escaped(quote.value);
      FromIsColumns(line, i + 2, quote, fill);
      assert Columns(line, i, fill) == [fill] + ([fill] + Columns(line, i + 2, fill));
    } else if i + 1 < |line| {
      var next := if quote.None? then (if IsQuote(line[i]) then Some(line[i]) else None)
                  else if line[i] == quote.value then None else quote;
      FromIsColumns(line, i + 1, next, fill);
    } else {
      assert From(line, i + 1, None, fill) == [] && Columns(line, i + 1, fill) == [];
    }
  }

  /** Column by column, the sanitizer is the automaton: columns survive up to the first
      comment that starts outside every literal, and only there is anything cut. */
  lemma {:induction false} SanitizeShows(line: string, fill: char, k: nat)
    requires k <= |Sanitize(line, fill)|
    ensures k <= |line|
    ensures k < |Sanitize(line, fill)| ==>
              k < |line| && Sanitize(line, fill)[k] == Shown(line, k, fill) && !CommentStart(line, k)
    ensures k == |Sanitize(line, fill)| ==> k == |line| || CommentStart(line, k)
  {
    FromIsColumns(line, 0, None, fill);
    ColumnsAt(line, 0, k, fill);
  }

  lemma {:induction false} AllCode(line: string, k: nat)
    requires k <= |line|
    requires forall i :: 0 <= i < |line| ==> !IsQuote(line[i])
    ensures ModeAt(line, k) == Code
  {
    if k > 0 { AllCode(line, k - 1); }
  }

  /** A sanitized line is a fixed point: nothing in it reads as a literal or a comment again. */
  lemma {:induction false} SanitizeIdempotent(line: string)
    ensures Sanitize(Sanitize(line, ' '), ' ') == Sanitize(line, ' ')
  {
    var out := Sanitize(line, ' ');
    var again := Sanitize(out, ' ');
    forall k | 0 <= k < |out|
      ensures !IsQuote(out[k])
    {
      SanitizeShows(line, ' ', k);
    }
    SanitizeShows(out, ' ', |again|);
    if |again| < |out| {
      SanitizeShows(line, ' ', |again|);
      SanitizeShows(line, ' ', |again| + 1);
    }
    forall k | 0 <= k < |out|
      ensures again[k] == out[k]
    {
      SanitizeShows(out, ' ', k);
      AllCode(out, k);
    }
  }

  /** `_bracket_delta` */
  function BracketDelta(line: string): int {
    var s := Sanitize(line, ' ');
    Count(s, "([{") - Count(s, ")]}")
  }

  /** `_brace_delta_raw` */
  function BraceDelta(line: string): int {
    var s := Sanitize(line, ' ');
    Count(s, "{") - Count(s, "}")
  }

  lemma {:induction false} SpacesAreCode(line: string, j: nat, k: nat)
    requires k <= j <= |line| && forall m :: 0 <= m < j ==> IsSpace(line[m])
    ensures ModeAt(line, k) == Code
  {
    if k > 0 {
      SpacesAreCode(line, j, k - 1);
      assert IsSpace(line[k - 1]);
    }
  }

  /** An all-blank line, and one that holds only a comment, sanitize to their indentation. */
  lemma {:induction false} SpacesThenComment(line: string, j: nat)
    requires j <= |line| && forall m :: 0 <= m < j ==> IsSpace(line[m])
    requires j == |line| || CommentAt(line, j)
    ensures Sanitize(line, ' ') == line[..j]
  {
    var out := Sanitize(line, ' ');
    SanitizeShows(line, ' ', |out|);
    SpacesAreCode(line, j, j);
    if j < |out| {
      SanitizeShows(line, ' ', j);
    }
    forall k | 0 <= k < j
      ensures out[k] == line[k]
    {
      SanitizeShows(line, ' ', k);
      SpacesAreCode(line, j, k);
    }
  }

  /** No bracket inside a literal or a comment is ever counted: every bracket of the
      sanitized line stands at a code column of the source line. */
  lemma {:induction false} BracketsAreCode(line: string, k: nat)
    requires k < |Sanitize(line, ' ')| && Sanitize(line, ' ')[k] in "([{)]}"
    ensures k < |line| && line[k] == Sanitize(line, ' ')[k] && ModeAt(line, k) == Code
    ensures forall c :: 0 <= c <= k ==> !CommentStart(line, c)
  {
    forall c | 0 <= c <= k
      ensures c < |line| && Sanitize(line, ' ')[c] == Shown(line, c, ' ') && !CommentStart(line, c)
    {
      SanitizeShows(line, ' ', c);
    }
    assert Shown(line, k, ' ') != ' ';
  }
}
