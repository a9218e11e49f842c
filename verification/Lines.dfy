/** Everything the fixers read of one physical line, and how it is computed from its
    characters. The passes are verified over arbitrary well-formed records; `Describe`
    turns text into such a record. */
module Lines {
  import opened Text
  import opened Sanitizer

  datatype Kind = Blank | Comment | Id | Prop | Open | Close | Handler | Other

  /** What a `code-verify off` / `code-verify on` line does to the fence. */
  datatype Fence = Neither | Off | On

  datatype Line = Line(
    text: string,
    kind: Kind,             // physical_kind
    indent: nat,            // _line_indent
    slashes: bool,          // the stripped line starts with `//`
    control: bool,          // _is_brace_free_control
    semicolon: bool,        // sanitized and stripped, it ends with `;`
    attribute: bool,        // ... or with `]]`
    braced: bool,           // as a body it starts or ends with `{`
    separates: bool,        // starts with `}`, `#`, `else` or `while`
    brackets: int,          // _bracket_delta
    braces: int,            // _brace_delta_raw
    rawBraces: int,         // count of `{` minus count of `}`, literals included
    nested: bool,           // one of `{}[]` outside literals
    trailing: bool,         // _has_trailing_operator as a first line
    trailingInner: bool,    // ... as an absorbed line
    continues: bool,        // starts with a continuation token
    js: bool,               // opens_js_body
    reopens: bool,          // `} Foo {`
    fence: Fence)

  // ----- Regular expressions, as recognisers -----

  predicate CharAt(s: string, i: nat, c: char) { i < |s| && s[i] == c }

  predicate WordAt(s: string, i: nat, word: string) {
    i + |word| <= |s| && s[i..i + |word|] == word
  }

  /** `\b` after position `i`, which ends a word. */
  predicate BoundaryAt(s: string, i: nat) { i >= |s| || !IsWord(s[i]) }

  /** `[A-Za-z_][\w.]*\s*:` at `i`: the index of the colon. */
  function NameColon(s: string, i: nat): (colon: Option<nat>)
    requires i <= |s|
    ensures colon.Some? ==> i < colon.value < |s| && s[colon.value] == ':' && IsNameStart(s[i])
  {
    if i < |s| && IsNameStart(s[i]) then
      var j := SkipSpaces(s, SkipWord(s, i + 1, true));
      if CharAt(s, j, ':') then Some(j) else None
    else None
  }

  /** `(?:property\s+\w+\s+)?` in front of the name. */
  function PropertyColon(s: string, i: nat): (colon: Option<nat>)
    requires i <= |s|
    ensures colon.Some? ==> i < colon.value < |s| && s[colon.value] == ':' && IsNameStart(s[i])
  {
    if WordAt(s, i, "property") then
      assert s[i] == s[i..i + |"property"|][0];
      var j := SkipSpaces(s, i + 8);
      var k := SkipWord(s, j, false);
      var l := SkipSpaces(s, k);
      if i + 8 < j < k < l && NameColon(s, l).Some? then NameColon(s, l) else NameColon(s, i)
    else NameColon(s, i)
  }

  /** `^\s*(?:readonly\s+)?` in front of that: the property separator of a QML line. */
  function SeparatorColon(s: string): (colon: Option<nat>)
    ensures colon.Some? ==> colon.value < |s| && s[colon.value] == ':'
    ensures colon.Some? ==> SkipSpaces(s, 0) < |s| && IsNameStart(s[SkipSpaces(s, 0)])
  {
    var i := SkipSpaces(s, 0);
    if WordAt(s, i, "readonly") then
      assert s[i] == s[i..i + |"readonly"|][0];
      var j := SkipSpaces(s, i + 8);
      if i + 8 < j && PropertyColon(s, j).Some? then PropertyColon(s, j) else PropertyColon(s, i)
    else PropertyColon(s, i)
  }

  /** `_SIMPLE_PROP`: at least one character follows the separator. */
  predicate IsSimpleProp(s: string) {
    SeparatorColon(s).Some? && SeparatorColon(s).value + 1 < |s|
  }

  /** `_HANDLER` */
  predicate IsHandler(s: string) {
    var i := SkipSpaces(s, 0);
    && WordAt(s, i, "on") && i + 2 < |s| && IsUpper(s[i + 2])
    && CharAt(s, SkipSpaces(s, SkipWord(s, i + 3, false)), ':')
  }

  /** `_ID_LINE` */
  predicate IsIdLine(s: string) {
    var i := SkipSpaces(s, 0);
    && WordAt(s, i, "id") && CharAt(s, SkipSpaces(s, i + 2), ':')
    && var v := SkipSpaces(s, SkipSpaces(s, i + 2) + 1);
       var e := SkipWord(s, v, false);
       v < e && SkipSpaces(s, e) == |s|
  }

  /** `_CLOSE_THEN_OPEN` */
  predicate IsCloseThenOpen(s: string) {
    var i := SkipSpaces(s, 0);
    && CharAt(s, i, '}')
    && var j := SkipSpaces(s, i + 1);
       && j < |s| && IsNameStart(s[j])
       && var k := SkipSpaces(s, SkipWord(s, j + 1, true));
          CharAt(s, k, '{') && k + 1 == |s|
  }

  /** `_CONTINUATION_PREFIX` */
  predicate IsContinuation(s: string) {
    var i := SkipSpaces(s, 0);
    && i < |s|
    && (s[i] in "?:+-*/%&|^,)]" || (s[i] == '.' && i + 1 < |s| && IsNameStart(s[i + 1])))
  }

  /** `_BRACE_FREE_CONTROL_RE`, applied to a line without trailing whitespace. */
  predicate IsControlShape(s: string) {
    var i := SkipSpaces(s, 0);
    || s[i..] == "else"
    || KeywordParens(s, i, "if")
    || KeywordParens(s, i, "for")
    || KeywordParens(s, i, "while")
    || (WordAt(s, i, "else") && SkipSpaces(s, i + 4) > i + 4 && KeywordParens(s, SkipSpaces(s, i + 4), "if"))
  }

  /** `keyword\s*\(.*\)` from `i` to the end. */
  predicate KeywordParens(s: string, i: nat, keyword: string)
    requires i <= |s|
  {
    && WordAt(s, i, keyword)
    && var j := SkipSpaces(s, i + |keyword|);
       CharAt(s, j, '(') && j + 1 < |s| && s[|s| - 1] == ')'
  }

  /** `_is_brace_free_control` */
  predicate IsBraceFreeControl(raw: string) {
    var s := RStrip(Sanitize(raw, ' '));
    s != [] && !EndsWith(s, "{") && !EndsWith(s, ";") && IsControlShape(s) && Count(s, "(") == Count(s, ")")
  }

  /** `opens_js_body` */
  predicate OpensJsBody(raw: string) {
    var stripped := RStrip(raw);
    && EndsWith(stripped, "{")
    && var s := Sanitize(Strip(stripped), ' ');
       var i := SkipSpaces(s, 0);
       var r := RStrip(s);
       || (WordAt(s, i, "function") && BoundaryAt(s, i + 8))
       || ContainsFrom(s, "=>", 0)
       || (EndsWith(r, "{") && EndsWith(RStrip(r[..|r| - 1]), ":"))
  }

  /** `_has_trailing_operator` */
  predicate HasTrailingOperator(raw: string, inner: bool) {
    var s := RStrip(Sanitize(raw, '0'));
    && s != []
    && var last := s[|s| - 1];
       || last in "?+-*/%&|^"
       || (inner && last == ':')
       || (!inner && last == ':' && SeparatorColon(s).Some? &&
           var value := RStrip(s[SeparatorColon(s).value + 1..]);
           var body := if EndsWith(value, ":") then value[..|value| - 1] else value;
           Count(body, "?") > Count(body, ":"))
  }

  /** `_FENCE_OFF_RE` / `_FENCE_ON_RE` */
  predicate IsFenceLine(s: string, mode: string) {
    var i := SkipSpaces(s, 0);
    && (WordAt(s, i, "//") || WordAt(s, i, "/*"))
    && var j := SkipSpaces(s, i + 2);
       (WordAt(s, j, "code-verify") && FenceMode(s, j + 11, mode)) ||
       (WordAt(s, j, "code-format") && FenceMode(s, j + 11, mode))
  }

  predicate FenceMode(s: string, i: nat, mode: string)
    requires i <= |s|
  {
    var j := SkipSpaces(s, i);
    i < j && WordAt(s, j, mode) && BoundaryAt(s, j + |mode|)
  }

  // ----- Classification -----

  /** `physical_kind`. The test for a lone `}` that follows the brace-count tests in the
      source can never be reached: such a line already counts as a close. */
  function PhysicalKind(raw: string): Kind {
    var stripped := RStrip(raw);
    var text := Strip(stripped);
    if text == [] then Blank
    else if StartsWith(text, "//") || StartsWith(text, "/*") || StartsWith(text, "*") then Comment
    else if IsIdLine(stripped) then Id
    else if BraceDelta(stripped) > 0 then Open
    else if BraceDelta(stripped) < 0 then Close
    else if IsHandler(stripped) then Handler
    else if IsSimpleProp(stripped) then Prop
    else Other
  }

  function Describe(raw: string): Line {
    var clean := Sanitize(raw, ' ');
    var code := RStrip(clean);
    var text := Strip(raw);
    Line(raw,
         PhysicalKind(raw),
         |raw| - |LStrip(raw)|,
         StartsWith(text, "//"),
         IsBraceFreeControl(raw),
         EndsWith(code, ";"),
         EndsWith(code, "]]"),
         StartsWith(LStrip(code), "{") || EndsWith(code, "{"),
         StartsWith(text, "}") || StartsWith(text, "#") || StartsWith(text, "else") || StartsWith(text, "while"),
         BracketDelta(raw),
         BraceDelta(raw),
         Count(raw, "{") - Count(raw, "}"),
         Count(clean, "{}[]") > 0,
         HasTrailingOperator(raw, false),
         HasTrailingOperator(raw, true),
         IsContinuation(RStrip(raw)),
         OpensJsBody(raw),
         IsCloseThenOpen(RStrip(raw)),
         if IsFenceLine(raw, "off") then Off else if IsFenceLine(raw, "on") then On else Neither)
  }

  lemma {:induction false} DescribeKeepsText(raw: string)
    ensures Describe(raw).text == raw
  {
    hide IsBraceFreeControl, HasTrailingOperator, IsContinuation, OpensJsBody, IsCloseThenOpen, IsFenceLine,
      PhysicalKind;
  }

  /** The line both fixers insert: the description of the empty text. */
  const EMPTY := Line("", Blank, 0, false, false, false, false, false, false, 0, 0, 0,
                      false, false, false, false, false, false, Neither)

  /** What the fixers need of a record: these facts tie the flags together. */
  ghost predicate WellFormed(line: Line) {
    && (line.control ==> line.kind != Blank && !line.slashes)
    && (line.kind == Blank ==> line.fence == Neither)
    && (line.kind == Prop ==> !line.continues && !line.reopens)
    && (line.kind == Blank ==> line.rawBraces == 0)
    && (line.kind == Id ==> !line.reopens)
    && (line.kind == Comment ==> line.continues)
    && (line.fence != Neither ==> line.kind == Comment)
    && (line.slashes ==> line.kind == Comment && line.brackets == 0)
  }

  ghost predicate AllWellFormed(lines: seq<Line>) {
    forall i :: 0 <= i < |lines| ==> WellFormed(lines[i])
  }

  // ----- The character-level facts behind WellFormed -----

  ghost predicate AllSpace(s: string) {
    forall k :: 0 <= k < |s| ==> IsSpace(s[k])
  }

  lemma {:induction false} StripEmpty(s: string)
    ensures AllSpace(s) <==> RStrip(s) == []
    ensures AllSpace(s) <==> Strip(s) == []
  {
    var r := RStrip(s);
    if r != [] {
      assert !IsSpace(r[|r| - 1]) && r[|r| - 1] == s[|r| - 1];
    }
  }

  lemma {:induction false} RStripTwice(s: string)
    ensures RStrip(RStrip(s)) == RStrip(s)
  {
  }

  lemma {:induction false} CountAbsent(s: string, chars: string)
    requires forall i :: 0 <= i < |s| ==> s[i] !in chars
    ensures Count(s, chars) == 0
  {
    if s != [] {
      CountAbsent(s[..|s| - 1], chars);
    }
  }

  lemma {:induction false} SkipSpacesUnique(s: string, i: nat)
    requires i < |s| && !IsSpace(s[i]) && forall k :: 0 <= k < i ==> IsSpace(s[k])
    ensures SkipSpaces(s, 0) == i
  {
  }

  lemma {:induction false} StripStart(s: string, i: nat)
    requires i < |s| && !IsSpace(s[i]) && forall k :: 0 <= k < i ==> IsSpace(s[k])
    ensures i < |RStrip(s)| && Strip(s) == RStrip(s)[i..]
  {
    var r := RStrip(s);
    assert r[i] == s[i];
    SkipSpacesUnique(r, i);
  }

  lemma {:induction false} CommentLineSanitizes(raw: string)
    requires StartsWith(Strip(raw), "//")
    ensures RStrip(Sanitize(raw, ' ')) == []
  {
    StripEmpty(raw);
    var i := SkipSpaces(raw, 0);
    StripStart(raw, i);
    assert Strip(raw)[0] == "//"[0] && Strip(raw)[1] == "//"[1];
    SpacesThenComment(raw, i);
    StripEmpty(raw[..i]);
  }

  lemma {:induction false} BlankLineSanitizes(raw: string)
    requires AllSpace(raw)
    ensures RStrip(Sanitize(raw, ' ')) == []
  {
    SpacesThenComment(raw, |raw|);
    assert raw[..|raw|] == raw;
    StripEmpty(raw);
  }

  /** A control line is neither blank nor a comment: both sanitize to nothing. */
  lemma {:induction false} ControlIsCode(raw: string)
    requires RStrip(Sanitize(raw, ' ')) != []
    ensures PhysicalKind(raw) != Blank && !StartsWith(Strip(raw), "//")
  {
    RStripTwice(raw);
    StripEmpty(raw);
    if AllSpace(raw) {
      BlankLineSanitizes(raw);
    } else if StartsWith(Strip(raw), "//") {
      CommentLineSanitizes(raw);
    }
  }

  lemma {:induction false} ControlHasCode(raw: string)
    requires IsBraceFreeControl(raw)
    ensures RStrip(Sanitize(raw, ' ')) != []
  {
    hide IsControlShape;
  }

  lemma {:induction false} BlankIsNoFence(raw: string, mode: string)
    requires AllSpace(raw)
    ensures !IsFenceLine(raw, mode)
  {
  }

  lemma {:induction false} BlankHasNoBraces(raw: string)
    requires AllSpace(raw)
    ensures Count(raw, "{") == 0 && Count(raw, "}") == 0
  {
    assert forall i :: 0 <= i < |raw| ==> raw[i] !in "{" && raw[i] !in "}";
    CountAbsent(raw, "{");
    CountAbsent(raw, "}");
  }

  lemma {:induction false} BlankIsSpace(raw: string)
    requires PhysicalKind(raw) == Blank
    ensures AllSpace(raw) && RStrip(raw) == []
  {
    hide IsSimpleProp, IsIdLine, BraceDelta, IsHandler, Strip, RStrip, AllSpace;
    RStripTwice(raw);
    StripEmpty(raw);
    StripEmpty(RStrip(raw));
  }

  lemma {:induction false} SimplePropStart(s: string)
    requires IsSimpleProp(s)
    ensures !IsContinuation(s) && !IsCloseThenOpen(s)
  {
  }

  lemma {:induction false} IdStart(s: string)
    requires IsIdLine(s)
    ensures !IsCloseThenOpen(s)
  {
    var i := SkipSpaces(s, 0);
    assert s[i..i + |"id"|][0] == s[i];
  }

  lemma {:induction false} IdIsIdLine(raw: string)
    requires PhysicalKind(raw) == Id
    ensures IsIdLine(RStrip(raw))
  {
    hide IsSimpleProp, IsIdLine, BraceDelta, IsHandler, Strip, RStrip;
  }

  lemma {:induction false} PropIsSimple(raw: string)
    requires PhysicalKind(raw) == Prop
    ensures IsSimpleProp(RStrip(raw))
  {
    hide IsSimpleProp, IsIdLine, BraceDelta, IsHandler, Strip, RStrip;
  }

  lemma {:induction false} CommentIsShown(raw: string)
    requires PhysicalKind(raw) == Comment
    ensures var text := Strip(RStrip(raw)); StartsWith(text, "//") || StartsWith(text, "/*") || StartsWith(text, "*")
  {
    hide IsSimpleProp, IsIdLine, BraceDelta, IsHandler, Strip, RStrip, StartsWith;
  }

  /** A comment line starts with `/` or `*`, and both are continuation characters. */
  lemma {:induction false} CommentContinues(raw: string)
    requires PhysicalKind(raw) == Comment
    ensures IsContinuation(RStrip(raw))
  {
    CommentIsShown(raw);
    var s := RStrip(raw);
    RStripTwice(raw);
    StripEmpty(s);
    var i := SkipSpaces(s, 0);
    StripStart(s, i);
    assert Strip(s)[0] == s[i];
    assert s[i] == "//"[0] || s[i] == "/*"[0] || s[i] == "*"[0];
  }

  /** A two-character mark at the start of the code starts the stripped text. */
  lemma {:induction false} MarkStarts(raw: string, mark: string)
    requires WordAt(raw, SkipSpaces(raw, 0), mark)
    requires |mark| == 2 && !IsSpace(mark[0]) && !IsSpace(mark[1])
    ensures StartsWith(Strip(RStrip(raw)), mark)
  {
    var i := SkipSpaces(raw, 0);
    assert raw[i..i + 2][0] == raw[i] && raw[i..i + 2][1] == raw[i + 1];
    StripStart(raw, i);
    var s := RStrip(raw);
    RStripTwice(raw);
    assert i + 1 < |s|;
    assert s[i] == raw[i] && s[i + 1] == raw[i + 1];
    StripStart(s, i);
    assert Strip(s) == s[i..];
    assert s[i..][..2] == mark;
  }

  lemma {:induction false} FenceStartsComment(raw: string, mode: string)
    requires IsFenceLine(raw, mode)
    ensures StartsWith(Strip(RStrip(raw)), "//") || StartsWith(Strip(RStrip(raw)), "/*")
  {
    hide FenceMode, SkipSpaces, RStrip, Strip, StartsWith, WordAt;
    if WordAt(raw, SkipSpaces(raw, 0), "//") {
      MarkStarts(raw, "//");
    } else {
      MarkStarts(raw, "/*");
    }
  }

  lemma {:induction false} SpacesHaveNoBrackets(s: string)
    requires AllSpace(s)
    ensures Count(s, "([{") == 0 && Count(s, ")]}") == 0
  {
    assert forall k :: 0 <= k < |s| ==> s[k] !in "([{" && s[k] !in ")]}";
    CountAbsent(s, "([{");
    CountAbsent(s, ")]}");
  }

  lemma {:induction false} SlashesHaveNoBrackets(raw: string)
    requires StartsWith(Strip(raw), "//")
    ensures BracketDelta(raw) == 0 && StartsWith(Strip(RStrip(raw)), "//")
  {
    hide AllSpace, StartsWith, LStrip, RStrip, Sanitize, Count;
    RStripTwice(raw);
    CommentLineSanitizes(raw);
    StripEmpty(Sanitize(raw, ' '));
    SpacesHaveNoBrackets(Sanitize(raw, ' '));
  }

  lemma {:induction false} KindOfComment(raw: string)
    requires StartsWith(Strip(RStrip(raw)), "//") || StartsWith(Strip(RStrip(raw)), "/*")
    ensures PhysicalKind(raw) == Comment
  {
    hide IsSimpleProp, IsIdLine, BraceDelta, IsHandler, Strip, RStrip;
  }

  /** Every described line is a well-formed record, so the theorems about records hold of text. */
  lemma {:induction false} DescribeWellFormed(raw: string)
    ensures WellFormed(Describe(raw))
  {
    hide IsBraceFreeControl, HasTrailingOperator, IsContinuation, OpensJsBody, IsCloseThenOpen, IsFenceLine,
      PhysicalKind, BracketDelta, BraceDelta, Sanitize, LStrip, RStrip, Strip, IsIdLine, IsSimpleProp, Count;
    var line := Describe(raw);
    if line.control {
      ControlHasCode(raw);
      ControlIsCode(raw);
    }
    if line.kind == Blank {
      BlankIsSpace(raw);
      BlankIsNoFence(raw, "on");
      BlankIsNoFence(raw, "off");
      BlankHasNoBraces(raw);
    }
    if line.kind == Id {
      IdIsIdLine(raw);
      IdStart(RStrip(raw));
    }
    if line.kind == Prop {
      PropIsSimple(raw);
      SimplePropStart(RStrip(raw));
    }
    if line.kind == Comment {
      CommentContinues(raw);
    }
    if IsFenceLine(raw, "off") {
      FenceStartsComment(raw, "off");
      KindOfComment(raw);
    }
    if IsFenceLine(raw, "on") {
      FenceStartsComment(raw, "on");
      KindOfComment(raw);
    }
    if line.slashes {
      SlashesHaveNoBrackets(raw);
      KindOfComment(raw);
    }
  }

  lemma {:induction false} EmptyKind()
    ensures PhysicalKind("") == Blank
  {
    assert LStrip("") == "" && RStrip("") == "";
    hide IsSimpleProp, IsIdLine, BraceDelta, IsHandler, RStrip, LStrip;
  }

  lemma {:induction false} EmptyMatches()
    ensures !IsBraceFreeControl("") && !HasTrailingOperator("", false) && !HasTrailingOperator("", true)
    ensures !IsContinuation("") && !OpensJsBody("") && !IsCloseThenOpen("")
    ensures !IsFenceLine("", "off") && !IsFenceLine("", "on")
  {
    assert Sanitize("", ' ') == "" && Sanitize("", '0') == "" && RStrip("") == "";
  }

  lemma {:induction false} EmptyParts()
    ensures Sanitize("", ' ') == "" && LStrip("") == "" && RStrip("") == "" && Strip("") == ""
    ensures BracketDelta("") == 0 && BraceDelta("") == 0
  {
  }

  /** The inserted line is a record like any other: the description of the empty text. */
  lemma {:induction false} EmptyIsDescribed()
    ensures Describe("") == EMPTY && WellFormed(EMPTY)
  {
    hide IsBraceFreeControl, HasTrailingOperator, IsContinuation, OpensJsBody, IsCloseThenOpen, IsFenceLine,
      PhysicalKind, BracketDelta, BraceDelta, Sanitize, LStrip, RStrip, Strip;
    EmptyKind();
    EmptyMatches();
    EmptyParts();
  }

  lemma {:induction false} EmptyIsWellFormed()
    ensures WellFormed(EMPTY)
  {
  }

  // ----- Whole buffers -----

  function DescribeAll(raws: seq<string>): (lines: seq<Line>)
    ensures |lines| == |raws| && forall k :: 0 <= k < |raws| ==> lines[k] == Describe(raws[k])
  {
    seq(|raws|, k requires 0 <= k < |raws| => Describe(raws[k]))
  }

  function Texts(lines: seq<Line>): (raws: seq<string>)
    ensures |raws| == |lines| && forall k :: 0 <= k < |lines| ==> raws[k] == lines[k].text
  {
    seq(|lines|, k requires 0 <= k < |lines| => lines[k].text)
  }

  /** The records are descriptions of their own texts. */
  ghost predicate Described(lines: seq<Line>) {
    forall k :: 0 <= k < |lines| ==> lines[k] == Describe(lines[k].text)
  }

  lemma {:induction false} DescribedIsWellFormed(lines: seq<Line>)
    requires Described(lines)
    ensures AllWellFormed(lines)
  {
    hide Describe, WellFormed;
    forall k | 0 <= k < |lines|
      ensures WellFormed(lines[k])
    {
      DescribeWellFormed(lines[k].text);
    }
  }

  lemma {:induction false} DescribedInput(raws: seq<string>)
    ensures Described(DescribeAll(raws))
  {
    forall k | 0 <= k < |raws|
      ensures Describe(raws[k]).text == raws[k]
    {
      DescribeKeepsText(raws[k]);
    }
    hide Describe;
  }

  lemma {:induction false} DescribedAgain(lines: seq<Line>)
    requires Described(lines)
    ensures DescribeAll(Texts(lines)) == lines
  {
    hide Describe;
  }
}
