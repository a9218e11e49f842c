/** Some lines of text and their records, for the examples. */
module Samples {
  import opened Text
  import opened Sanitizer
  import opened Lines

  // ----- Reading a record off a text -----

  /** A text without white space at either end. */
  predicate Trim(s: string) {
    s != [] && !IsSpace(s[0]) && !IsSpace(s[|s| - 1])
  }

  lemma {:induction false} TrimStays(s: string)
    requires Trim(s)
    ensures RStrip(s) == s && LStrip(s) == s && Strip(s) == s && Strip(RStrip(s)) == s
  {
  }

  lemma {:induction false} KindOfTrim(s: string)
    requires Trim(s) && s[0] != '/' && s[0] != '*'
    ensures PhysicalKind(s) ==
            if IsIdLine(s) then Id
            else if BraceDelta(s) > 0 then Open
            else if BraceDelta(s) < 0 then Close
            else if IsHandler(s) then Handler
            else if IsSimpleProp(s) then Prop else Other
  {
    TrimStays(s);
    hide IsSimpleProp, IsIdLine, BraceDelta, IsHandler, Strip, RStrip, Trim;
  }

  lemma {:induction false} CountOnce(s: string, chars: string, i: nat)
    requires i < |s| && s[i] in chars
    requires forall j :: 0 <= j < |s| && j != i ==> s[j] !in chars
    ensures Count(s, chars) == 1
    decreases |s|
  {
    var front := s[..|s| - 1];
    if i == |s| - 1 {
      CountAbsent(front, chars);
    } else {
      assert front[i] == s[i];
      CountOnce(front, chars, i);
    }
  }

  /** A line whose code, literals filled in, ends on no operator. */
  lemma {:induction false} NoOperator(s: string, t: string)
    requires Sanitize(s, '0') == t && t != [] && RStrip(t) == t
    requires t[|t| - 1] !in "?+-*/%&|^" && t[|t| - 1] != ':'
    ensures !HasTrailingOperator(s, false)
  {
    hide Sanitize, SeparatorColon, RStrip, Trim, Count, EndsWith;
  }

  lemma {:induction false} WordIsNoOperator(c: char)
    requires IsWord(c)
    ensures c !in "?+-*/%&|^" && c != ':'
  {
  }

  /** A line whose code shows no bracket at all. */
  lemma {:induction false} NoBrackets(s: string, clean: string)
    requires Sanitize(s, ' ') == clean && forall k :: 0 <= k < |clean| ==> clean[k] !in "([{)]}"
    ensures BracketDelta(s) == 0 && BraceDelta(s) == 0 && Count(clean, "{}[]") == 0
  {
    hide Sanitize;
    assert forall k :: 0 <= k < |clean| ==>
      clean[k] !in "([{" && clean[k] !in ")]}" && clean[k] !in "{" && clean[k] !in "}" && clean[k] !in "{}[]";
    CountAbsent(clean, "([{");
    CountAbsent(clean, ")]}");
    CountAbsent(clean, "{");
    CountAbsent(clean, "}");
    CountAbsent(clean, "{}[]");
  }

  // ----- A property -----

  /** A plain property line without brackets in its code. */
  predicate Simple(line: Line) {
    line.kind == Prop && line.brackets == 0 && !line.trailing && !line.nested && line.fence == Neither
  }

  lemma {:induction false} PropertySample(s: string, clean: string, filled: string)
    requires Trim(s) && s[0] != '/' && s[0] != '*'
    requires !IsIdLine(s) && !IsHandler(s) && IsSimpleProp(s)
    requires Sanitize(s, ' ') == clean && forall k :: 0 <= k < |clean| ==> clean[k] !in "([{)]}"
    requires Sanitize(s, '0') == filled && Trim(filled) && IsWord(filled[|filled| - 1])
    ensures Simple(Describe(s)) && Describe(s).rawBraces == Count(s, "{") - Count(s, "}")
  {
    KindOfTrim(s);
    WordIsNoOperator(filled[|filled| - 1]);
    TrimStays(filled);
    NoOperator(s, filled);
    NoBrackets(s, clean);
    DescribeWellFormed(s);
    hide IsBraceFreeControl, HasTrailingOperator, IsContinuation, OpensJsBody, IsCloseThenOpen, IsFenceLine,
      PhysicalKind, BracketDelta, BraceDelta, Sanitize, LStrip, RStrip, Strip, Count, Trim, IsIdLine, IsSimpleProp, IsHandler;
  }

  /** A property with a name of one letter. */
  predicate OneLetter(s: string) {
    |s| > 2 && (s[0] == 'x' || s[0] == 'y') && s[1] == ':'
  }

  lemma {:induction false} OneLetterProp(s: string)
    requires OneLetter(s)
    ensures !IsIdLine(s) && !IsHandler(s) && IsSimpleProp(s)
  {
    assert SkipSpaces(s, 0) == 0 && SkipWord(s, 1, true) == 1 && SkipSpaces(s, 1) == 1;
    NotAt(s, "id");
    NotAt(s, "on");
    NotAt(s, "readonly");
    NotAt(s, "property");
    hide SkipSpaces, SkipWord, WordAt;
  }

  lemma {:induction false} NotAt(s: string, word: string)
    requires word != [] && s != [] && s[0] != word[0]
    ensures !WordAt(s, 0, word)
  {
    if |word| <= |s| {
      assert s[0..0 + |word|][0] == s[0];
    }
  }

  /** Code without literals or a `//` comment is kept as it is. */
  lemma {:induction false} PlainCode(s: string, i: nat, fill: char)
    requires i <= |s| && forall k :: i <= k < |s| ==> !IsQuote(s[k]) && !CommentAt(s, k)
    ensures From(s, i, None, fill) == s[i..]
    decreases |s| - i
  {
    if i < |s| {
      PlainCode(s, i + 1, fill);
    }
  }

  lemma {:induction false} PlainLine(s: string, fill: char)
    requires forall k :: 0 <= k < |s| ==> !IsQuote(s[k]) && !CommentAt(s, k)
    ensures Sanitize(s, fill) == s
  {
    PlainCode(s, 0, fill);
  }

  const SHORT := "x: 1"
  const LONG := "xx: 1"
  const STRAY := "text: \"}\""

  lemma {:induction false} ShortSample()
    ensures Simple(Describe(SHORT)) && Describe(SHORT).rawBraces == 0 && Describe(SHORT).text == SHORT
  {
    hide Sanitize, IsIdLine, IsHandler, IsSimpleProp;
    var s := SHORT;
    OneLetterProp(s);
    PlainLine(s, ' ');
    PlainLine(s, '0');
    PropertySample(s, s, s);
    NoBraces(s);
    DescribeKeepsText(s);
  }

  lemma {:induction false} LongKind()
    ensures !IsIdLine("xx: 1") && !IsHandler("xx: 1") && IsSimpleProp("xx: 1")
  {
  }

  lemma {:induction false} LongClean()
    ensures Sanitize("xx: 1", ' ') == "xx: 1" && Sanitize("xx: 1", '0') == "xx: 1"
  {
    PlainLine("xx: 1", ' ');
    PlainLine("xx: 1", '0');
  }

  lemma {:induction false} LongSample()
    ensures Simple(Describe(LONG)) && Describe(LONG).rawBraces == 0 && Describe(LONG).text == LONG
  {
    var s := LONG;
    LongKind();
    LongClean();
    hide Sanitize, IsIdLine, IsHandler, IsSimpleProp;
    PropertySample(s, s, s);
    NoBraces(s);
    DescribeKeepsText(s);
  }

  lemma {:induction false} NoBraces(s: string)
    requires forall k :: 0 <= k < |s| ==> s[k] != '{' && s[k] != '}'
    ensures Count(s, "{") == 0 && Count(s, "}") == 0
  {
    assert forall k :: 0 <= k < |s| ==> s[k] !in "{" && s[k] !in "}";
    CountAbsent(s, "{");
    CountAbsent(s, "}");
  }

  lemma {:induction false} StrayIsNoId()
    ensures !IsIdLine("text: \"}\"")
  {
    NotAt("text: \"}\"", "id");
    assert SkipSpaces("text: \"}\"", 0) == 0;
    hide SkipSpaces, SkipWord, WordAt;
  }

  lemma {:induction false} StrayIsNoHandler()
    ensures !IsHandler("text: \"}\"")
  {
  }

  lemma {:induction false} StrayIsProp()
    ensures IsSimpleProp("text: \"}\"")
  {
    var s := "text: \"}\"";
    NotAt(s, "readonly");
    NotAt(s, "property");
    assert SkipSpaces(s, 0) == 0 && SkipWord(s, 1, true) == 4 && SkipSpaces(s, 4) == 4;
    hide SkipSpaces, SkipWord, WordAt;
  }

  lemma {:induction false} StrayClean()
    ensures Sanitize("text: \"}\"", ' ') == "text:    "
  {
  }

  lemma {:induction false} StrayFilled()
    ensures Sanitize("text: \"}\"", '0') == "text: 000"
  {
  }

  lemma {:induction false} StrayBraces()
    ensures Count("text: \"}\"", "{") == 0 && Count("text: \"}\"", "}") == 1
  {
    var s := "text: \"}\"";
    assert |s| == 9 && s[7] == '}';
    assert forall k :: 0 <= k < |s| ==> s[k] !in "{";
    assert forall k :: 0 <= k < |s| && k != 7 ==> s[k] !in "}";
    CountAbsent(s, "{");
    CountOnce(s, "}", 7);
  }

  lemma {:induction false} StraySample()
    ensures Simple(Describe(STRAY)) && Describe(STRAY).rawBraces == -1 && Describe(STRAY).text == STRAY
  {
    hide Sanitize, IsIdLine, IsHandler, IsSimpleProp;
    var s := STRAY;
    StrayIsNoId();
    StrayIsNoHandler();
    StrayIsProp();
    StrayClean();
    StrayFilled();
    PropertySample(s, "text:    ", "text: 000");
    StrayBraces();
    DescribeKeepsText(s);
  }

  const LONGER := "y: 1234567890"
  const TAKER := "x: 1 /* c */"

  lemma {:induction false} LongerSample()
    ensures Simple(Describe(LONGER)) && Describe(LONGER).text == LONGER
  {
    var s := LONGER;
    hide Sanitize, IsIdLine, IsHandler, IsSimpleProp;
    OneLetterProp(s);
    PlainLine(s, ' ');
    PlainLine(s, '0');
    PropertySample(s, s, s);
    DescribeKeepsText(s);
  }

  /** The closing `/` of a comment counts as an operator. */
  lemma {:induction false} TakerTakes()
    ensures HasTrailingOperator("x: 1 /* c */", false)
  {
    hide Sanitize, SeparatorColon, Count, EndsWith;
    PlainLine("x: 1 /* c */", '0');
    assert RStrip("x: 1 /* c */") == "x: 1 /* c */";
  }

  lemma {:induction false} TakerShape()
    ensures Trim("x: 1 /* c */") && OneLetter("x: 1 /* c */")
    ensures forall k :: 0 <= k < |"x: 1 /* c */"| ==> "x: 1 /* c */"[k] !in "([{)]}"
  {
  }

  lemma {:induction false} TakerClean()
    ensures Sanitize("x: 1 /* c */", ' ') == "x: 1 /* c */"
  {
    PlainLine("x: 1 /* c */", ' ');
  }

  lemma {:induction false} TakerSample()
    ensures var line := Describe(TAKER);
            line.kind == Prop && line.brackets == 0 && line.trailing && !line.nested && line.text == TAKER
  {
    TakerShape();
    TakerClean();
    TakerTakes();
    TakerLine("x: 1 /* c */");
  }

  lemma {:induction false} TakerLine(s: string)
    requires Trim(s) && OneLetter(s) && Sanitize(s, ' ') == s && forall k :: 0 <= k < |s| ==> s[k] !in "([{)]}"
    requires HasTrailingOperator(s, false)
    ensures var line := Describe(s);
            line.kind == Prop && line.brackets == 0 && line.trailing && !line.nested && line.text == s
  {
    hide Sanitize, IsIdLine, IsHandler, IsSimpleProp, HasTrailingOperator;
    OneLetterProp(s);
    KindOfTrim(s);
    NoBrackets(s, s);
    DescribeKeepsText(s);
    hide IsBraceFreeControl, IsContinuation, OpensJsBody, IsCloseThenOpen, IsFenceLine,
      PhysicalKind, BracketDelta, BraceDelta, LStrip, RStrip, Strip, Count, Trim;
  }

  // ----- A control line and its body -----

  const CONTROL := "else"
  const BODY := " z: []"

  lemma {:induction false} ControlKind()
    ensures !IsIdLine("else") && !IsHandler("else") && !IsSimpleProp("else")
  {
    var s := "else";
    assert SkipSpaces(s, 0) == 0 && SkipWord(s, 1, true) == 4 && SkipSpaces(s, 4) == 4;
    NotAt(s, "id");
    NotAt(s, "on");
    NotAt(s, "readonly");
    NotAt(s, "property");
    hide SkipSpaces, SkipWord, WordAt;
  }

  lemma {:induction false} ControlClean()
    ensures Sanitize("else", ' ') == "else" && Sanitize("else", '0') == "else"
  {
    PlainLine("else", ' ');
    PlainLine("else", '0');
  }

  lemma {:induction false} ControlTrim()
    ensures Trim("else") && RStrip("else") == "else" && LStrip("else") == "else" && SkipSpaces("else", 0) == 0
  {
    TrimStays("else");
  }

  lemma {:induction false} ControlEnds()
    ensures !EndsWith("else", "{") && !EndsWith("else", ";") && Count("else", "(") == 0 && Count("else", ")") == 0
  {
    CountAbsent("else", "(");
    CountAbsent("else", ")");
  }

  lemma {:induction false} ControlShape()
    ensures IsBraceFreeControl("else")
  {
    hide Sanitize, Count, KeywordParens, SkipSpaces, RStrip, EndsWith, WordAt, Trim, LStrip;
    ControlClean();
    ControlTrim();
    ControlEnds();
    assert "else"[0..] == "else";
  }

  lemma {:induction false} ControlCode()
    ensures BracketDelta("else") == 0 && BraceDelta("else") == 0 && !HasTrailingOperator("else", false)
  {
    ControlClean();
    ControlTrim();
    hide Sanitize, SeparatorColon, Count, RStrip, IsBraceFreeControl;
    NoBrackets("else", "else");
    WordIsNoOperator("else"[3]);
    NoOperator("else", "else");
  }

  lemma {:induction false} ControlSample()
    ensures var line := Describe(CONTROL);
            && line.kind == Other && line.control && line.brackets == 0 && !line.trailing && line.fence == Neither
            && line.indent == 0
  {
    ControlKind();
    ControlTrim();
    ControlShape();
    ControlCode();
    KindOfTrim("else");
    DescribeWellFormed("else");
    hide IsBraceFreeControl, HasTrailingOperator, IsContinuation, OpensJsBody, IsCloseThenOpen, IsFenceLine,
      PhysicalKind, BracketDelta, BraceDelta, Sanitize, RStrip, LStrip, Strip, Count;
  }

  /** What a property with a one-letter name is not. */
  lemma {:induction false} OneLetterPlain(s: string)
    requires OneLetter(s) && Trim(s) && Sanitize(s, ' ') == s
    ensures var line := Describe(s); line.indent == 0 && !line.separates && !line.control
  {
    TrimStays(s);
    assert SkipSpaces(s, 0) == 0 && s[0..] == s;
    NotAt(s, "if");
    NotAt(s, "for");
    NotAt(s, "while");
    NotAt(s, "else");
    NotStart(s, "}");
    NotStart(s, "#");
    NotStart(s, "else");
    NotStart(s, "while");
    hide HasTrailingOperator, IsContinuation, OpensJsBody, IsCloseThenOpen, IsFenceLine,
      PhysicalKind, BracketDelta, BraceDelta, Sanitize, RStrip, LStrip, Strip, Count, SkipSpaces, WordAt, StartsWith;
  }

  lemma {:induction false} LongerIsPlain()
    ensures Describe(LONGER).indent == 0 && !Describe(LONGER).separates && !Describe(LONGER).control
  {
    hide Sanitize, Describe;
    var s := LONGER;
    PlainLine(s, ' ');
    OneLetterPlain(s);
  }

  lemma {:induction false} ShortIsPlain()
    ensures !Describe(SHORT).control
  {
    hide Sanitize, Describe;
    var s := SHORT;
    PlainLine(s, ' ');
    OneLetterPlain(s);
  }

  lemma {:induction false} NotStart(s: string, prefix: string)
    requires prefix != [] && s != [] && s[0] != prefix[0]
    ensures !StartsWith(s, prefix)
  {
    if |prefix| <= |s| {
      assert s[..|prefix|][0] == s[0];
    }
  }

  /** A line of one space and a text. */
  lemma {:induction false} Indented(s: string, t: string)
    requires s == [' '] + t && Trim(t)
    ensures RStrip(s) == s && LStrip(s) == t && Strip(s) == t && SkipSpaces(s, 0) == 1
  {
    assert s[1] == t[0];
    assert SkipSpaces(s, 1) == 1;
  }

  lemma {:induction false} BodyText()
    ensures RStrip(" z: []") == " z: []" && LStrip(" z: []") == "z: []" && Strip(" z: []") == "z: []"
    ensures SkipSpaces(" z: []", 0) == 1
  {
    assert " z: []" == [' '] + "z: []";
    Indented(" z: []", "z: []");
  }

  lemma {:induction false} NotWordAt(s: string, i: nat, word: string)
    requires word != [] && i < |s| && s[i] != word[0]
    ensures !WordAt(s, i, word)
  {
    if i + |word| <= |s| {
      assert s[i..i + |word|][0] == s[i];
    }
  }

  lemma {:induction false} BodyIsProp()
    ensures !IsIdLine(" z: []") && !IsHandler(" z: []") && IsSimpleProp(" z: []")
  {
    var s := " z: []";
    BodyText();
    assert SkipWord(s, 2, true) == 2 && SkipSpaces(s, 2) == 2;
    NotWordAt(s, 1, "id");
    NotWordAt(s, 1, "on");
    NotWordAt(s, 1, "readonly");
    NotWordAt(s, 1, "property");
    hide SkipSpaces, SkipWord, WordAt;
  }

  lemma {:induction false} BodyCounts()
    ensures Count(" z: []", "([{") == 1 && Count(" z: []", ")]}") == 1
    ensures Count(" z: []", "{") == 0 && Count(" z: []", "}") == 0
  {
    CountOnce(" z: []", "([{", 4);
    CountOnce(" z: []", ")]}", 5);
    CountAbsent(" z: []", "{");
    CountAbsent(" z: []", "}");
  }

  lemma {:induction false} Counted(s: string, chars: string, i: nat)
    requires i < |s| && s[i] in chars
    ensures Count(s, chars) > 0
    decreases |s|
  {
    if i < |s| - 1 {
      assert s[..|s| - 1][i] == s[i];
      Counted(s[..|s| - 1], chars, i);
    }
  }

  lemma {:induction false} BodyCode()
    ensures Sanitize(" z: []", ' ') == " z: []" && Sanitize(" z: []", '0') == " z: []"
  {
    PlainLine(" z: []", ' ');
    PlainLine(" z: []", '0');
  }

  lemma {:induction false} BodyNests()
    ensures Count(" z: []", "{}[]") > 0
  {
    Counted(" z: []", "{}[]", 4);
  }

  lemma {:induction false} BodyKind()
    ensures PhysicalKind(" z: []") == Prop && BracketDelta(" z: []") == 0
    ensures !HasTrailingOperator(" z: []", false)
  {
    BodyText();
    BodyIsProp();
    BodyCounts();
    BodyCode();
    assert " z: []"[5] == ']' && "z: []"[0] == 'z';
    NotStart("z: []", "//");
    NotStart("z: []", "/*");
    NotStart("z: []", "*");
    hide Sanitize, Count, RStrip, LStrip, Strip, StartsWith, IsIdLine, IsHandler, IsSimpleProp, SeparatorColon;
    NoOperator(" z: []", " z: []");
  }

  lemma {:induction false} BodyEnds()
    ensures !EndsWith(" z: []", ";") && !EndsWith(" z: []", "]]") && !EndsWith(" z: []", "{")
    ensures !StartsWith("z: []", "{")
  {
  }

  lemma {:induction false} BodySample()
    ensures var line := Describe(BODY);
            && line.kind == Prop && line.brackets == 0 && !line.trailing && line.fence == Neither && line.indent == 1
            && line.nested && !line.braced && !line.semicolon && !line.attribute
  {
    BodyText();
    BodyKind();
    BodyCode();
    BodyNests();
    BodyEnds();
    DescribeWellFormed(" z: []");
    hide IsBraceFreeControl, HasTrailingOperator, IsContinuation, OpensJsBody, IsCloseThenOpen, IsFenceLine,
      PhysicalKind, BracketDelta, BraceDelta, Sanitize, RStrip, LStrip, Strip, Count, StartsWith, EndsWith;
  }

  // ----- An object, its id and its end -----

  const HEADER := "Item {"
  const ID := "id: a"
  const FOOTER := "}"

  lemma {:induction false} HeaderText()
    ensures Sanitize("Item {", ' ') == "Item {"
  {
  }

  lemma {:induction false} HeaderIsNoId()
    ensures !IsIdLine("Item {")
  {
  }

  lemma {:induction false} HeaderSample()
    ensures var line := Describe(HEADER); line.kind == Open && !line.js && !line.reopens
  {
    hide IsBraceFreeControl, HasTrailingOperator, IsContinuation, OpensJsBody, IsCloseThenOpen, IsFenceLine,
      PhysicalKind, BracketDelta, BraceDelta, Sanitize, LStrip, RStrip, Strip, Count, IsIdLine, IsSimpleProp, IsHandler;
    HeaderIsNoId();
    HeaderDelta();
    TrimStays("Item {");
    KindOfTrim("Item {");
    HeaderIsQml();
  }

  lemma {:induction false} HeaderDelta()
    ensures BraceDelta("Item {") == 1
  {
    HeaderText();
    HeaderBraces();
    hide Sanitize, Count;
  }

  lemma {:induction false} HeaderBraces()
    ensures Count("Item {", "{") == 1 && Count("Item {", "}") == 0
  {
    var s := "Item {";
    CountOnce(s, "{", 5);
    CountAbsent(s, "}");
  }

  lemma {:induction false} NoArrow()
    ensures !ContainsFrom("Item {", "=>", 0)
  {
    NotContained("Item {", "=>", 0);
  }

  lemma {:induction false} NotContained(s: string, needle: string, i: nat)
    requires needle != [] && needle[0] !in s
    ensures !ContainsFrom(s, needle, i)
    decreases |s| - i
  {
    if i + |needle| <= |s| {
      assert s[i..i + |needle|][0] == s[i];
      NotContained(s, needle, i + 1);
    }
  }

  lemma {:induction false} HeaderSpaces()
    ensures SkipSpaces("Item {", 0) == 0 && RStrip("Item ") == "Item"
  {
  }

  lemma {:induction false} HeaderIsQml()
    ensures !OpensJsBody("Item {") && !IsCloseThenOpen("Item {")
  {
    hide Sanitize, ContainsFrom, RStrip, Strip, SkipSpaces, SkipWord, IsIdLine;
    var s := "Item {";
    HeaderText();
    TrimStays(s);
    NoArrow();
    HeaderSpaces();
    assert s[..5] == "Item ";
    assert s[0] == 'I';
  }

  lemma {:induction false} IdText()
    ensures IsIdLine("id: a")
  {
  }

  lemma {:induction false} IdSample()
    ensures var line := Describe(ID); line.kind == Id && line.rawBraces == 0 && !line.reopens
  {
    hide IsBraceFreeControl, HasTrailingOperator, IsContinuation, OpensJsBody, IsCloseThenOpen, IsFenceLine,
      PhysicalKind, BracketDelta, BraceDelta, Sanitize, LStrip, RStrip, Strip, Count, IsIdLine, IsSimpleProp, IsHandler;
    IdText();
    KindOfTrim("id: a");
    NoBraces("id: a");
    DescribeWellFormed("id: a");
  }

  lemma {:induction false} FooterText()
    ensures Sanitize("}", ' ') == "}" && !IsIdLine("}")
  {
  }

  lemma {:induction false} FooterMatches()
    ensures !IsContinuation("}") && !IsCloseThenOpen("}")
  {
  }

  lemma {:induction false} FooterBraces()
    ensures Count("}", "}") == 1 && Count("}", "{") == 0
  {
    CountOnce("}", "}", 0);
    CountAbsent("}", "{");
  }

  lemma {:induction false} FooterSample()
    ensures var line := Describe(FOOTER); line.kind == Close && line.rawBraces == -1 && !line.continues && !line.reopens
  {
    hide IsBraceFreeControl, HasTrailingOperator, IsContinuation, OpensJsBody, IsCloseThenOpen, IsFenceLine,
      PhysicalKind, BracketDelta, Sanitize, LStrip, RStrip, Strip, Count, IsIdLine, IsSimpleProp, IsHandler;
    FooterText();
    FooterMatches();
    FooterBraces();
    KindOfTrim("}");
    TrimStays("}");
  }

  lemma {:induction false} FooterCloses()
    ensures Describe(FOOTER).brackets == -1
  {
    hide IsBraceFreeControl, HasTrailingOperator, IsContinuation, OpensJsBody, IsCloseThenOpen, IsFenceLine,
      PhysicalKind, BraceDelta, Sanitize, LStrip, RStrip, Strip, Count, IsIdLine, IsSimpleProp, IsHandler;
    FooterText();
    CountOnce("}", ")]}", 0);
    CountAbsent("}", "([{");
  }

  // ----- Fences -----

  const OFF := "// code-verify off"
  const ON := "// code-verify on"

  lemma {:induction false} FenceSamples()
    ensures Describe(OFF).kind == Comment && Describe(OFF).fence == Off
    ensures Describe(ON).kind == Comment && Describe(ON).fence == On
  {
    OffText();
    OnText();
    DescribeWellFormed(OFF);
    DescribeWellFormed(ON);
    hide IsBraceFreeControl, HasTrailingOperator, IsContinuation, OpensJsBody, IsCloseThenOpen, IsFenceLine,
      PhysicalKind, BracketDelta, BraceDelta, Sanitize, LStrip, RStrip, Strip, Count;
  }

  lemma {:induction false} OffText()
    ensures IsFenceLine("// code-verify off", "off")
  {
    var s := "// code-verify off";
    assert s[0..2] == "//" && s[3..14] == "code-verify" && s[15..18] == "off";
    assert SkipSpaces(s, 0) == 0 && SkipSpaces(s, 2) == 3 && SkipSpaces(s, 14) == 15;
    hide SkipSpaces;
  }

  lemma {:induction false} OnText()
    ensures IsFenceLine("// code-verify on", "on") && !IsFenceLine("// code-verify on", "off")
  {
    var s := "// code-verify on";
    assert s[0..2] == "//" && s[3..14] == "code-verify" && s[15..17] == "on";
    assert SkipSpaces(s, 0) == 0 && SkipSpaces(s, 2) == 3 && SkipSpaces(s, 14) == 15;
    hide SkipSpaces;
  }
}
