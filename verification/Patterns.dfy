/** The recognisers of `Lines` against the regular expressions they stand for. */
module Patterns {
  import opened Text
  import opened Sanitizer
  import opened Lines
  import opened Regexes

  // ----- Names and property separators -----

  /** `\s*` */
  const SP := Star(Space)

  /** `[\w.]*\s*:` and `[A-Za-z_][\w.]*\s*:` */
  const NAME_REST := Cat(Star(Dotted), Cat(SP, Word(":")))
  const NAME := Cat(One(First), NAME_REST)

  /** `\w+\s+` and `property\s+\w+\s+` in front of a name. */
  const TYPED := Cat(Plus(Wordy), Cat(Plus(Space), NAME))
  const PROPERTY := Cat(Word("property"), Cat(Plus(Space), TYPED))

  /** `(?:property\s+\w+\s+)?[A-Za-z_][\w.]*\s*:` */
  const PLAIN := Alt(PROPERTY, NAME)

  /** The separator with its optional parts multiplied out. */
  const CHOICES := Cat(SP, Alt(Cat(Word("readonly"), Cat(Plus(Space), PLAIN)), PLAIN))

  /** `\s*(?:readonly\s+)?(?:property\s+\w+\s+)?[A-Za-z_][\w.]*\s*:` */
  const OPTIONAL_PROPERTY := Maybe(Cat(Word("property"), Cat(Plus(Space), Cat(Plus(Wordy), Plus(Space)))))
  const OPTIONAL_READONLY := Maybe(Cat(Word("readonly"), Plus(Space)))
  const SEPARATOR := Cat(SP, Cat(OPTIONAL_READONLY, Cat(OPTIONAL_PROPERTY, NAME)))

  /** `_SIMPLE_PROP`, `_HANDLER`, `_ID_LINE`, `_CLOSE_THEN_OPEN` */
  const SIMPLE_PROP := Cat(SEPARATOR, Cat(SP, Plus(Anything)))
  const HANDLER :=
    Cat(SP, Cat(Word("on"), Cat(One(Upper), Cat(Star(Wordy), Cat(SP, Cat(Word(":"), SP))))))
  const ID_LINE := Cat(SP, Cat(Word("id"), Cat(SP, Cat(Word(":"), Cat(SP, Cat(Plus(Wordy), SP))))))
  const CLOSE_THEN_OPEN :=
    Cat(SP, Cat(Word("}"), Cat(SP, Cat(One(First), Cat(Star(Dotted), Cat(SP, Word("{")))))))

  lemma {:induction false} SpacesThenMark(mark: string, s: string, i: nat, j: nat)
    requires i <= |s| && mark != "" && !IsSpace(mark[0])
    ensures Spans(Cat(SP, Word(mark)), s, i, j) <==> WordAt(s, SkipSpaces(s, i), mark) && j == SkipSpaces(s, i) + |mark|
  {
    SpacesEnd(s, i);
    JustWordBegins(mark, s, j, Space);
    StarThen(Space, Word(mark), s, i, j, SkipSpaces(s, i));
    WordEnds(mark, s, SkipSpaces(s, i), j);
  }

  /** `[\w.]*\s*` and then a mark. */
  lemma {:induction false} NameThenMark(mark: string, s: string, i: nat, j: nat)
    requires i <= |s| && mark != "" && !IsSpace(mark[0]) && !In(mark[0], Dotted)
    ensures var m := SkipSpaces(s, SkipWord(s, i, true));
            Spans(Cat(Star(Dotted), Cat(SP, Word(mark))), s, i, j) <==> WordAt(s, m, mark) && j == m + |mark|
  {
    hide Spans;
    var r := Cat(SP, Word(mark));
    WordRunEnds(s, i, true);
    forall k: nat | Spans(r, s, k, j)
      ensures BeginsAt(s, k, j, Dotted)
    {
      SpannedInside(r, s, k, j);
      SpacesThenMark(mark, s, k, j);
      var m := SkipSpaces(s, k);
      assert s[m..m + |mark|][0] == s[m];
      if m > k { assert IsSpace(s[k]); SpaceIsNoName(s[k]); }
    }
    StarThen(Dotted, r, s, i, j, SkipWord(s, i, true));
    SpacesThenMark(mark, s, SkipWord(s, i, true), j);
  }

  lemma {:induction false} SpaceIsNoName(c: char)
    ensures IsSpace(c) ==> !IsWord(c) && c != '.' && !IsNameStart(c)
  {
  }

  lemma {:induction false} NameColonIs(s: string, i: nat, c: nat)
    requires i <= |s|
    ensures NameColon(s, i) == Option.Some(c) <==> Spans(NAME, s, i, c + 1)
  {
    hide Spans;
    OneThen(First, NAME_REST, s, i, c + 1);
    if i < |s| {
      NameThenMark(":", s, i + 1, c + 1);
      ColonWord(s, SkipSpaces(s, SkipWord(s, i + 1, true)));
    }
  }

  lemma {:induction false} ColonWord(s: string, i: nat)
    ensures WordAt(s, i, ":") <==> CharAt(s, i, ':')
  {
    if i < |s| { assert s[i..i + 1] == [s[i]]; }
  }

  lemma {:induction false} NameBegins(s: string, j: nat)
    ensures BeginsOutside(NAME, s, j, Space)
  {
    hide Spans;
    forall k: nat | Spans(NAME, s, k, j)
      ensures BeginsAt(s, k, j, Space)
    {
      SpannedInside(NAME, s, k, j);
      OneThen(First, NAME_REST, s, k, j);
      SpannedInside(NAME_REST, s, k + 1, j);
      SpaceIsNoName(s[k]);
    }
  }

  /** `\s+` and then a name. */
  lemma {:induction false} SpacedName(s: string, i: nat, c: nat)
    requires i <= |s|
    ensures Spans(Cat(Plus(Space), NAME), s, i, c + 1)
            <==> i < SkipSpaces(s, i) && NameColon(s, SkipSpaces(s, i)) == Option.Some(c)
  {
    hide Spans, NameColon;
    SpacesEnd(s, i);
    NameBegins(s, c + 1);
    PlusThen(Space, NAME, s, i, c + 1, SkipSpaces(s, i));
    NameColonIs(s, SkipSpaces(s, i), c);
  }

  lemma {:induction false} TypedIs(s: string, i: nat, c: nat)
    requires i <= |s|
    ensures var k := SkipWord(s, i, false);
            var l := SkipSpaces(s, k);
            Spans(TYPED, s, i, c + 1) <==> i < k < l && NameColon(s, l) == Option.Some(c)
  {
    hide Spans, NameColon, SkipWord;
    var e := c + 1;
    var r := Cat(Plus(Space), NAME);
    WordRunEnds(s, i, false);
    forall k: nat | Spans(r, s, k, e)
      ensures BeginsAt(s, k, e, Wordy)
    {
      SpannedInside(r, s, k, c + 1);
      SpacedName(s, k, c);
      SpaceIsNoName(s[k]);
    }
    PlusThen(Wordy, r, s, i, c + 1, SkipWord(s, i, false));
    SpacedName(s, SkipWord(s, i, false), c);
  }

  lemma {:induction false} PropertyIs(s: string, i: nat, c: nat)
    ensures Spans(PROPERTY, s, i, c + 1) <==>
              && WordAt(s, i, "property")
              && var j := SkipSpaces(s, i + 8);
                 var k := SkipWord(s, j, false);
                 var l := SkipSpaces(s, k);
                 i + 8 < j < k < l && NameColon(s, l) == Option.Some(c)
  {
    hide Spans, NameColon, SkipWord, SkipSpaces;
    var e := c + 1;
    var r := Cat(Plus(Space), TYPED);
    WordThen("property", r, s, i, c + 1);
    if WordAt(s, i, "property") {
      SpacesEnd(s, i + 8);
      forall k: nat | Spans(TYPED, s, k, e)
        ensures BeginsAt(s, k, e, Space)
      {
        SpannedInside(TYPED, s, k, c + 1);
        TypedIs(s, k, c);
        WordRunEnds(s, k, false);
        assert In(s[k], Wordy);
        SpaceIsNoName(s[k]);
      }
      PlusThen(Space, TYPED, s, i + 8, c + 1, SkipSpaces(s, i + 8));
      TypedIs(s, SkipSpaces(s, i + 8), c);
    }
  }

  lemma {:induction false} SkipWordIs(s: string, i: nat, m: nat)
    requires i <= m <= |s| && (forall k :: i <= k < m ==> IsWord(s[k])) && (m < |s| ==> !IsWord(s[m]) && s[m] != '.')
    ensures SkipWord(s, i, true) == m
    decreases m - i
  {
    if i < m { SkipWordIs(s, i + 1, m); }
  }

  /** A keyword with a name behind it is no name with a colon itself. */
  lemma {:induction false} KeywordIsNoName(w: string, s: string, i: nat)
    requires WordAt(s, i, w) && w != "" && forall k :: 0 <= k < |w| ==> IsWord(w[k])
    requires var j := SkipSpaces(s, i + |w|); i + |w| < j < |s| && IsWord(s[j])
    ensures NameColon(s, i) == None
  {
    hide SkipWord;
    var m := i + |w|;
    assert IsSpace(s[m]);
    SpaceIsNoName(s[m]);
    forall k | i + 1 <= k < m
      ensures IsWord(s[k])
    {
      assert s[i..m][k - i] == s[k];
    }
    SkipWordIs(s, i + 1, m);
  }

  lemma {:induction false} PlainIs(s: string, i: nat, c: nat)
    requires i <= |s|
    ensures PropertyColon(s, i) == Option.Some(c) <==> Spans(PLAIN, s, i, c + 1)
  {
    hide Spans, NameColon, SkipWord, SkipSpaces;
    AltIs(PROPERTY, NAME, s, i, c + 1);
    NameColonIs(s, i, c);
    PropertyIs(s, i, c);
    if WordAt(s, i, "property") {
      var j := SkipSpaces(s, i + 8);
      var k := SkipWord(s, j, false);
      if i + 8 < j < k {
        WordRunEnds(s, j, false);
        assert In(s[j], Wordy);
        KeywordIsNoName("property", s, i);
      }
    }
  }

  lemma {:induction false} PlainBegins(s: string, k: nat, c: nat)
    requires k <= |s| && Spans(PLAIN, s, k, c + 1)
    ensures k < c < |s| && s[c] == ':' && IsNameStart(s[k])
  {
    hide Spans;
    PlainIs(s, k, c);
  }

  lemma {:induction false} ReadonlyIs(s: string, i: nat, c: nat)
    ensures Spans(Cat(Word("readonly"), Cat(Plus(Space), PLAIN)), s, i, c + 1) <==>
              && WordAt(s, i, "readonly")
              && var j := SkipSpaces(s, i + 8); i + 8 < j && PropertyColon(s, j) == Option.Some(c)
  {
    hide Spans, PropertyColon;
    var e := c + 1;
    var r := Cat(Plus(Space), PLAIN);
    WordThen("readonly", r, s, i, c + 1);
    if WordAt(s, i, "readonly") {
      SpacesEnd(s, i + 8);
      forall k: nat | Spans(PLAIN, s, k, e)
        ensures BeginsAt(s, k, e, Space)
      {
        SpannedInside(PLAIN, s, k, c + 1);
        PlainBegins(s, k, c);
        SpaceIsNoName(s[k]);
      }
      PlusThen(Space, PLAIN, s, i + 8, c + 1, SkipSpaces(s, i + 8));
      PlainIs(s, SkipSpaces(s, i + 8), c);
    }
  }

  lemma {:induction false} ChoicesExactly(s: string, c: nat)
    ensures SeparatorColon(s) == Option.Some(c) <==> Spans(CHOICES, s, 0, c + 1)
  {
    hide Spans, PropertyColon, SkipSpaces;
    var e := c + 1;
    var readonly := Cat(Word("readonly"), Cat(Plus(Space), PLAIN));
    var r := Alt(readonly, PLAIN);
    var i := SkipSpaces(s, 0);
    SpacesEnd(s, 0);
    forall k: nat | Spans(r, s, k, e)
      ensures BeginsAt(s, k, e, Space)
    {
      SpannedInside(r, s, k, c + 1);
      AltIs(readonly, PLAIN, s, k, c + 1);
      if Spans(PLAIN, s, k, c + 1) {
        PlainBegins(s, k, c);
        SpaceIsNoName(s[k]);
      } else {
        WordBegins("readonly", Cat(Plus(Space), PLAIN), s, c + 1, Space);
      }
    }
    StarThen(Space, r, s, 0, c + 1, i);
    AltIs(readonly, PLAIN, s, i, c + 1);
    ReadonlyIs(s, i, c);
    PlainIs(s, i, c);
    if WordAt(s, i, "readonly") {
      var j := SkipSpaces(s, i + 8);
      if i + 8 < j && PropertyColon(s, j).Some? {
        PlainIs(s, j, PropertyColon(s, j).value);
        KeywordIsNoName("readonly", s, i);
        WordStarts(s, i, "readonly");
        NoProperty(s, i);
      }
    }
  }

  lemma {:induction false} NoProperty(s: string, i: nat)
    requires i < |s| && s[i] == 'r'
    ensures PropertyColon(s, i) == NameColon(s, i)
  {
    WordStarts(s, i, "property");
  }

  lemma {:induction false} OptionalProperty(s: string, i: nat, j: nat)
    ensures Spans(Cat(OPTIONAL_PROPERTY, NAME), s, i, j) <==> Spans(PLAIN, s, i, j)
  {
    hide Spans;
    var kind := Cat(Plus(Wordy), Plus(Space));
    var spaced := Cat(Plus(Space), kind);
    MaybeThen(Cat(Word("property"), spaced), NAME, s, i, j);
    CatAssoc(Word("property"), spaced, NAME, s, i, j);
    forall k: nat
      ensures Spans(Cat(kind, NAME), s, k, j) <==> Spans(TYPED, s, k, j)
      ensures Spans(Cat(spaced, NAME), s, k, j) <==> Spans(Cat(Plus(Space), Cat(kind, NAME)), s, k, j)
    {
      CatAssoc(Plus(Wordy), Plus(Space), NAME, s, k, j);
      CatAssoc(Plus(Space), kind, NAME, s, k, j);
    }
    SameBehind(Plus(Space), Cat(kind, NAME), TYPED, s, j);
    SameBehind(Word("property"), Cat(spaced, NAME), Cat(Plus(Space), TYPED), s, j);
    AltIs(PROPERTY, NAME, s, i, j);
  }

  lemma {:induction false} AsWritten(s: string, j: nat)
    ensures Spans(SEPARATOR, s, 0, j) <==> Spans(CHOICES, s, 0, j)
  {
    hide Spans;
    var plain := Cat(OPTIONAL_PROPERTY, NAME);
    var readonly := Cat(Word("readonly"), Plus(Space));
    var before := Cat(Word("readonly"), Cat(Plus(Space), PLAIN));
    forall k: nat
      ensures Spans(plain, s, k, j) <==> Spans(PLAIN, s, k, j)
    {
      OptionalProperty(s, k, j);
    }
    SameBehind(Plus(Space), plain, PLAIN, s, j);
    SameBehind(Word("readonly"), Cat(Plus(Space), plain), Cat(Plus(Space), PLAIN), s, j);
    forall k: nat
      ensures Spans(Cat(OPTIONAL_READONLY, plain), s, k, j) <==> Spans(Alt(before, PLAIN), s, k, j)
    {
      MaybeThen(readonly, plain, s, k, j);
      CatAssoc(Word("readonly"), Plus(Space), plain, s, k, j);
      AltIs(before, PLAIN, s, k, j);
    }
    SameBehind(SP, Cat(OPTIONAL_READONLY, plain), Alt(before, PLAIN), s, j);
  }

  /** The separator of a QML line is where the expression ends. */
  lemma {:induction false} SeparatorExactly(s: string, c: nat)
    ensures SeparatorColon(s) == Option.Some(c) <==> Spans(SEPARATOR, s, 0, c + 1)
  {
    hide Spans, SeparatorColon;
    ChoicesExactly(s, c);
    AsWritten(s, c + 1);
  }

  lemma {:induction false} SimplePropExactly(s: string)
    ensures IsSimpleProp(s) <==> FullMatch(SIMPLE_PROP, s)
  {
    hide Spans, SeparatorColon;
    var value := Cat(SP, Plus(Anything));
    if IsSimpleProp(s) {
      var c := SeparatorColon(s).value;
      SeparatorExactly(s, c);
      ValueIs(s, c + 1);
      CatJoins(SEPARATOR, value, s, 0, c + 1, |s|);
    }
    if FullMatch(SIMPLE_PROP, s) {
      var k := CatSplits(SEPARATOR, value, s, 0, |s|);
      SpannedInside(SEPARATOR, s, 0, k);
      SpannedInside(value, s, k, |s|);
      ValueIs(s, k);
      SeparatorNotEmpty(s, k);
      SeparatorExactly(s, k - 1);
    }
  }

  lemma {:induction false} ValueIs(s: string, i: nat)
    requires i <= |s|
    ensures Spans(Cat(SP, Plus(Anything)), s, i, |s|) <==> i < |s|
  {
    if i < |s| {
      assert Spans(SP, s, i, i);
      assert Spans(Plus(Anything), s, i, |s|);
      CatJoins(SP, Plus(Anything), s, i, i, |s|);
    }
    if Spans(Cat(SP, Plus(Anything)), s, i, |s|) {
      var k := CatSplits(SP, Plus(Anything), s, i, |s|);
    }
  }

  lemma {:induction false} SeparatorNotEmpty(s: string, k: nat)
    requires Spans(SEPARATOR, s, 0, k)
    ensures k > 0
  {
    hide Spans;
    AsWritten(s, k);
    var readonly := Cat(Word("readonly"), Cat(Plus(Space), PLAIN));
    var j := CatSplits(SP, Alt(readonly, PLAIN), s, 0, k);
    SpannedInside(Alt(readonly, PLAIN), s, j, k);
    AltIs(readonly, PLAIN, s, j, k);
    if Spans(readonly, s, j, k) {
      WordBegins("readonly", Cat(Plus(Space), PLAIN), s, k, Space);
    } else {
      AltIs(PROPERTY, NAME, s, j, k);
      if Spans(NAME, s, j, k) {
        NameBegins(s, k);
      } else {
        WordBegins("property", Cat(Plus(Space), TYPED), s, k, Space);
      }
    }
  }

  // ----- Whole lines -----

  /** `\s*` in front of a word and whatever follows it. */
  lemma {:induction false} SpacesThenWord(w: string, r: Regex, s: string, i: nat, j: nat)
    requires i <= |s| && w != "" && !IsSpace(w[0])
    ensures Spans(Cat(SP, Cat(Word(w), r)), s, i, j)
            <==> WordAt(s, SkipSpaces(s, i), w) && Spans(r, s, SkipSpaces(s, i) + |w|, j)
  {
    hide Spans;
    SpacesEnd(s, i);
    WordBegins(w, r, s, j, Space);
    StarThen(Space, Cat(Word(w), r), s, i, j, SkipSpaces(s, i));
    WordThen(w, r, s, SkipSpaces(s, i), j);
  }

  /** `\w+\s*` to the end. */
  lemma {:induction false} LastWord(s: string, v: nat)
    requires v <= |s|
    ensures var e := SkipWord(s, v, false);
            Spans(Cat(Plus(Wordy), SP), s, v, |s|) <==> v < e && SkipSpaces(s, e) == |s|
  {
    hide SkipWord, SkipSpaces;
    var e := SkipWord(s, v, false);
    WordRunEnds(s, v, false);
    SpacesEnd(s, e);
    if Spans(Cat(Plus(Wordy), SP), s, v, |s|) {
      var k := CatSplits(Plus(Wordy), SP, s, v, |s|);
      assert k <= e;
      if k < e {
        assert In(s[k], Wordy) && In(s[k], Space);
        SpaceIsNoName(s[k]);
      }
      assert SkipSpaces(s, e) == |s|;
    }
    if v < e && SkipSpaces(s, e) == |s| {
      assert Spans(Plus(Wordy), s, v, e) && Spans(SP, s, e, |s|);
      CatJoins(Plus(Wordy), SP, s, v, e, |s|);
    }
  }

  /** `\s*\w+\s*` to the end. */
  lemma {:induction false} SpacedLastWord(s: string, i: nat)
    requires i <= |s|
    ensures var v := SkipSpaces(s, i);
            var e := SkipWord(s, v, false);
            Spans(Cat(SP, Cat(Plus(Wordy), SP)), s, i, |s|) <==> v < e && SkipSpaces(s, e) == |s|
  {
    hide Spans, SkipWord, SkipSpaces;
    var r := Cat(Plus(Wordy), SP);
    SpacesEnd(s, i);
    var n := |s|;
    forall k: nat | Spans(r, s, k, n)
      ensures BeginsAt(s, k, n, Space)
    {
      SpannedInside(r, s, k, n);
      LastWord(s, k);
      WordRunEnds(s, k, false);
      assert In(s[k], Wordy);
      SpaceIsNoName(s[k]);
    }
    StarThen(Space, r, s, i, n, SkipSpaces(s, i));
    LastWord(s, SkipSpaces(s, i));
  }

  lemma {:induction false} IdLineExactly(s: string)
    ensures IsIdLine(s) <==> FullMatch(ID_LINE, s)
  {
    hide Spans, SkipWord, SkipSpaces;
    var value := Cat(SP, Cat(Plus(Wordy), SP));
    var i := SkipSpaces(s, 0);
    SpacesThenWord("id", Cat(SP, Cat(Word(":"), value)), s, 0, |s|);
    if WordAt(s, i, "id") {
      SpacesThenWord(":", value, s, i + 2, |s|);
      var c := SkipSpaces(s, i + 2);
      ColonWord(s, c);
      if CharAt(s, c, ':') { SpacedLastWord(s, c + 1); }
    }
  }

  lemma {:induction false} HandlerExactly(s: string)
    ensures IsHandler(s) <==> PrefixMatch(HANDLER, s)
  {
    hide Spans, SkipWord, SkipSpaces;
    var i := SkipSpaces(s, 0);
    if IsHandler(s) {
      var m := SkipSpaces(s, SkipWord(s, i + 3, false));
      SpacesEmpty(s, m + 1);
      HandlerIs(s, m + 1);
    }
    if PrefixMatch(HANDLER, s) {
      var j: nat :| Spans(HANDLER, s, 0, j);
      HandlerIs(s, j);
    }
  }

  /** `\w*\s*:\s*` */
  lemma {:induction false} HandlerRest(s: string, i: nat, j: nat)
    requires i <= |s|
    ensures var m := SkipSpaces(s, SkipWord(s, i, false));
            Spans(Cat(Star(Wordy), Cat(SP, Cat(Word(":"), SP))), s, i, j)
            <==> CharAt(s, m, ':') && Spans(SP, s, m + 1, j)
  {
    hide Spans, SkipSpaces;
    var r := Cat(SP, Cat(Word(":"), SP));
    WordRunEnds(s, i, false);
    forall k: nat | Spans(r, s, k, j)
      ensures BeginsAt(s, k, j, Wordy)
    {
      SpannedInside(r, s, k, j);
      SpacesThenWord(":", SP, s, k, j);
      var m := SkipSpaces(s, k);
      ColonWord(s, m);
      SpannedInside(SP, s, m + 1, j);
      if m > k { assert IsSpace(s[k]); SpaceIsNoName(s[k]); }
    }
    StarThen(Wordy, r, s, i, j, SkipWord(s, i, false));
    SpacesThenWord(":", SP, s, SkipWord(s, i, false), j);
    ColonWord(s, SkipSpaces(s, SkipWord(s, i, false)));
  }

  lemma {:induction false} HandlerIs(s: string, j: nat)
    ensures var i := SkipSpaces(s, 0);
            Spans(HANDLER, s, 0, j) <==>
              && WordAt(s, i, "on") && i + 2 < |s| && IsUpper(s[i + 2])
              && var m := SkipSpaces(s, SkipWord(s, i + 3, false));
                 CharAt(s, m, ':') && Spans(SP, s, m + 1, j)
  {
    hide Spans, SkipSpaces, SkipWord;
    var rest := Cat(Star(Wordy), Cat(SP, Cat(Word(":"), SP)));
    var i := SkipSpaces(s, 0);
    SpacesThenWord("on", Cat(One(Upper), rest), s, 0, j);
    if WordAt(s, i, "on") {
      OneThen(Upper, rest, s, i + 2, j);
      if i + 2 < |s| { HandlerRest(s, i + 3, j); }
    }
  }

  lemma {:induction false} SpacesEmpty(s: string, i: nat)
    ensures i <= |s| <==> Spans(SP, s, i, i)
  {
  }

  lemma {:induction false} CloseThenOpenExactly(s: string)
    ensures IsCloseThenOpen(s) <==> FullMatch(CLOSE_THEN_OPEN, s)
  {
    hide Spans, SkipWord, SkipSpaces;
    var rest := Cat(Star(Dotted), Cat(SP, Word("{")));
    var name := Cat(One(First), rest);
    var i := SkipSpaces(s, 0);
    var n := |s|;
    SpacesThenWord("}", Cat(SP, name), s, 0, n);
    MarkWord(s, i, '}');
    if CharAt(s, i, '}') {
      var j := SkipSpaces(s, i + 1);
      SpacesEnd(s, i + 1);
      forall k: nat | Spans(name, s, k, n)
        ensures BeginsAt(s, k, n, Space)
      {
        SpannedInside(name, s, k, n);
        OneThen(First, rest, s, k, n);
        SpannedInside(rest, s, k + 1, n);
        SpaceIsNoName(s[k]);
      }
      StarThen(Space, name, s, i + 1, n, j);
      OneThen(First, rest, s, j, n);
      if j < |s| {
        NameThenMark("{", s, j + 1, n);
        MarkWord(s, SkipSpaces(s, SkipWord(s, j + 1, true)), '{');
      }
    }
  }

  // ----- Line starts -----

  /** `\s*` in front of something that starts with no space. */
  lemma {:induction false} SpacesThen(r: Regex, s: string, j: nat)
    requires BeginsOutside(r, s, j, Space)
    ensures Spans(Cat(SP, r), s, 0, j) <==> Spans(r, s, SkipSpaces(s, 0), j)
  {
    SpacesEnd(s, 0);
    StarThen(Space, r, s, 0, j, SkipSpaces(s, 0));
  }

  /** The operators, and what may start a continuation line. */
  const OPERATOR := Alt(One(OneOf("+-*/%&|^")), Alt(Word("&&"), Word("||")))
  const MEMBER := Cat(Word("."), One(First))
  const BRACKET := Alt(Word(")"), Word("]"))
  const TOKEN := Alt(Alt(One(OneOf("?:")), OPERATOR), Alt(Word(","), Alt(MEMBER, BRACKET)))

  /** `_CONTINUATION_PREFIX` */
  const CONTINUATION := Cat(SP, TOKEN)

  lemma {:induction false} OperatorIs(s: string, i: nat, j: nat)
    ensures Spans(OPERATOR, s, i, j) ==> i < |s| && s[i] in "+-*/%&|^"
    ensures i < |s| && s[i] in "+-*/%&|^" ==> Spans(OPERATOR, s, i, i + 1)
  {
    hide Spans;
    var signs := One(OneOf("+-*/%&|^"));
    AltIs(signs, Alt(Word("&&"), Word("||")), s, i, j);
    AltIs(signs, Alt(Word("&&"), Word("||")), s, i, i + 1);
    AltIs(Word("&&"), Word("||"), s, i, j);
    OneIs(OneOf("+-*/%&|^"), s, i, j);
    OneIs(OneOf("+-*/%&|^"), s, i, i + 1);
    WordEnds("&&", s, i, j);
    WordEnds("||", s, i, j);
    WordStarts(s, i, "&&");
    WordStarts(s, i, "||");
  }

  predicate TokenAt(s: string, i: nat) {
    i < |s| && (s[i] in "?:+-*/%&|^,)]" || (s[i] == '.' && i + 1 < |s| && IsNameStart(s[i + 1])))
  }

  lemma {:induction false} BracketIs(s: string, i: nat, j: nat)
    ensures Spans(BRACKET, s, i, j) <==> j == i + 1 && (CharAt(s, i, ')') || CharAt(s, i, ']'))
  {
    hide Spans;
    AltIs(Word(")"), Word("]"), s, i, j);
    WordEnds(")", s, i, j);
    WordEnds("]", s, i, j);
    MarkWord(s, i, ')');
    MarkWord(s, i, ']');
  }

  lemma {:induction false} MemberIs(s: string, i: nat, j: nat)
    ensures Spans(MEMBER, s, i, j) <==> CharAt(s, i, '.') && j == i + 2 && i + 1 < |s| && IsNameStart(s[i + 1])
  {
    hide Spans;
    WordThen(".", One(First), s, i, j);
    MarkWord(s, i, '.');
    OneIs(First, s, i + 1, j);
  }

  lemma {:induction false} TokenParts(s: string, i: nat, j: nat)
    ensures Spans(TOKEN, s, i, j) <==>
              || (j == i + 1 && i < |s| && s[i] in "?:")
              || Spans(OPERATOR, s, i, j)
              || (j == i + 1 && CharAt(s, i, ','))
              || Spans(MEMBER, s, i, j)
              || Spans(BRACKET, s, i, j)
  {
    hide Spans;
    AltIs(Alt(One(OneOf("?:")), OPERATOR), Alt(Word(","), Alt(MEMBER, BRACKET)), s, i, j);
    AltIs(One(OneOf("?:")), OPERATOR, s, i, j);
    AltIs(Word(","), Alt(MEMBER, BRACKET), s, i, j);
    AltIs(MEMBER, BRACKET, s, i, j);
    OneIs(OneOf("?:"), s, i, j);
    WordEnds(",", s, i, j);
    MarkWord(s, i, ',');
  }

  lemma {:induction false} TokenIs(s: string, i: nat, j: nat)
    ensures Spans(TOKEN, s, i, j) ==> TokenAt(s, i) && !IsSpace(s[i])
  {
    hide Spans, TokenAt;
    TokenParts(s, i, j);
    OperatorIs(s, i, j);
    MemberIs(s, i, j);
    BracketIs(s, i, j);
    if i < |s| { TokenStart(s, i); }
  }

  lemma {:induction false} TokenStart(s: string, i: nat)
    requires i < |s|
    ensures s[i] in "?:" || s[i] in "+-*/%&|^" || s[i] == ',' || s[i] == ')' || s[i] == ']' ==> TokenAt(s, i)
    ensures s[i] == '.' && i + 1 < |s| && IsNameStart(s[i + 1]) ==> TokenAt(s, i)
    ensures TokenAt(s, i) ==> !IsSpace(s[i])
  {
  }

  lemma {:induction false} TokenFits(s: string, i: nat)
    requires TokenAt(s, i)
    ensures Spans(TOKEN, s, i, i + 1) || Spans(TOKEN, s, i, i + 2)
  {
    hide Spans;
    TokenParts(s, i, i + 1);
    TokenParts(s, i, i + 2);
    OperatorIs(s, i, i + 1);
    MemberIs(s, i, i + 2);
    BracketIs(s, i, i + 1);
  }

  lemma {:induction false} ContinuationExactly(s: string)
    ensures IsContinuation(s) <==> PrefixMatch(CONTINUATION, s)
  {
    hide Spans, SkipSpaces;
    var i := SkipSpaces(s, 0);
    forall j: nat
      ensures Spans(CONTINUATION, s, 0, j) <==> Spans(TOKEN, s, i, j)
      ensures Spans(TOKEN, s, i, j) ==> TokenAt(s, i)
    {
      TokenBegins(s, j);
      SpacesThen(TOKEN, s, j);
      TokenIs(s, i, j);
    }
    if TokenAt(s, i) { TokenFits(s, i); }
  }

  lemma {:induction false} TokenBegins(s: string, j: nat)
    ensures BeginsOutside(TOKEN, s, j, Space)
  {
    hide Spans;
    forall k: nat | Spans(TOKEN, s, k, j)
      ensures BeginsAt(s, k, j, Space)
    {
      TokenIs(s, k, j);
      TokenLong(s, k, j);
    }
  }

  lemma {:induction false} TokenLong(s: string, i: nat, j: nat)
    requires Spans(TOKEN, s, i, j)
    ensures i < j
  {
    hide Spans;
    TokenParts(s, i, j);
    MemberIs(s, i, j);
    BracketIs(s, i, j);
    OperatorLong(s, i, j);
  }

  lemma {:induction false} OperatorLong(s: string, i: nat, j: nat)
    ensures Spans(OPERATOR, s, i, j) ==> i < j
  {
    hide Spans;
    AltIs(One(OneOf("+-*/%&|^")), Alt(Word("&&"), Word("||")), s, i, j);
    AltIs(Word("&&"), Word("||"), s, i, j);
    OneIs(OneOf("+-*/%&|^"), s, i, j);
    WordEnds("&&", s, i, j);
    WordEnds("||", s, i, j);
  }

  /** `_FENCE_OFF_RE`, `_FENCE_ON_RE` up to the word `off` or `on`, which ends there. */
  const SLASHES := Alt(Word("//"), Word("/*"))
  const VERIFY := Alt(Word("code-verify"), Word("code-format"))

  function FenceRegex(mode: string): Regex {
    Cat(SP, Cat(SLASHES, Cat(SP, Cat(VERIFY, Cat(Plus(Space), Word(mode))))))
  }

  lemma {:induction false} ModeIs(mode: string, s: string, i: nat, j: nat)
    requires i <= |s| && mode != "" && !IsSpace(mode[0])
    ensures var m := SkipSpaces(s, i);
            Spans(Cat(Plus(Space), Word(mode)), s, i, j) <==> i < m && WordAt(s, m, mode) && j == m + |mode|
  {
    SpacesEnd(s, i);
    JustWordBegins(mode, s, j, Space);
    PlusThen(Space, Word(mode), s, i, j, SkipSpaces(s, i));
    WordEnds(mode, s, SkipSpaces(s, i), j);
  }

  predicate FenceUpTo(mode: string, s: string, j: nat) {
    var i := SkipSpaces(s, 0);
    && (WordAt(s, i, "//") || WordAt(s, i, "/*"))
    && var k := SkipSpaces(s, i + 2);
       && (WordAt(s, k, "code-verify") || WordAt(s, k, "code-format"))
       && var m := SkipSpaces(s, k + 11);
          k + 11 < m && WordAt(s, m, mode) && j == m + |mode|
  }

  lemma {:induction false} FenceIs(mode: string, s: string, j: nat)
    requires mode != "" && !IsSpace(mode[0])
    ensures Spans(FenceRegex(mode), s, 0, j) <==> FenceUpTo(mode, s, j)
  {
    hide Spans, SkipSpaces;
    var last := Cat(Plus(Space), Word(mode));
    var inner := Cat(VERIFY, last);
    var i := SkipSpaces(s, 0);
    AltBegins("//", "/*", Cat(SP, inner), s, j);
    SpacesThen(Cat(SLASHES, Cat(SP, inner)), s, j);
    AltThen("//", "/*", Cat(SP, inner), s, i, j);
    if WordAt(s, i, "//") || WordAt(s, i, "/*") {
      var k := SkipSpaces(s, i + 2);
      SpacesEnd(s, i + 2);
      AltBegins("code-verify", "code-format", last, s, j);
      StarThen(Space, inner, s, i + 2, j, k);
      AltThen("code-verify", "code-format", last, s, k, j);
      if WordAt(s, k, "code-verify") || WordAt(s, k, "code-format") { ModeIs(mode, s, k + 11, j); }
    }
  }

  lemma {:induction false} FenceEnds(s: string, mode: string)
    ensures IsFenceLine(s, mode) <==> exists j: nat :: FenceUpTo(mode, s, j) && BoundaryAt(s, j)
  {
    hide SkipSpaces, BoundaryAt;
    if IsFenceLine(s, mode) {
      var k := SkipSpaces(s, SkipSpaces(s, 0) + 2);
      assert FenceUpTo(mode, s, SkipSpaces(s, k + 11) + |mode|);
    }
  }

  /** A fence line, with `\b` behind the mode. */
  lemma {:induction false} FenceLineExactly(s: string, mode: string)
    requires mode == "off" || mode == "on"
    ensures IsFenceLine(s, mode) <==> exists j: nat :: Spans(FenceRegex(mode), s, 0, j) && BoundaryAt(s, j)
  {
    hide Spans, FenceUpTo, IsFenceLine;
    FenceEnds(s, mode);
    forall j: nat
      ensures Spans(FenceRegex(mode), s, 0, j) <==> FenceUpTo(mode, s, j)
    {
      FenceIs(mode, s, j);
    }
  }

  // ----- Control statements -----

  /** `keyword\s*\(.*\)` */
  function Parens(keyword: string): Regex {
    Cat(Word(keyword), Cat(SP, Cat(Word("("), Cat(Star(Anything), Word(")")))))
  }

  /** `_BRACE_FREE_CONTROL_RE` */
  const ELSE_IF := Cat(Maybe(Cat(Word("else"), Plus(Space))), Parens("if"))
  const STATEMENT := Alt(ELSE_IF, Alt(Parens("for"), Alt(Parens("while"), Word("else"))))
  const CONTROL := Cat(SP, Cat(STATEMENT, SP))

  lemma {:induction false} ParensIs(keyword: string, s: string, i: nat)
    requires i <= |s|
    ensures Spans(Parens(keyword), s, i, |s|) <==> KeywordParens(s, i, keyword)
  {
    hide Spans, SkipSpaces;
    var rest := Cat(Star(Anything), Word(")"));
    var n := |s|;
    WordThen(keyword, Cat(SP, Cat(Word("("), rest)), s, i, n);
    if WordAt(s, i, keyword) {
      var k := i + |keyword|;
      SpacesThenWord("(", rest, s, k, n);
      var j := SkipSpaces(s, k);
      MarkWord(s, j, '(');
      if CharAt(s, j, '(') { UpToParen(s, j + 1); }
    }
  }

  lemma {:induction false} UpToParen(s: string, i: nat)
    requires i <= |s|
    ensures Spans(Cat(Star(Anything), Word(")")), s, i, |s|) <==> i < |s| && s[|s| - 1] == ')'
  {
    if Spans(Cat(Star(Anything), Word(")")), s, i, |s|) {
      var k := CatSplits(Star(Anything), Word(")"), s, i, |s|);
      WordEnds(")", s, k, |s|);
      MarkWord(s, k, ')');
    }
    if i < |s| && s[|s| - 1] == ')' {
      var k := |s| - 1;
      MarkWord(s, k, ')');
      WordEnds(")", s, k, |s|);
      assert Spans(Star(Anything), s, i, k);
      CatJoins(Star(Anything), Word(")"), s, i, k, |s|);
    }
  }

  lemma {:induction false} ElseIfIs(s: string, i: nat)
    requires i <= |s|
    ensures Spans(ELSE_IF, s, i, |s|) <==>
              || KeywordParens(s, i, "if")
              || (WordAt(s, i, "else") && SkipSpaces(s, i + 4) > i + 4 && KeywordParens(s, SkipSpaces(s, i + 4), "if"))
  {
    hide Spans, SkipSpaces, KeywordParens;
    var parens := Parens("if");
    var n := |s|;
    MaybeThen(Cat(Word("else"), Plus(Space)), parens, s, i, n);
    CatAssoc(Word("else"), Plus(Space), parens, s, i, n);
    WordThen("else", Cat(Plus(Space), parens), s, i, n);
    ParensIs("if", s, i);
    if WordAt(s, i, "else") {
      SpacesEnd(s, i + 4);
      WordBegins("if", Cat(SP, Cat(Word("("), Cat(Star(Anything), Word(")")))), s, n, Space);
      PlusThen(Space, parens, s, i + 4, n, SkipSpaces(s, i + 4));
      ParensIs("if", s, SkipSpaces(s, i + 4));
    }
  }

  lemma {:induction false} StatementIs(s: string, i: nat)
    requires i <= |s|
    ensures Spans(STATEMENT, s, i, |s|) <==>
              || Spans(ELSE_IF, s, i, |s|) || KeywordParens(s, i, "for") || KeywordParens(s, i, "while")
              || s[i..] == "else"
  {
    hide Spans, KeywordParens;
    var n := |s|;
    AltIs(ELSE_IF, Alt(Parens("for"), Alt(Parens("while"), Word("else"))), s, i, n);
    AltIs(Parens("for"), Alt(Parens("while"), Word("else")), s, i, n);
    AltIs(Parens("while"), Word("else"), s, i, n);
    ParensIs("for", s, i);
    ParensIs("while", s, i);
    WordEnds("else", s, i, n);
    assert s[i..n] == s[i..];
    if i + 4 == n { assert s[i..i + 4] == s[i..]; }
  }

  lemma {:induction false} StatementBegins(s: string, k: nat, j: nat)
    ensures Spans(STATEMENT, s, k, j) ==> BeginsAt(s, k, j, Space)
  {
    hide Spans;
    var rest := Cat(SP, Cat(Word("("), Cat(Star(Anything), Word(")"))));
    AltIs(ELSE_IF, Alt(Parens("for"), Alt(Parens("while"), Word("else"))), s, k, j);
    AltIs(Parens("for"), Alt(Parens("while"), Word("else")), s, k, j);
    AltIs(Parens("while"), Word("else"), s, k, j);
    MaybeThen(Cat(Word("else"), Plus(Space)), Parens("if"), s, k, j);
    CatAssoc(Word("else"), Plus(Space), Parens("if"), s, k, j);
    WordBegins("else", Cat(Plus(Space), Parens("if")), s, j, Space);
    WordBegins("if", rest, s, j, Space);
    WordBegins("for", rest, s, j, Space);
    WordBegins("while", rest, s, j, Space);
    JustWordBegins("else", s, j, Space);
  }

  /** A text that ends on no space. */
  predicate Trimmed(s: string) { s == "" || !IsSpace(s[|s| - 1]) }

  lemma {:induction false} NoSpacesBehind(r: Regex, s: string, i: nat)
    requires Trimmed(s)
    ensures Spans(Cat(r, SP), s, i, |s|) <==> Spans(r, s, i, |s|)
  {
    if Spans(Cat(r, SP), s, i, |s|) {
      var k := CatSplits(r, SP, s, i, |s|);
      assert AllIn(s, k, |s|, Space);
      assert k < |s| ==> In(s[|s| - 1], Space);
    }
    if Spans(r, s, i, |s|) {
      SpacesEmpty(s, |s|);
      CatJoins(r, SP, s, i, |s|, |s|);
    }
  }

  lemma {:induction false} ControlShapeExactly(s: string)
    requires Trimmed(s)
    ensures IsControlShape(s) <==> FullMatch(CONTROL, s)
  {
    hide Spans, SkipSpaces, KeywordParens;
    var i := SkipSpaces(s, 0);
    var n := |s|;
    var r := Cat(STATEMENT, SP);
    forall k: nat | Spans(r, s, k, n)
      ensures BeginsAt(s, k, n, Space)
    {
      NoSpacesBehind(STATEMENT, s, k);
      StatementBegins(s, k, n);
    }
    SpacesThen(r, s, n);
    NoSpacesBehind(STATEMENT, s, i);
    StatementIs(s, i);
    ElseIfIs(s, i);
  }

  /** `_is_brace_free_control` */
  lemma {:induction false} ControlExactly(raw: string)
    ensures var s := RStrip(Sanitize(raw, ' '));
            IsBraceFreeControl(raw) <==>
              s != "" && s[|s| - 1] != '{' && s[|s| - 1] != ';' && FullMatch(CONTROL, s) && Count(s, "(") == Count(s, ")")
  {
    hide Spans, IsControlShape, Sanitize, Count;
    var s := RStrip(Sanitize(raw, ' '));
    ControlShapeExactly(s);
    EndsOn(s, '{');
    EndsOn(s, ';');
  }

  lemma {:induction false} EndsOn(s: string, c: char)
    ensures EndsWith(s, [c]) <==> s != "" && s[|s| - 1] == c
  {
    if s != "" { assert s[|s| - 1..] == [s[|s| - 1]]; }
  }

  // ----- Line ends -----

  /** `_TRAILING_OPERATOR_FIRST`, `_TRAILING_OPERATOR_INNER`, searched for. */
  function Trailing(signs: string): Regex {
    Cat(Alt(One(OneOf(signs)), Alt(Word("&&"), Word("||"))), SP)
  }

  ghost predicate SearchedToEnd(r: Regex, s: string) { exists i: nat :: Spans(r, s, i, |s|) }

  lemma {:induction false} TrailingIs(signs: string, s: string)
    requires Trimmed(s) && '&' in signs && '|' in signs
    ensures SearchedToEnd(Trailing(signs), s) <==> s != "" && s[|s| - 1] in signs
  {
    hide Spans;
    var last := Alt(One(OneOf(signs)), Alt(Word("&&"), Word("||")));
    var n := |s|;
    if SearchedToEnd(Trailing(signs), s) {
      var i: nat :| Spans(Trailing(signs), s, i, n);
      NoSpacesBehind(last, s, i);
      AltIs(One(OneOf(signs)), Alt(Word("&&"), Word("||")), s, i, n);
      AltIs(Word("&&"), Word("||"), s, i, n);
      OneIs(OneOf(signs), s, i, n);
      WordEnds("&&", s, i, n);
      WordEnds("||", s, i, n);
      TwoEnd(s, i, '&');
      TwoEnd(s, i, '|');
    }
    if s != "" && s[n - 1] in signs {
      AltIs(One(OneOf(signs)), Alt(Word("&&"), Word("||")), s, n - 1, n);
      OneIs(OneOf(signs), s, n - 1, n);
      NoSpacesBehind(last, s, n - 1);
    }
  }

  lemma {:induction false} TwoEnd(s: string, i: nat, c: char)
    ensures WordAt(s, i, [c, c]) && |s| == i + 2 ==> s[|s| - 1] == c
  {
    if WordAt(s, i, [c, c]) { assert s[i..i + 2][1] == s[i + 1]; }
  }

  /** `_has_trailing_operator`: an operator at the end; or, on a first line, a colon behind a property whose value asks
      more than it answers. */
  lemma {:induction false} TrailingExactly(raw: string, inner: bool)
    ensures var s := RStrip(Sanitize(raw, '0'));
            HasTrailingOperator(raw, inner) <==>
              || SearchedToEnd(Trailing(if inner then "?:+-*/%&|^" else "?+-*/%&|^"), s)
              || (!inner && EndsWith(s, ":") && exists c: nat :: c < |s| && AsksMore(s, c))
  {
    hide SearchedToEnd, Sanitize, AsksMore, Asks;
    var s := RStrip(Sanitize(raw, '0'));
    TrailingIs("?:+-*/%&|^", s);
    TrailingIs("?+-*/%&|^", s);
    EndsOn(s, ':');
    AsksIs(s);
    TrailingParts(raw, inner);
  }

  /** The guard of the first line, as the model computes it. */
  predicate Asks(s: string) {
    SeparatorColon(s).Some? && MoreAsked(s, SeparatorColon(s).value)
  }

  predicate MoreAsked(s: string, c: nat)
    requires c < |s|
  {
    var value := RStrip(s[c + 1..]);
    var body := if EndsWith(value, ":") then value[..|value| - 1] else value;
    Count(body, "?") > Count(body, ":")
  }

  lemma {:induction false} TrailingParts(raw: string, inner: bool)
    ensures var s := RStrip(Sanitize(raw, '0'));
            HasTrailingOperator(raw, inner) <==>
              s != "" && (s[|s| - 1] in (if inner then "?:+-*/%&|^" else "?+-*/%&|^")
                          || (!inner && s[|s| - 1] == ':' && Asks(s)))
  {
    hide Sanitize, Count, SeparatorColon;
  }

  lemma {:induction false} AsksIs(s: string)
    ensures Asks(s) <==> exists c: nat :: c < |s| && AsksMore(s, c)
  {
    hide Spans, SeparatorColon, MoreAsked;
    if Asks(s) {
      SeparatorExactly(s, SeparatorColon(s).value);
      assert AsksMore(s, SeparatorColon(s).value);
    }
    if c: nat :| c < |s| && AsksMore(s, c) {
      SeparatorExactly(s, c);
    }
  }

  /** The property's separator is at `c`, and the value behind it, without a colon at its end, has more `?` than `:`. */
  ghost predicate AsksMore(s: string, c: nat)
    requires c < |s|
  {
    Spans(SEPARATOR, s, 0, c + 1) && MoreAsked(s, c)
  }

  /** `:\s*\{\s*$` */
  const COLON_BRACE := Cat(Word(":"), Cat(SP, Cat(Word("{"), SP)))

  lemma {:induction false} RStripIs(s: string, n: nat)
    requires n <= |s| && (forall k :: n <= k < |s| ==> IsSpace(s[k])) && (n > 0 ==> !IsSpace(s[n - 1]))
    ensures RStrip(s) == s[..n]
  {
    var r := RStrip(s);
    assert |r| == n;
  }

  /** A colon at `i` and a brace at `b` are the last characters that are no spaces. */
  predicate ColonThenBrace(s: string, i: nat, b: nat) {
    && i < b < |s| && s[i] == ':' && s[b] == '{'
    && (forall k :: i < k < b ==> IsSpace(s[k]))
    && (forall k :: b < k < |s| ==> IsSpace(s[k]))
  }

  lemma {:induction false} ColonBraceIs(s: string, i: nat)
    ensures Spans(COLON_BRACE, s, i, |s|) <==> exists b: nat :: ColonThenBrace(s, i, b)
  {
    hide Spans, SkipSpaces;
    var n := |s|;
    WordThen(":", Cat(SP, Cat(Word("{"), SP)), s, i, n);
    MarkWord(s, i, ':');
    if i < n && s[i] == ':' {
      SpacesThenWord("{", SP, s, i + 1, n);
      SpacesEnd(s, i + 1);
      var b := SkipSpaces(s, i + 1);
      MarkWord(s, b, '{');
      SpacesAre(s, b + 1, n);
      SpacesAre(s, i + 1, b);
      if Spans(COLON_BRACE, s, i, n) {
        assert ColonThenBrace(s, i, b);
      }
      if c: nat :| ColonThenBrace(s, i, c) {
        SkipSpacesIs(s, i + 1, c);
        assert c == b;
      }
    }
  }

  /** How the model finds that brace: from the end of the line. */
  predicate BraceBehindColon(s: string) {
    var r := RStrip(s);
    EndsWith(r, "{") && EndsWith(RStrip(r[..|r| - 1]), ":")
  }

  lemma {:induction false} FoundFromEnd(s: string, i: nat, b: nat)
    requires ColonThenBrace(s, i, b)
    ensures BraceBehindColon(s)
  {
    RStripIs(s, b + 1);
    var r := s[..b + 1];
    EndsOn(r, '{');
    assert r[..b] == s[..b];
    RStripIs(s[..b], i + 1);
    EndsOn(s[..b][..i + 1], ':');
  }

  lemma {:induction false} EndIsFound(s: string) returns (i: nat, b: nat)
    requires BraceBehindColon(s)
    ensures ColonThenBrace(s, i, b)
  {
    var r := RStrip(s);
    EndsOn(r, '{');
    b := |r| - 1;
    var t := RStrip(r[..b]);
    EndsOn(t, ':');
    i := |t| - 1;
    forall k | i < k < b
      ensures IsSpace(s[k])
    {
      assert r[..b][k] == s[k];
    }
  }

  lemma {:induction false} ColonBraceExactly(s: string)
    ensures SearchedToEnd(COLON_BRACE, s) <==> BraceBehindColon(s)
  {
    hide Spans, BraceBehindColon, ColonThenBrace;
    if SearchedToEnd(COLON_BRACE, s) {
      var i: nat :| Spans(COLON_BRACE, s, i, |s|);
      ColonBraceIs(s, i);
      var b: nat :| ColonThenBrace(s, i, b);
      FoundFromEnd(s, i, b);
    }
    if BraceBehindColon(s) {
      var i, b := EndIsFound(s);
      ColonBraceIs(s, i);
    }
  }

  lemma {:induction false} SkipSpacesIs(s: string, i: nat, m: nat)
    requires i <= m < |s| && !IsSpace(s[m]) && forall k :: i <= k < m ==> IsSpace(s[k])
    ensures SkipSpaces(s, i) == m
  {
  }

  lemma {:induction false} SpacesAre(s: string, i: nat, j: nat)
    ensures Spans(SP, s, i, j) <==> i <= j <= |s| && forall k :: i <= k < j ==> IsSpace(s[k])
  {
  }

  lemma {:induction false} ContainsIs(s: string, needle: string, i: nat)
    ensures ContainsFrom(s, needle, i) <==> exists k :: k >= i && WordAt(s, k, needle)
    decreases |s| - i
  {
    if i + |needle| <= |s| {
      if s[i..i + |needle|] == needle {
        assert WordAt(s, i, needle);
      } else {
        ContainsIs(s, needle, i + 1);
        forall k | k >= i && WordAt(s, k, needle)
          ensures k >= i + 1
        {
          assert k != i;
        }
      }
    }
  }

  /** `opens_js_body`: a function, an arrow or a colon in front of the brace. */
  lemma {:induction false} JsBodyExactly(raw: string)
    ensures var t := Sanitize(Strip(RStrip(raw)), ' ');
            OpensJsBody(raw) <==>
              && EndsWith(RStrip(raw), "{")
              && (|| (exists j: nat :: Spans(Cat(SP, Word("function")), t, 0, j) && BoundaryAt(t, j))
                  || (exists k: nat :: WordAt(t, k, "=>"))
                  || SearchedToEnd(COLON_BRACE, t))
  {
    hide Spans, SkipSpaces, Sanitize, SearchedToEnd, ContainsFrom;
    var t := Sanitize(Strip(RStrip(raw)), ' ');
    ColonBraceExactly(t);
    ContainsIs(t, "=>", 0);
    forall j: nat
      ensures Spans(Cat(SP, Word("function")), t, 0, j)
              <==> WordAt(t, SkipSpaces(t, 0), "function") && j == SkipSpaces(t, 0) + 8
    {
      SpacesThenMark("function", t, 0, j);
    }
  }

  // ----- The kind of a line -----

  /** Neither blank nor a comment. */
  predicate IsCode(raw: string) {
    var text := Strip(raw);
    text != "" && !StartsWith(text, "//") && !StartsWith(text, "/*") && !StartsWith(text, "*")
  }

  /** The kind of a line by its expressions and its braces. */
  ghost predicate HasKind(raw: string, kind: Kind) {
    var s := RStrip(raw);
    match kind
    case Blank => forall k :: 0 <= k < |raw| ==> IsSpace(raw[k])
    case Comment => (exists k :: 0 <= k < |raw| && !IsSpace(raw[k])) && !IsCode(raw)
    case Id => IsCode(raw) && FullMatch(ID_LINE, s)
    case Open => IsCode(raw) && !FullMatch(ID_LINE, s) && BraceDelta(s) > 0
    case Close => IsCode(raw) && !FullMatch(ID_LINE, s) && BraceDelta(s) < 0
    case Handler => Balanced(raw) && PrefixMatch(HANDLER, s)
    case Prop => Balanced(raw) && !PrefixMatch(HANDLER, s) && FullMatch(SIMPLE_PROP, s)
    case Other => Balanced(raw) && !PrefixMatch(HANDLER, s) && !FullMatch(SIMPLE_PROP, s)
  }

  ghost predicate Balanced(raw: string) {
    IsCode(raw) && !FullMatch(ID_LINE, RStrip(raw)) && BraceDelta(RStrip(raw)) == 0
  }

  /** Main result on the classification: every line has exactly one kind, the one it is given. */
  lemma {:induction false} KindExactly(raw: string, kind: Kind)
    ensures kind == PhysicalKind(raw) <==> HasKind(raw, kind)
  {
    hide FullMatch, PrefixMatch, IsIdLine, IsHandler, IsSimpleProp, BraceDelta;
    var s := RStrip(raw);
    RStripTwice(raw);
    StripEmpty(raw);
    IdLineExactly(s);
    HandlerExactly(s);
    SimplePropExactly(s);
  }
}
