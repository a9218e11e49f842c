/** Regular expressions over one line. An expression is given its meaning by splitting, without any strategy; the
    lemmas say where a single scan from left to right decides the same. */
module Regexes {
  import opened Text
  import opened Lines

  datatype Group =
    | Space                  // \s
    | Wordy                  // \w
    | Dotted                 // [\w.]
    | First                  // [A-Za-z_]
    | Upper                  // [A-Z]
    | OneOf(chars: string)
    | Anything               // .

  predicate In(c: char, group: Group) {
    match group
    case Space => IsSpace(c)
    case Wordy => IsWord(c)
    case Dotted => IsWord(c) || c == '.'
    case First => IsNameStart(c)
    case Upper => IsUpper(c)
    case OneOf(chars) => c in chars
    case Anything => true
  }

  datatype Regex =
    | Word(word: string)
    | One(group: Group)
    | Star(group: Group)     // *
    | Plus(group: Group)     // +
    | Cat(front: Regex, back: Regex)
    | Alt(left: Regex, right: Regex)

  /** The characters from `i` to before `j` are in the group. */
  predicate AllIn(s: string, i: nat, j: nat, group: Group) {
    i <= j <= |s| && forall k :: i <= k < j ==> In(s[k], group)
  }

  /** The characters from `i` to before `j` belong to the language of `r`. */
  ghost predicate Spans(r: Regex, s: string, i: nat, j: nat)
    decreases r
  {
    i <= j <= |s| &&
    match r
    case Word(word) => s[i..j] == word
    case One(group) => j == i + 1 && In(s[i], group)
    case Star(group) => AllIn(s, i, j, group)
    case Plus(group) => i < j && AllIn(s, i, j, group)
    case Cat(front, back) => exists k: nat :: Spans(front, s, i, k) && Spans(back, s, k, j)
    case Alt(left, right) => Spans(left, s, i, j) || Spans(right, s, i, j)
  }

  function Maybe(r: Regex): Regex { Alt(r, Word("")) }

  /** `re.fullmatch` and `re.match`. */
  ghost predicate FullMatch(r: Regex, s: string) { Spans(r, s, 0, |s|) }
  ghost predicate PrefixMatch(r: Regex, s: string) { exists j: nat :: Spans(r, s, 0, j) }

  // ----- Expressions that leave no choice -----

  lemma {:induction false} CatSplits(front: Regex, back: Regex, s: string, i: nat, j: nat) returns (k: nat)
    requires Spans(Cat(front, back), s, i, j)
    ensures Spans(front, s, i, k) && Spans(back, s, k, j)
  {
    k :| Spans(front, s, i, k) && Spans(back, s, k, j);
  }

  lemma {:induction false} CatJoins(front: Regex, back: Regex, s: string, i: nat, k: nat, j: nat)
    requires Spans(front, s, i, k) && Spans(back, s, k, j)
    ensures Spans(Cat(front, back), s, i, j)
  {
  }

  lemma {:induction false} WordThen(w: string, r: Regex, s: string, i: nat, j: nat)
    ensures Spans(Cat(Word(w), r), s, i, j) <==> WordAt(s, i, w) && Spans(r, s, i + |w|, j)
  {
    if Spans(Cat(Word(w), r), s, i, j) {
      var k := CatSplits(Word(w), r, s, i, j);
      assert |s[i..k]| == k - i;
    }
    if WordAt(s, i, w) {
      assert Spans(Word(w), s, i, i + |w|);
    }
  }

  lemma {:induction false} WordEnds(w: string, s: string, i: nat, j: nat)
    ensures Spans(Word(w), s, i, j) <==> WordAt(s, i, w) && j == i + |w|
  {
    if i <= j <= |s| { assert |s[i..j]| == j - i; }
  }

  lemma {:induction false} OneThen(group: Group, r: Regex, s: string, i: nat, j: nat)
    ensures Spans(Cat(One(group), r), s, i, j) <==> i < |s| && In(s[i], group) && Spans(r, s, i + 1, j)
  {
    hide In;
    if i < |s| && In(s[i], group) {
      assert Spans(One(group), s, i, i + 1);
    }
  }

  /** `m` is where a run of the group ends. */
  predicate RunEnds(s: string, i: nat, m: nat, group: Group) {
    AllIn(s, i, m, group) && (m < |s| ==> !In(s[m], group))
  }

  /** What `r` spans up to `j` begins with a character outside the group. */
  ghost predicate BeginsOutside(r: Regex, s: string, j: nat, group: Group) {
    forall k: nat :: Spans(r, s, k, j) ==> BeginsAt(s, k, j, group)
  }

  predicate BeginsAt(s: string, k: nat, j: nat, group: Group) {
    k < j && k < |s| && !In(s[k], group)
  }

  lemma {:induction false} StarThen(group: Group, r: Regex, s: string, i: nat, j: nat, m: nat)
    requires RunEnds(s, i, m, group) && BeginsOutside(r, s, j, group)
    ensures Spans(Cat(Star(group), r), s, i, j) <==> Spans(r, s, m, j)
  {
    hide In;
    if Spans(Cat(Star(group), r), s, i, j) {
      var k := CatSplits(Star(group), r, s, i, j);
      assert BeginsAt(s, k, j, group);
    }
    if Spans(r, s, m, j) {
      assert Spans(Star(group), s, i, m);
    }
  }

  lemma {:induction false} PlusThen(group: Group, r: Regex, s: string, i: nat, j: nat, m: nat)
    requires RunEnds(s, i, m, group) && BeginsOutside(r, s, j, group)
    ensures Spans(Cat(Plus(group), r), s, i, j) <==> i < m && Spans(r, s, m, j)
  {
    hide In;
    if Spans(Cat(Plus(group), r), s, i, j) {
      var k := CatSplits(Plus(group), r, s, i, j);
      assert BeginsAt(s, k, j, group);
    }
    if i < m && Spans(r, s, m, j) {
      assert Spans(Plus(group), s, i, m);
    }
  }

  lemma {:induction false} SpacesEnd(s: string, i: nat)
    requires i <= |s|
    ensures RunEnds(s, i, SkipSpaces(s, i), Space)
  {
  }

  lemma {:induction false} WordRunEnds(s: string, i: nat, dots: bool)
    requires i <= |s|
    ensures RunEnds(s, i, SkipWord(s, i, dots), if dots then Dotted else Wordy)
    decreases |s| - i
  {
    if i < |s| && (IsWord(s[i]) || (dots && s[i] == '.')) { WordRunEnds(s, i + 1, dots); }
  }

  lemma {:induction false} WordBegins(w: string, r: Regex, s: string, j: nat, group: Group)
    requires w != "" && !In(w[0], group)
    ensures BeginsOutside(Cat(Word(w), r), s, j, group)
  {
    hide In;
    forall k: nat | Spans(Cat(Word(w), r), s, k, j)
      ensures BeginsAt(s, k, j, group)
    {
      WordThen(w, r, s, k, j);
      assert s[k..k + |w|][0] == s[k];
    }
  }

  lemma {:induction false} JustWordBegins(w: string, s: string, j: nat, group: Group)
    requires w != "" && !In(w[0], group)
    ensures BeginsOutside(Word(w), s, j, group)
  {
    hide In;
    forall k: nat | Spans(Word(w), s, k, j)
      ensures BeginsAt(s, k, j, group)
    {
      assert s[k..j][0] == s[k];
    }
  }

  lemma {:induction false} SpannedInside(r: Regex, s: string, i: nat, j: nat)
    requires Spans(r, s, i, j)
    ensures i <= j <= |s|
  {
  }

  lemma {:induction false} WordStarts(s: string, i: nat, w: string)
    ensures WordAt(s, i, w) && w != "" ==> i < |s| && s[i] == w[0]
  {
    if WordAt(s, i, w) && w != "" { assert s[i..i + |w|][0] == s[i]; }
  }

  lemma {:induction false} MarkWord(s: string, i: nat, c: char)
    ensures WordAt(s, i, [c]) <==> CharAt(s, i, c)
  {
    if i < |s| { assert s[i..i + 1] == [s[i]]; }
  }

  lemma {:induction false} AltIs(left: Regex, right: Regex, s: string, i: nat, j: nat)
    ensures Spans(Alt(left, right), s, i, j) <==> Spans(left, s, i, j) || Spans(right, s, i, j)
  {
  }

  lemma {:induction false} OneIs(group: Group, s: string, i: nat, j: nat)
    ensures Spans(One(group), s, i, j) <==> i < |s| && j == i + 1 && In(s[i], group)
  {
  }

  lemma {:induction false} AltThen(a: string, b: string, r: Regex, s: string, i: nat, j: nat)
    requires |a| == |b|
    ensures Spans(Cat(Alt(Word(a), Word(b)), r), s, i, j)
            <==> (WordAt(s, i, a) || WordAt(s, i, b)) && Spans(r, s, i + |a|, j)
  {
    hide Spans;
    var both := Alt(Word(a), Word(b));
    if Spans(Cat(both, r), s, i, j) {
      var k := CatSplits(both, r, s, i, j);
      AltIs(Word(a), Word(b), s, i, k);
      WordEnds(a, s, i, k);
      WordEnds(b, s, i, k);
    }
    if (WordAt(s, i, a) || WordAt(s, i, b)) && Spans(r, s, i + |a|, j) {
      AltIs(Word(a), Word(b), s, i, i + |a|);
      WordEnds(a, s, i, i + |a|);
      WordEnds(b, s, i, i + |a|);
      CatJoins(both, r, s, i, i + |a|, j);
    }
  }

  lemma {:induction false} AltBegins(a: string, b: string, r: Regex, s: string, j: nat)
    requires |a| == |b| && a != "" && !IsSpace(a[0]) && !IsSpace(b[0])
    ensures BeginsOutside(Cat(Alt(Word(a), Word(b)), r), s, j, Space)
  {
    hide Spans;
    var all := Cat(Alt(Word(a), Word(b)), r);
    forall k: nat | Spans(all, s, k, j)
      ensures BeginsAt(s, k, j, Space)
    {
      SpannedInside(all, s, k, j);
      AltThen(a, b, r, s, k, j);
      WordStarts(s, k, a);
      WordStarts(s, k, b);
      SpannedInside(r, s, k + |a|, j);
    }
  }

  // ----- Optional parts -----

  lemma {:induction false} MaybeThen(a: Regex, r: Regex, s: string, i: nat, j: nat)
    ensures Spans(Cat(Maybe(a), r), s, i, j) <==> Spans(Cat(a, r), s, i, j) || Spans(r, s, i, j)
  {
    hide Spans;
    if Spans(Cat(Maybe(a), r), s, i, j) {
      var k := CatSplits(Maybe(a), r, s, i, j);
      AltIs(a, Word(""), s, i, k);
      WordEnds("", s, i, k);
      if Spans(a, s, i, k) { CatJoins(a, r, s, i, k, j); }
    }
    if Spans(Cat(a, r), s, i, j) {
      var k := CatSplits(a, r, s, i, j);
      AltIs(a, Word(""), s, i, k);
      CatJoins(Maybe(a), r, s, i, k, j);
    }
    if Spans(r, s, i, j) {
      SpannedInside(r, s, i, j);
      AltIs(a, Word(""), s, i, i);
      WordEnds("", s, i, i);
      assert s[i..i] == "";
      CatJoins(Maybe(a), r, s, i, i, j);
    }
  }

  lemma {:induction false} CatAssoc(a: Regex, b: Regex, c: Regex, s: string, i: nat, j: nat)
    ensures Spans(Cat(Cat(a, b), c), s, i, j) <==> Spans(Cat(a, Cat(b, c)), s, i, j)
  {
    hide Spans;
    if Spans(Cat(Cat(a, b), c), s, i, j) {
      var l := CatSplits(Cat(a, b), c, s, i, j);
      var k := CatSplits(a, b, s, i, l);
      CatJoins(b, c, s, k, l, j);
      CatJoins(a, Cat(b, c), s, i, k, j);
    }
    if Spans(Cat(a, Cat(b, c)), s, i, j) {
      var k := CatSplits(a, Cat(b, c), s, i, j);
      var l := CatSplits(b, c, s, k, j);
      CatJoins(a, b, s, i, k, l);
      CatJoins(Cat(a, b), c, s, i, l, j);
    }
  }

  lemma {:induction false} SameBehind(a: Regex, b: Regex, c: Regex, s: string, j: nat)
    requires forall k: nat :: Spans(b, s, k, j) <==> Spans(c, s, k, j)
    ensures forall i: nat :: Spans(Cat(a, b), s, i, j) <==> Spans(Cat(a, c), s, i, j)
  {
    hide Spans;
    forall i: nat
      ensures Spans(Cat(a, b), s, i, j) <==> Spans(Cat(a, c), s, i, j)
    {
      if Spans(Cat(a, b), s, i, j) {
        var k := CatSplits(a, b, s, i, j);
        CatJoins(a, c, s, i, k, j);
      }
      if Spans(Cat(a, c), s, i, j) {
        var k := CatSplits(a, c, s, i, j);
        CatJoins(a, b, s, i, k, j);
      }
    }
  }
}
