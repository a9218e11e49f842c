/** Python string helpers shared by the models: whitespace stripping, prefix and
    suffix tests, character counting and the code-point ordering of `sorted`. */
module Text {

  datatype Option<+T> = None | Some(value: T)

  predicate IsSpace(c: char) {
    c == ' ' || c == '\t' || c == '\n' || c == '\r'
  }

  predicate IsUpper(c: char) { 'A' <= c <= 'Z' }

  predicate IsNameStart(c: char) {
    IsUpper(c) || 'a' <= c <= 'z' || c == '_'
  }

  /** `\w` */
  predicate IsWord(c: char) {
    IsNameStart(c) || '0' <= c <= '9'
  }

  /** The first index at or after `i` that holds no whitespace: a greedy `\s*`. */
  function SkipSpaces(s: string, i: nat): (j: nat)
    requires i <= |s|
    ensures i <= j <= |s|
    ensures forall k :: i <= k < j ==> IsSpace(s[k])
    ensures j < |s| ==> !IsSpace(s[j])
    decreases |s| - i
  {
    if i < |s| && IsSpace(s[i]) then SkipSpaces(s, i + 1) else i
  }

  /** A greedy `\w*`, or `[\w.]*` when `dots` is set. */
  function SkipWord(s: string, i: nat, dots: bool): (j: nat)
    requires i <= |s|
    ensures i <= j <= |s|
    decreases |s| - i
  {
    if i < |s| && (IsWord(s[i]) || (dots && s[i] == '.')) then SkipWord(s, i + 1, dots) else i
  }

  function RStrip(s: string): (r: string)
    ensures r <= s
    ensures |r| > 0 ==> !IsSpace(r[|r| - 1])
    ensures forall k :: |r| <= k < |s| ==> IsSpace(s[k])
  {
    if s != [] && IsSpace(s[|s| - 1]) then
      var t := s[..|s| - 1];
      assert forall k :: 0 <= k < |t| ==> s[k] == t[k];
      RStrip(t)
    else s
  }

  function LStrip(s: string): (r: string)
    ensures |r| <= |s| && r == s[|s| - |r|..]
    ensures |r| > 0 ==> !IsSpace(r[0])
    ensures forall k :: 0 <= k < |s| - |r| ==> IsSpace(s[k])
  {
    s[SkipSpaces(s, 0)..]
  }

  function Strip(s: string): string {
    LStrip(RStrip(s))
  }

  predicate StartsWith(s: string, prefix: string) {
    prefix <= s
  }

  predicate EndsWith(s: string, suffix: string) {
    |suffix| <= |s| && s[|s| - |suffix|..] == suffix
  }

  /** The substring test `needle in s`, from position `i` on. */
  predicate ContainsFrom(s: string, needle: string, i: nat)
    decreases |s| - i
  {
    i + |needle| <= |s| && (s[i..i + |needle|] == needle || ContainsFrom(s, needle, i + 1))
  }

  /** How many characters of `s` belong to `chars`. */
  function Count(s: string, chars: string): nat {
    if s == [] then 0 else Count(s[..|s| - 1], chars) + if s[|s| - 1] in chars then 1 else 0
  }

  /** Python's `a < b` on strings: code-point lexicographic. */
  predicate Less(a: string, b: string)
    decreases |a|
  {
    b != [] && (a == [] || a[0] < b[0] || (a[0] == b[0] && Less(a[1..], b[1..])))
  }

  lemma {:induction false} LessTrichotomy(a: string, b: string)
    ensures Less(a, b) || a == b || Less(b, a)
    ensures !(Less(a, b) && Less(b, a))
    decreases |a|
  {
    if a != [] && b != [] && a[0] == b[0] {
      LessTrichotomy(a[1..], b[1..]);
      assert a == [a[0]] + a[1..] && b == [b[0]] + b[1..];
    }
  }

  lemma {:induction false} LessTransitive(a: string, b: string, c: string)
    requires Less(a, b) && Less(b, c)
    ensures Less(a, c)
    decreases |a|
  {
    if a != [] && a[0] == b[0] && b[0] == c[0] {
      LessTransitive(a[1..], b[1..], c[1..]);
    }
  }

  /** A proper prefix sorts first. */
  lemma {:induction false} PrefixLess(a: string, b: string)
    requires a < b
    ensures Less(a, b)
    decreases |a|
  {
    if a != [] {
      PrefixLess(a[1..], b[1..]);
    }
  }

  predicate Ascending(xs: seq<string>) {
    forall i, j :: 0 <= i < j < |xs| ==> Less(xs[i], xs[j])
  }

  predicate IsLeast(m: string, s: set<string>) {
    m in s && forall x :: x in s && x != m ==> Less(m, x)
  }

  lemma {:induction false} LeastExists(s: set<string>)
    requires s != {}
    ensures exists m :: IsLeast(m, s)
    decreases |s|
  {
    var m :| m in s;
    if s == {m} {
      assert IsLeast(m, s);
    } else {
      LeastExists(s - {m});
      var k :| IsLeast(k, s - {m});
      LessTrichotomy(m, k);
      if Less(m, k) {
        forall x | x in s && x != m
          ensures Less(m, x)
        {
          if x != k { LessTransitive(m, k, x); }
        }
        assert IsLeast(m, s);
      } else {
        assert IsLeast(k, s);
      }
    }
  }

  lemma {:induction false} LeastUnique(s: set<string>)
    ensures forall a, b :: IsLeast(a, s) && IsLeast(b, s) ==> a == b
  {
    forall a, b | IsLeast(a, s) && IsLeast(b, s)
      ensures a == b
    {
      LessTrichotomy(a, b);
    }
  }

  /** Python's `sorted` applied to a set of strings. */
  function Sorted(s: set<string>): (r: seq<string>)
    ensures Ascending(r)
    ensures forall x :: x in r <==> x in s
    ensures |r| == |s|
    decreases |s|
  {
    if s == {} then [] else
      LeastExists(s);
      LeastUnique(s);
      var m :| IsLeast(m, s);
      var rest := Sorted(s - {m});
      assert forall x :: x in rest ==> Less(m, x);
      [m] + rest
  }

  /** The order of strings: at the first place where they differ the smaller character decides, and a proper prefix
      comes first. */
  lemma {:induction false} LessExactly(a: string, b: string)
    ensures Less(a, b) <==> exists k :: DiffersAt(a, b, k)
    decreases |a|
  {
    if a != [] && b != [] && a[0] == b[0] {
      LessExactly(a[1..], b[1..]);
      if Less(a, b) {
        var k :| DiffersAt(a[1..], b[1..], k);
        assert DiffersAt(a, b, k + 1);
      }
      if k :| DiffersAt(a, b, k) {
        assert DiffersAt(a[1..], b[1..], k - 1);
      }
    } else {
      if Less(a, b) {
        assert DiffersAt(a, b, 0);
      }
    }
  }

  ghost predicate DiffersAt(a: string, b: string, k: int) {
    && 0 <= k <= |a| && k < |b|
    && (forall i :: 0 <= i < k ==> a[i] == b[i])
    && (k == |a| || a[k] < b[k])
  }
}
