/** `str.split(sep)` and `sep.join(parts)` for a one-character separator. */
module Splitting {

  function Split(s: string, sep: char): (parts: seq<string>)
    ensures parts != []
  {
    if s == [] then [[]]
    else
      var rest := Split(s[1..], sep);
      if s[0] == sep then [[]] + rest else [[s[0]] + rest[0]] + rest[1..]
  }

  function Join(parts: seq<string>, sep: char): string {
    if parts == [] then []
    else if |parts| == 1 then parts[0]
    else parts[0] + [sep] + Join(parts[1..], sep)
  }

  lemma {:induction false} JoinSplit(s: string, sep: char)
    ensures Join(Split(s, sep), sep) == s
  {
    if s != [] {
      JoinSplit(s[1..], sep);
      var rest := Split(s[1..], sep);
      if s[0] == sep {
        assert ([[]] + rest)[1..] == rest;
        assert s == [] + [sep] + s[1..];
      } else {
        var parts := [[s[0]] + rest[0]] + rest[1..];
        assert parts[1..] == rest[1..];
        if |rest| == 1 {
          assert rest == [rest[0]];
        }
      }
    }
  }

  lemma {:induction false} SplitStep(s: string, sep: char)
    requires s != []
    ensures Split(s, sep) ==
            if s[0] == sep then [[]] + Split(s[1..], sep)
            else [[s[0]] + Split(s[1..], sep)[0]] + Split(s[1..], sep)[1..]
  {
  }

  lemma {:induction false} SplitNothing(sep: char)
    ensures Split("", sep) == [""]
  {
  }

  /** A separator between two texts splits them apart. */
  lemma {:induction false} SplitAt(a: string, b: string, sep: char)
    ensures Split(a + [sep] + b, sep) == Split(a, sep) + Split(b, sep)
  {
    hide Split;
    var s := a + [sep] + b;
    SplitStep(s, sep);
    if a == [] {
      assert s[1..] == b;
      SplitNothing(sep);
    } else {
      SplitStep(a, sep);
      assert s[1..] == a[1..] + [sep] + b && s[0] == a[0];
      SplitAt(a[1..], b, sep);
      var front, back := Split(a[1..], sep), Split(b, sep);
      assert (front + back)[1..] == front[1..] + back && (front + back)[0] == front[0];
      assert [[]] + (front + back) == ([[]] + front) + back;
    }
  }

  lemma {:induction false} JoinAppend(xs: seq<string>, ys: seq<string>, sep: char)
    requires xs != [] && ys != []
    ensures Join(xs + ys, sep) == Join(xs, sep) + [sep] + Join(ys, sep)
  {
    if |xs| == 1 {
      assert (xs + ys)[1..] == ys;
    } else {
      assert (xs + ys)[1..] == xs[1..] + ys;
      JoinAppend(xs[1..], ys, sep);
    }
  }

  lemma {:induction false} PartsHaveNoSep(s: string, sep: char, k: nat)
    requires k < |Split(s, sep)|
    ensures sep !in Split(s, sep)[k]
  {
    if s != [] {
      if s[0] == sep {
        if k > 0 { PartsHaveNoSep(s[1..], sep, k - 1); }
      } else if k == 0 {
        PartsHaveNoSep(s[1..], sep, 0);
      } else {
        PartsHaveNoSep(s[1..], sep, k);
      }
    }
  }

  lemma {:induction false} SplitWord(w: string, sep: char)
    requires sep !in w
    ensures Split(w, sep) == [w]
  {
    if w != [] {
      SplitWord(w[1..], sep);
      assert w == [w[0]] + w[1..];
    }
  }
}
