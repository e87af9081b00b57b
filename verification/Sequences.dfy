// Splitting, joining, stripping and reversing: the string operations that every
// component of the program leans on, over sequences of any element type.
module Sequences {

  /** `s.split(sep)`: the pieces between separators; a text without separator is one piece. */
  function Split<T(==)>(s: seq<T>, sep: T): (r: seq<seq<T>>)
    ensures |r| >= 1
    ensures forall i :: 0 <= i < |r| ==> sep !in r[i]
  {
    if s == [] then [[]] else Prepend(s[0], sep, Split(s[1..], sep))
  }

  /** The pieces of `[c] + t`, given the pieces of `t`. */
  function Prepend<T(==)>(c: T, sep: T, rest: seq<seq<T>>): seq<seq<T>>
    requires rest != []
  {
    if c == sep then [[]] + rest else [[c] + rest[0]] + rest[1..]
  }

  lemma PrependDistributes<T>(c: T, sep: T, x: seq<seq<T>>, y: seq<seq<T>>)
    requires x != []
    ensures Prepend(c, sep, x + y) == Prepend(c, sep, x) + y
  {
    assert (x + y)[1..] == x[1..] + y;
  }

  /** `sep.join(parts)` */
  function Join<T>(parts: seq<seq<T>>, sep: T): seq<T> {
    if parts == [] then []
    else if |parts| == 1 then parts[0]
    else parts[0] + [sep] + Join(parts[1..], sep)
  }

  lemma {:induction false} JoinSplit<T>(s: seq<T>, sep: T)
    ensures Join(Split(s, sep), sep) == s
  {
    if s == [] {
    } else {
      JoinSplit(s[1..], sep);
      var rest := Split(s[1..], sep);
      if s[0] == sep {
        assert ([[]] + rest)[1..] == rest;
      } else {
        var all := [[s[0]] + rest[0]] + rest[1..];
        assert all[1..] == rest[1..];
        assert Join(all, sep) == [s[0]] + Join(rest, sep);
      }
    }
  }

  lemma {:induction false} SplitAround<T>(a: seq<T>, sep: T, b: seq<T>)
    ensures Split(a + [sep] + b, sep) == Split(a, sep) + Split(b, sep)
  {
    var whole := a + [sep] + b;
    if a == [] {
      assert whole[1..] == b;
    } else {
      SplitAround(a[1..], sep, b);
      assert whole[1..] == a[1..] + [sep] + b;
      PrependDistributes(a[0], sep, Split(a[1..], sep), Split(b, sep));
    }
  }

  lemma SnocParts<T>(s: seq<T>, init: seq<T>, last: T)
    requires s == init + [last]
    ensures s[..|s| - 1] == init && s[|s| - 1] == last
  {
  }

  lemma ConcatIsAssociative<T>(x: seq<T>, y: seq<T>, z: seq<T>)
    ensures x + (y + z) == (x + y) + z
  {
  }

  /** Appending text only affects the last piece. */
  lemma {:induction false} SplitAppend<T>(a: seq<T>, sep: T, b: seq<T>)
    ensures var n := |Split(a, sep)| - 1;
            Split(a + b, sep) == Split(a, sep)[..n] + Split(Split(a, sep)[n] + b, sep)
  {
    if a == [] {
      assert a + b == b && [] + b == b;
    } else {
      assert (a + b)[1..] == a[1..] + b;
      SplitAppend(a[1..], sep, b);
      var rest := Split(a[1..], sep);
      var init, last := rest[..|rest| - 1], rest[|rest| - 1];
      assert rest == init + [last];
      var init', last' := PrependAppend(a[0], sep, init, last, b);
      SnocParts(Split(a, sep), init', last');
    }
  }

  /** The pieces after a character has been put in front, with and without text appended at the end. */
  lemma PrependAppend<T>(c: T, sep: T, init: seq<seq<T>>, last: seq<T>, b: seq<T>) returns (init': seq<seq<T>>, last': seq<T>)
    ensures Prepend(c, sep, init + [last]) == init' + [last']
    ensures Prepend(c, sep, init + Split(last + b, sep)) == init' + Split(last' + b, sep)
  {
    if c == sep {
      init', last' := [[]] + init, last;
      ConcatIsAssociative([[]], init, [last]);
      ConcatIsAssociative([[]], init, Split(last + b, sep));
    } else if init == [] {
      init', last' := [], [c] + last;
      PrependToOnly(c, sep, last, b);
    } else {
      init', last' := Prepend(c, sep, init), last;
      PrependDistributes(c, sep, init, [last]);
      PrependDistributes(c, sep, init, Split(last + b, sep));
    }
  }

  lemma PrependToOnly<T>(c: T, sep: T, last: seq<T>, b: seq<T>)
    requires c != sep
    ensures Prepend(c, sep, [] + [last]) == [] + [[c] + last]
    ensures Prepend(c, sep, [] + Split(last + b, sep)) == [] + Split([c] + last + b, sep)
  {
    var text := [c] + last + b;
    assert text[1..] == last + b;
    assert [] + Split(last + b, sep) == Split(last + b, sep);
    assert [] + Split(text, sep) == Split(text, sep);
    assert [] + [last] == [last] && [] + [[c] + last] == [[c] + last];
  }

  lemma {:induction false} SplitPlain<T>(s: seq<T>, sep: T)
    requires sep !in s
    ensures Split(s, sep) == [s]
  {
    if s == [] {
    } else {
      SplitPlain(s[1..], sep);
      assert [s[0]] + s[1..] == s;
    }
  }

  lemma {:induction false} SplitJoin<T>(parts: seq<seq<T>>, sep: T)
    requires parts != []
    requires forall i :: 0 <= i < |parts| ==> sep !in parts[i]
    ensures Split(Join(parts, sep), sep) == parts
  {
    SplitPlain(parts[0], sep);
    if |parts| == 1 {
    } else {
      SplitJoin(parts[1..], sep);
      SplitAround(parts[0], sep, Join(parts[1..], sep));
    }
  }

  lemma {:induction false} JoinAppend<T>(a: seq<seq<T>>, b: seq<seq<T>>, sep: T)
    requires a != [] && b != []
    ensures Join(a + b, sep) == Join(a, sep) + [sep] + Join(b, sep)
  {
    var all := a + b;
    if |a| == 1 {
      assert all[1..] == b;
    } else {
      JoinAppend(a[1..], b, sep);
      assert all[1..] == a[1..] + b;
    }
  }

  function StripLeft<T(==)>(s: seq<T>, cut: set<T>): seq<T> {
    if s != [] && s[0] in cut then StripLeft(s[1..], cut) else s
  }

  function StripRight<T(==)>(s: seq<T>, cut: set<T>): seq<T> {
    if s != [] && s[|s| - 1] in cut then StripRight(s[..|s| - 1], cut) else s
  }

  /** `s.strip(chars)` */
  function Strip<T(==)>(s: seq<T>, cut: set<T>): seq<T> {
    StripRight(StripLeft(s, cut), cut)
  }

  predicate Trimmed<T(==)>(s: seq<T>, cut: set<T>) {
    s == [] || (s[0] !in cut && s[|s| - 1] !in cut)
  }

  lemma {:induction false} StripLeftShape<T>(s: seq<T>, cut: set<T>)
    ensures exists k | 0 <= k <= |s| :: StripLeft(s, cut) == s[k..]
    ensures var r := StripLeft(s, cut); r == [] || r[0] !in cut
  {
    if s != [] && s[0] in cut {
      StripLeftShape(s[1..], cut);
      var k :| 0 <= k <= |s[1..]| && StripLeft(s[1..], cut) == s[1..][k..];
      assert s[1..][k..] == s[k + 1..];
    } else {
      assert s == s[0..];
    }
  }

  lemma {:induction false} StripRightShape<T>(s: seq<T>, cut: set<T>)
    ensures exists k | 0 <= k <= |s| :: StripRight(s, cut) == s[..k]
    ensures var r := StripRight(s, cut); r == [] || r[|r| - 1] !in cut
  {
    if s != [] && s[|s| - 1] in cut {
      var t := s[..|s| - 1];
      StripRightShape(t, cut);
      var k :| 0 <= k <= |t| && StripRight(t, cut) == t[..k];
      assert t[..k] == s[..k];
    } else {
      assert s == s[..|s|];
    }
  }

  /** Stripping removes every leading and trailing character of the set, and nothing inside. */
  lemma StripTrims<T>(s: seq<T>, cut: set<T>)
    ensures Trimmed(Strip(s, cut), cut)
    ensures Strip(s, cut) == s <==> Trimmed(s, cut)
    ensures forall c :: c in Strip(s, cut) ==> c in s
  {
    StripLeftShape(s, cut);
    StripRightShape(StripLeft(s, cut), cut);
  }

  lemma {:induction false} StripLeftPadding<T>(pre: seq<T>, s: seq<T>, cut: set<T>)
    requires forall c :: c in pre ==> c in cut
    ensures StripLeft(pre + s, cut) == StripLeft(s, cut)
  {
    if pre == [] {
      assert pre + s == s;
    } else {
      assert (pre + s)[1..] == pre[1..] + s;
      StripLeftPadding(pre[1..], s, cut);
    }
  }

  lemma {:induction false} StripRightPadding<T>(s: seq<T>, post: seq<T>, cut: set<T>)
    requires forall c :: c in post ==> c in cut
    ensures StripRight(s + post, cut) == StripRight(s, cut)
  {
    if post == [] {
      assert s + post == s;
    } else {
      var all := s + post;
      assert all[..|all| - 1] == s + post[..|post| - 1];
      StripRightPadding(s, post[..|post| - 1], cut);
    }
  }

  /** Padding made of stripped characters does not matter. */
  lemma StripPadding<T>(pre: seq<T>, s: seq<T>, post: seq<T>, cut: set<T>)
    requires Trimmed(s, cut)
    requires forall c :: c in pre + post ==> c in cut
    ensures Strip(pre + s + post, cut) == s
  {
    assert pre + s + post == pre + (s + post);
    assert forall c | c in pre :: c in pre + post;
    assert forall c | c in post :: c in pre + post;
    StripLeftPadding(pre, s + post, cut);
    if s == [] {
      StripLeftPadding(post, [], cut);
      assert s + post == post + [];
    } else {
      StripRightPadding(s, post, cut);
    }
  }

  function Reverse<T>(s: seq<T>): (r: seq<T>)
    ensures |r| == |s|
    ensures forall i :: 0 <= i < |s| ==> r[i] == s[|s| - 1 - i]
  {
    if s == [] then [] else Reverse(s[1..]) + [s[0]]
  }

  predicate IsSuffix<T(==)>(x: seq<T>, y: seq<T>) {
    |x| <= |y| && y[|y| - |x|..] == x
  }

  /** A prefix of the reversed text is a suffix of the text. */
  lemma ReversePrefixIsSuffix<T>(x: seq<T>, y: seq<T>)
    ensures Reverse(x) <= Reverse(y) <==> IsSuffix(x, y)
  {
    var rx, ry := Reverse(x), Reverse(y);
    if rx <= ry {
      forall i | 0 <= i < |x|
        ensures y[|y| - |x|..][i] == x[i]
      {
        assert rx[|x| - 1 - i] == ry[|x| - 1 - i];
      }
    }
    if IsSuffix(x, y) {
      forall i | 0 <= i < |x|
        ensures rx[i] == ry[i]
      {
        assert y[|y| - |x|..][|x| - 1 - i] == x[|x| - 1 - i];
      }
    }
  }

  /** `q == d or q.endswith(sep + d)` */
  predicate Under<T(==)>(q: seq<T>, d: seq<T>, sep: T) {
    q == d || (|d| < |q| && q[|q| - |d| - 1..] == [sep] + d)
  }

  /** The string scan over separators is a suffix test on the pieces. */
  lemma UnderIsPieceSuffix<T>(q: seq<T>, d: seq<T>, sep: T)
    ensures Under(q, d, sep) <==> IsSuffix(Split(d, sep), Split(q, sep))
  {
    if Under(q, d, sep) && q != d {
      var a := q[..|q| - |d| - 1];
      assert q == a + [sep] + d by { assert q == a + q[|a|..]; }
      SplitAround(a, sep, d);
    }
    if IsSuffix(Split(d, sep), Split(q, sep)) {
      PieceSuffixIsUnder(q, d, sep);
    }
  }

  lemma PieceSuffixIsUnder<T>(q: seq<T>, d: seq<T>, sep: T)
    requires IsSuffix(Split(d, sep), Split(q, sep))
    ensures Under(q, d, sep)
  {
    var n := |Split(q, sep)| - |Split(d, sep)|;
    JoinSplit(q, sep);
    JoinSplit(d, sep);
    if n == 0 {
      assert Split(q, sep)[0..] == Split(q, sep);
    } else {
      assert Split(q, sep) == Split(q, sep)[..n] + Split(d, sep);
      JoinAppend(Split(q, sep)[..n], Split(d, sep), sep);
      EndsWithIsUnder(q, Join(Split(q, sep)[..n], sep), d, sep);
    }
  }

  lemma EndsWithIsUnder<T>(q: seq<T>, a: seq<T>, d: seq<T>, sep: T)
    requires q == a + [sep] + d
    ensures Under(q, d, sep)
  {
    assert q[|a|..] == [sep] + d;
  }
}
