/** Subsequences: what is left of a sequence when some elements are struck out. */
module Subsequences {

  ghost predicate IsSubseq<T>(c: seq<T>, a: seq<T>)
    decreases |a|
  {
    c == [] || (a != [] && ((c[0] == a[0] && IsSubseq(c[1..], a[1..])) || IsSubseq(c, a[1..])))
  }

  lemma {:induction false} TailIsSubseq<T>(c: seq<T>, a: seq<T>)
    requires IsSubseq(c, a) && c != []
    ensures IsSubseq(c[1..], a)
    decreases |a|
  {
    if c[0] == a[0] && IsSubseq(c[1..], a[1..]) {
      if |c| > 1 { assert IsSubseq(c[1..], a[1..]); }
    } else {
      TailIsSubseq(c, a[1..]);
    }
  }

  lemma HeadsDropped<T>(c: seq<T>, a: seq<T>)
    requires IsSubseq(c, a) && c != []
    ensures IsSubseq(c[1..], a[1..])
  {
    if !(c[0] == a[0] && IsSubseq(c[1..], a[1..])) {
      TailIsSubseq(c, a[1..]);
    }
  }

  lemma DroppedAgain<T>(s: seq<T>, i: nat)
    requires 0 < i <= |s|
    ensures s[1..][i - 1..] == s[i..]
  {
  }

  /** Dropping at least as many first elements from the subsequence as from the whole. */
  lemma {:induction false} SubseqDropped<T>(c: seq<T>, a: seq<T>, i: nat, j: nat)
    requires IsSubseq(c, a) && j <= i <= |c| && j <= |a|
    ensures IsSubseq(c[i..], a[j..])
    decreases i
  {
    if j > 0 {
      HeadsDropped(c, a);
      SubseqDropped(c[1..], a[1..], i - 1, j - 1);
      DroppedAgain(c, i);
      DroppedAgain(a, j);
    } else if i > 0 {
      TailIsSubseq(c, a);
      SubseqDropped(c[1..], a, i - 1, 0);
      DroppedAgain(c, i);
    }
  }

  lemma {:induction false} SubseqOfSelf<T>(a: seq<T>)
    ensures IsSubseq(a, a)
  {
    if a != [] { SubseqOfSelf(a[1..]); }
  }

  lemma {:induction false} SubseqElements<T>(c: seq<T>, a: seq<T>)
    requires IsSubseq(c, a)
    ensures |c| <= |a| && forall x :: x in c ==> x in a
    decreases |a|
  {
    if c != [] {
      if c[0] == a[0] && IsSubseq(c[1..], a[1..]) {
        SubseqElements(c[1..], a[1..]);
        assert c == [c[0]] + c[1..];
      } else {
        SubseqElements(c, a[1..]);
      }
    }
  }

  /** A subsequence as long as the whole is the whole. */
  lemma {:induction false} FullSubseq<T>(c: seq<T>, a: seq<T>)
    requires IsSubseq(c, a) && |c| == |a|
    ensures c == a
    decreases |a|
  {
    if c != [] {
      if c[0] == a[0] && IsSubseq(c[1..], a[1..]) {
        FullSubseq(c[1..], a[1..]);
        assert c == [c[0]] + c[1..] && a == [a[0]] + a[1..];
      } else {
        SubseqElements(c, a[1..]);
      }
    }
  }

  /** Subsequences end where they end: the last elements may be matched with each other, or the
      last of the whole left unmatched. */
  lemma {:induction false} SubseqBySnoc<T>(c: seq<T>, a: seq<T>)
    requires a != [] && c != []
    ensures var c', a' := c[..|c| - 1], a[..|a| - 1];
      IsSubseq(c, a) <==> (c[|c| - 1] == a[|a| - 1] && IsSubseq(c', a')) || IsSubseq(c, a')
    decreases |a|
  {
    var c', a' := c[..|c| - 1], a[..|a| - 1];
    if |a| == 1 {
      if |c| > 1 { assert c[1..] != []; }
    } else {
      assert a[1..][..|a[1..]| - 1] == a'[1..];
      SubseqBySnoc(c, a[1..]);
      if |c| > 1 {
        assert c[1..][..|c[1..]| - 1] == c'[1..];
        SubseqBySnoc(c[1..], a[1..]);
      }
    }
  }

  lemma SubseqSnoc<T>(c: seq<T>, a: seq<T>, x: T)
    requires IsSubseq(c, a)
    ensures IsSubseq(c, a + [x]) && IsSubseq(c + [x], a + [x])
  {
    assert (a + [x])[..|a|] == a && (c + [x])[..|c|] == c;
    SubseqBySnoc(c + [x], a + [x]);
    if c != [] { SubseqBySnoc(c, a + [x]); }
  }

  lemma {:induction false} SubseqTransitive<T>(c: seq<T>, b: seq<T>, a: seq<T>)
    requires IsSubseq(c, b) && IsSubseq(b, a)
    ensures IsSubseq(c, a)
    decreases |a|
  {
    if c != [] {
      if b[0] == a[0] && IsSubseq(b[1..], a[1..]) {
        if c[0] == b[0] && IsSubseq(c[1..], b[1..]) {
          SubseqTransitive(c[1..], b[1..], a[1..]);
        } else {
          SubseqTransitive(c, b[1..], a[1..]);
        }
      } else {
        SubseqTransitive(c, b, a[1..]);
      }
    }
  }

  lemma {:induction false} SubseqJoined<T>(c: seq<T>, a: seq<T>, d: seq<T>, b: seq<T>)
    requires IsSubseq(c, a) && IsSubseq(d, b)
    ensures IsSubseq(c + d, a + b)
    decreases |a|
  {
    if a == [] {
      assert c + d == d && a + b == b;
    } else {
      assert (a + b)[1..] == a[1..] + b;
      if c != [] && c[0] == a[0] && IsSubseq(c[1..], a[1..]) {
        SubseqJoined(c[1..], a[1..], d, b);
        assert (c + d)[1..] == c[1..] + d;
      } else {
        SubseqJoined(c, a[1..], d, b);
      }
    }
  }

  /** `s` with every `x` struck out. */
  function Without<T(==, !new)>(s: seq<T>, x: T): (r: seq<T>)
    ensures |r| <= |s| && x !in r
    ensures forall y :: y in r <==> y in s && y != x
  {
    if s == [] then []
    else if s[0] == x then Without(s[1..], x)
    else [s[0]] + Without(s[1..], x)
  }

  lemma {:induction false} WithoutJoined<T(!new)>(s: seq<T>, t: seq<T>, x: T)
    ensures Without(s + t, x) == Without(s, x) + Without(t, x)
  {
    if s == [] {
      assert s + t == t;
    } else {
      assert (s + t)[1..] == s[1..] + t;
      WithoutJoined(s[1..], t, x);
    }
  }

  lemma {:induction false} WithoutAbsent<T(!new)>(s: seq<T>, x: T)
    requires x !in s
    ensures Without(s, x) == s
  {
    if s != [] { WithoutAbsent(s[1..], x); }
  }

  lemma {:induction false} SubseqWithout<T(!new)>(c: seq<T>, a: seq<T>, x: T)
    requires IsSubseq(c, a)
    ensures IsSubseq(Without(c, x), Without(a, x))
    decreases |a|
  {
    if c != [] {
      assert a[0] != x ==> Without(a, x)[1..] == Without(a[1..], x);
      assert c[0] != x ==> Without(c, x)[1..] == Without(c[1..], x);
      if c[0] == a[0] && IsSubseq(c[1..], a[1..]) {
        SubseqWithout(c[1..], a[1..], x);
      } else {
        SubseqWithout(c, a[1..], x);
      }
    }
  }

  ghost predicate Distinct<T>(s: seq<T>) {
    forall i, j :: 0 <= i < j < |s| ==> s[i] != s[j]
  }

  lemma {:induction false} WithoutDistinct<T(!new)>(s: seq<T>, x: T)
    requires Distinct(s)
    ensures Distinct(Without(s, x))
    ensures |Without(s, x)| == if x in s then |s| - 1 else |s|
  {
    if s != [] {
      assert s[0] !in s[1..];
      WithoutDistinct(s[1..], x);
      if s[0] == x { WithoutAbsent(s[1..], x); }
    }
  }
}
