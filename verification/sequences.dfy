/**
 Sequence utilities shared by the modules: Python's list comprehension
 `[f(x) for x in s]` and the multiset facts about permutations it needs.
 */
module Sequences {
  /** Taking the first element off one of two permutations and the same
      element off the other leaves two permutations. */
  lemma PermutationWithout<T>(a: seq<T>, b: seq<T>, i: int)
    requires multiset(a) == multiset(b) && a != [] && 0 <= i < |b| && b[i] == a[0]
    ensures multiset(a[1..]) == multiset(b[..i] + b[i + 1..])
  {
    assert a == [a[0]] + a[1..];
    assert b == b[..i] + [b[i]] + b[i + 1..];
    assert multiset(b) == multiset(b[..i]) + multiset{a[0]} + multiset(b[i + 1..]);
    assert multiset(a) == multiset{a[0]} + multiset(a[1..]);
    var rest := b[..i] + b[i + 1..];
    assert multiset(rest) == multiset(b[..i]) + multiset(b[i + 1..]);
    forall y ensures multiset(a[1..])[y] == multiset(rest)[y] {
      assert multiset(a)[y] == multiset{a[0]}[y] + multiset(a[1..])[y];
      assert multiset(b)[y] == multiset(b[..i])[y] + multiset{a[0]}[y] + multiset(b[i + 1..])[y];
    }
  }

  /** `[f(x) for x in s]`. */
  function MapSeq<T, U>(s: seq<T>, f: T -> U): (r: seq<U>)
    ensures |r| == |s|
  {
    if s == [] then [] else [f(s[0])] + MapSeq(s[1..], f)
  }

  lemma {:induction false} MapSeqAt<T, U>(s: seq<T>, f: T -> U, i: int)
    requires 0 <= i < |s|
    ensures MapSeq(s, f)[i] == f(s[i])
  {
    if i > 0 {
      MapSeqAt(s[1..], f, i - 1);
    }
  }

  lemma {:induction false} MapSeqAppend<T, U>(a: seq<T>, b: seq<T>, f: T -> U)
    ensures MapSeq(a + b, f) == MapSeq(a, f) + MapSeq(b, f)
  {
    if a == [] {
      assert a + b == b;
    } else {
      assert (a + b)[0] == a[0] && (a + b)[1..] == a[1..] + b;
      MapSeqAppend(a[1..], b, f);
    }
  }

  lemma MapSeqCons<T, U>(x: T, s: seq<T>, f: T -> U)
    ensures MapSeq([x] + s, f) == [f(x)] + MapSeq(s, f)
  {
    assert ([x] + s)[0] == x && ([x] + s)[1..] == s;
  }

  /** Mapping a sequence maps each of its elements once, wherever it sits. */
  lemma {:induction false} MapSeqWithout<T, U>(b: seq<T>, i: int, f: T -> U)
    requires 0 <= i < |b|
    ensures multiset(MapSeq(b, f)) == multiset{f(b[i])} + multiset(MapSeq(b[..i] + b[i + 1..], f))
  {
    var x, pre, post := b[i], b[..i], b[i + 1..];
    var mp, mq := MapSeq(pre, f), MapSeq(post, f);
    assert b == pre + ([x] + post);
    MapSeqAppend(pre, [x] + post, f);
    MapSeqCons(x, post, f);
    MapSeqAppend(pre, post, f);
    var whole := mp + ([f(x)] + mq);
    assert MapSeq(b, f) == whole;
    assert multiset(whole) == multiset(mp) + multiset([f(x)] + mq);
    assert multiset([f(x)] + mq) == multiset{f(x)} + multiset(mq);
  }

  /** Mapping two permutations of each other gives two permutations of each
      other. */
  lemma {:induction false} MapPermutation<T, U>(a: seq<T>, b: seq<T>, f: T -> U)
    requires multiset(a) == multiset(b)
    ensures multiset(MapSeq(a, f)) == multiset(MapSeq(b, f))
    decreases |a|
  {
    if a == [] {
      assert |b| == |multiset(b)| == 0;
    } else {
      assert a[0] in multiset(b);
      var i :| 0 <= i < |b| && b[i] == a[0];
      PermutationWithout(a, b, i);
      MapPermutation(a[1..], b[..i] + b[i + 1..], f);
      MapSeqWithout(a, 0, f);
      assert a[..0] + a[1..] == a[1..];
      MapSeqWithout(b, i, f);
    }
  }
}
