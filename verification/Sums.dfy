/** Multisets added up along a sequence. */
module Sums {

  function Sum<S, T>(s: seq<S>, f: S -> multiset<T>): multiset<T> {
    if s == [] then multiset{} else Sum(s[..|s| - 1], f) + f(s[|s| - 1])
  }

  lemma {:induction false} SumAppend<S, T>(a: seq<S>, b: seq<S>, f: S -> multiset<T>)
    ensures Sum(a + b, f) == Sum(a, f) + Sum(b, f)
    decreases |b|
  {
    if b == [] {
      assert a + b == a;
    } else {
      var n := |b| - 1;
      assert (a + b)[..|a + b| - 1] == a + b[..n];
      SumAppend(a, b[..n], f);
    }
  }

  lemma SumOne<S, T>(x: S, f: S -> multiset<T>)
    ensures Sum([x], f) == f(x)
  {
    assert [x][..0] == [];
  }

  /** The sum with one element singled out. */
  lemma SumSplit<S, T>(s: seq<S>, i: nat, f: S -> multiset<T>)
    requires i < |s|
    ensures Sum(s, f) == Sum(s[..i] + s[i + 1..], f) + f(s[i])
  {
    hide Sum;
    SumAppend(s[..i], s[i + 1..], f);
    SumAppend(s[..i], [s[i]], f);
    SumAppend(s[..i] + [s[i]], s[i + 1..], f);
    SumOne(s[i], f);
    assert s[..i] + [s[i]] + s[i + 1..] == s;
  }

  lemma SumUpdate<S, T>(s: seq<S>, i: nat, x: S, f: S -> multiset<T>)
    requires i < |s|
    ensures Sum(s[i := x], f) + f(s[i]) == Sum(s, f) + f(x)
  {
    hide Sum;
    SumSplit(s, i, f);
    SumSplit(s[i := x], i, f);
    assert s[i := x][..i] + s[i := x][i + 1..] == s[..i] + s[i + 1..];
  }

  lemma SumInsert<S, T>(s: seq<S>, i: nat, x: S, f: S -> multiset<T>)
    requires i <= |s|
    ensures Sum(s[..i] + [x] + s[i..], f) == Sum(s, f) + f(x)
  {
    hide Sum;
    var t := s[..i] + [x] + s[i..];
    SumSplit(t, i, f);
    assert t[..i] + t[i + 1..] == s;
  }

  /** Taking an element out of a sequence takes it out of the multiset. */
  lemma MultisetWithout<T>(s: seq<T>, i: nat)
    requires i < |s|
    ensures multiset(s[..i] + s[i + 1..]) == multiset(s) - multiset{s[i]} && s[i] in multiset(s)
  {
    assert s == s[..i] + [s[i]] + s[i + 1..];
  }

  lemma Cancel<T>(a: multiset<T>, b: multiset<T>, c: multiset<T>)
    requires a + c == b + c
    ensures a == b
  {
    assert a == (a + c) - c;
    assert b == (b + c) - c;
  }
}
