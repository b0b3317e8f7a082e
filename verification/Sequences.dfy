/** Sequence facts, kept apart so that the solver meets them without anything else in view. */
module Sequences {

  predicate NoDuplicates<T(==)>(a: seq<T>) {
    forall i, j :: 0 <= i < j < |a| ==> a[i] != a[j]
  }

  lemma SliceSplitsFirst<T>(a: seq<T>, d: nat, e: nat)
    requires d < e <= |a|
    ensures a[d..e] == [a[d]] + a[d + 1..e]
  {}

  lemma TailSplitsFirst<T>(a: seq<T>, d: nat, e: nat, rest: seq<T>)
    requires d < e <= |a|
    ensures a[d..e] + rest == [a[d]] + (a[d + 1..e] + rest)
  {}

  lemma AppendThenRest<T>(a: seq<T>, t: T, rest: seq<T>)
    ensures a + ([t] + rest) == (a + [t]) + rest
  {}

  lemma PrefixGrows<T>(a: seq<T>, k: nat)
    requires k < |a|
    ensures a[..k + 1] == a[..k] + [a[k]] && a[k..] == [a[k]] + a[k + 1..]
  {}

  lemma ConsInjective<T>(t: T, a: seq<T>, u: T, b: seq<T>)
    requires [t] + a == [u] + b
    ensures t == u && a == b
  {
    assert t == ([t] + a)[0] && u == ([u] + b)[0];
    assert a == ([t] + a)[1..] && b == ([u] + b)[1..];
  }

  lemma ConcatNoDuplicates<T>(a: seq<T>, b: seq<T>)
    requires NoDuplicates(a) && NoDuplicates(b)
    requires forall x :: x in a ==> x !in b
    ensures NoDuplicates(a + b)
  {
    forall i, j | 0 <= i < j < |a + b| ensures (a + b)[i] != (a + b)[j] {
      if i < |a| <= j {
        assert a[i] in a && b[j - |a|] in b;
      }
    }
  }
}
