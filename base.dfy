/** The optional value used wherever Python returns None or raises "not found". */
module Wrappers {

  datatype Option<+T> = None | Some(value: T)
}

/** Lookups in sequences, in the sense of Python's `list.index` and `in`. */
module Seqs {

  /** Position of the first occurrence of `x` in `s`. */
  function IndexOf<T(==)>(s: seq<T>, x: T): (k: nat)
    requires x in s
    ensures k < |s| && s[k] == x
    ensures forall j :: 0 <= j < k ==> s[j] != x
  {
    if s[0] == x then 0 else 1 + IndexOf(s[1..], x)
  }

  /** Appending at the right does not move the first occurrence of anything already present. */
  lemma {:induction false} IndexOfAppend<T>(s: seq<T>, y: T, x: T)
    requires x in s + [y]
    ensures x in s ==> IndexOf(s + [y], x) == IndexOf(s, x)
    ensures x !in s ==> IndexOf(s + [y], x) == |s|
  {
    if s != [] && s[0] != x {
      assert (s + [y])[1..] == s[1..] + [y];
      IndexOfAppend(s[1..], y, x);
    }
  }

  /** `x` occurs in `s` at most once. */
  predicate AtMostOnce<T(==)>(s: seq<T>, x: T)
  {
    forall i, j :: 0 <= i < j < |s| && s[i] == x ==> s[j] != x
  }

  /** No element of `s` occurs twice. */
  predicate Distinct<T(==)>(s: seq<T>)
  {
    forall i, j :: 0 <= i < j < |s| ==> s[i] != s[j]
  }

  /** Appending the next element of `ys` to a prefix of `ys` gives the next prefix. */
  lemma PrefixGrows<T>(xs: seq<T>, ys: seq<T>, i: nat)
    requires i < |ys| && xs == ys[..i]
    ensures xs + [ys[i]] == ys[..i + 1]
  {
  }

  /** `s` without any occurrence of `x`, in order (the columns left after `set_index`). */
  function Without<T(==,!new)>(s: seq<T>, x: T): (r: seq<T>)
    ensures forall y :: y in r <==> y in s && y != x
    ensures x in s && AtMostOnce(s, x) ==> |r| == |s| - 1
    ensures x !in s ==> r == s
  {
    if s == [] then []
    else if s[0] == x then Without(s[1..], x)
    else [s[0]] + Without(s[1..], x)
  }
}
