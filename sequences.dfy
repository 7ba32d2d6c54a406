/** Order-preserving helpers shared by the calendar legend and the two charts:
    JavaScript's `find` and `new Set(...)`, whose iteration order is first insertion. */
module Sequences {

  /** Index of the first occurrence of `x` in `s`, or `|s|` when there is none. */
  function FirstIndexOf<T(==)>(s: seq<T>, x: T): (r: nat)
    ensures r <= |s|
    ensures r < |s| ==> s[r] == x
    ensures forall k :: 0 <= k < r ==> s[k] != x
    ensures r == |s| <==> x !in s
  {
    if |s| == 0 then 0
    else if s[0] == x then 0
    else 1 + FirstIndexOf(s[1..], x)
  }

  /** A prefix that already contains `x` locates its first occurrence in the whole sequence. */
  lemma FirstIndexOfPrefix<T>(s: seq<T>, n: nat, x: T)
    requires n <= |s| && x in s[..n]
    ensures FirstIndexOf(s, x) == FirstIndexOf(s[..n], x) < n
  {
    var i := FirstIndexOf(s[..n], x);
    assert forall k :: 0 <= k <= i ==> s[..n][k] == s[k];
  }

  lemma TakeSnoc<T>(s: seq<T>, n: nat)
    requires n < |s|
    ensures s[..n + 1] == s[..n] + [s[n]]
  {
  }

  /** The values of a prefix one longer are those of the prefix and the next value. */
  lemma InTakeSnoc<T>(s: seq<T>, n: nat)
    requires n < |s|
    ensures forall x :: x in s[..n + 1] <==> x in s[..n] || x == s[n]
  {
    TakeSnoc(s, n);
  }

  /** An element met at position `n` and nowhere before it is first seen at `n`. */
  lemma FirstIndexAt<T>(s: seq<T>, n: nat, x: T)
    requires n < |s| && s[n] == x && x !in s[..n]
    ensures FirstIndexOf(s, x) == n
  {
    assert forall k :: 0 <= k < n ==> s[..n][k] == s[k];
  }

  /** The elements of `s`, each kept at its first occurrence: `Array.from(new Set(s))`. */
  function Distinct<T(==,!new)>(s: seq<T>): (r: seq<T>)
    ensures forall x :: x in r <==> x in s
    ensures |r| <= |s|
  {
    if |s| == 0 then []
    else
      var d := Distinct(s[..|s| - 1]);
      if s[|s| - 1] in d then d else d + [s[|s| - 1]]
  }

  /** No value occurs twice in `r`. */
  predicate NoDuplicates<T(==)>(r: seq<T>) {
    forall i, j :: 0 <= i < j < |r| ==> r[i] != r[j]
  }

  /** The values of `r` are listed in the order of their first occurrence in `s`. */
  predicate InFirstSeenOrder<T(==)>(s: seq<T>, r: seq<T>) {
    forall i, j :: 0 <= i < j < |r| ==> FirstIndexOf(s, r[i]) < FirstIndexOf(s, r[j])
  }

  /** `Distinct(s)` lists its values in the order of their first occurrence in `s`
      (which also means that none is listed twice). */
  lemma {:induction false} DistinctInFirstSeenOrder<T(!new)>(s: seq<T>)
    ensures InFirstSeenOrder(s, Distinct(s))
    ensures NoDuplicates(Distinct(s))
  {
    if |s| > 0 {
      var n := |s| - 1;
      var p := s[..n];
      DistinctInFirstSeenOrder(p);
      var d := Distinct(p);
      DistinctLast(s);
      OrderInPrefix(s, n, d);
      if s[n] in d {
        assert Distinct(s) == d;
      } else {
        assert s[n] !in p;
        FirstIndexAt(s, n, s[n]);
        OrderSnoc(s, d, s[n], n);
        assert Distinct(s) == d + [s[n]];
      }
    }
  }

  lemma DistinctLast<T(!new)>(s: seq<T>)
    requires |s| > 0
    ensures var d := Distinct(s[..|s| - 1]);
            Distinct(s) == if s[|s| - 1] in d then d else d + [s[|s| - 1]]
  {
  }

  /** Values seen within the first `n` elements keep their first positions, and their order,
      in the whole sequence. */
  lemma OrderInPrefix<T>(s: seq<T>, n: nat, d: seq<T>)
    requires n <= |s| && InFirstSeenOrder(s[..n], d)
    requires forall x :: x in d ==> x in s[..n]
    ensures InFirstSeenOrder(s, d)
    ensures forall i :: 0 <= i < |d| ==> FirstIndexOf(s, d[i]) < n
  {
    forall i | 0 <= i < |d|
      ensures FirstIndexOf(s, d[i]) == FirstIndexOf(s[..n], d[i]) < n
    {
      FirstIndexOfPrefix(s, n, d[i]);
    }
  }

  /** A value first seen at `n`, after every value of `d`, may follow them. */
  lemma OrderSnoc<T>(s: seq<T>, d: seq<T>, x: T, n: nat)
    requires InFirstSeenOrder(s, d) && NoDuplicates(d)
    requires forall i :: 0 <= i < |d| ==> FirstIndexOf(s, d[i]) < n
    requires FirstIndexOf(s, x) == n
    ensures InFirstSeenOrder(s, d + [x]) && NoDuplicates(d + [x])
  {
    var d' := d + [x];
    forall i, j | 0 <= i < j < |d'|
      ensures FirstIndexOf(s, d'[i]) < FirstIndexOf(s, d'[j])
    {
      assert d'[i] == d[i];
      if j < |d| {
        assert d'[j] == d[j];
      }
    }
  }

  /** Appending one value either leaves the distinct list alone or adds that value at the end. */
  lemma DistinctSnoc<T(!new)>(s: seq<T>, x: T)
    ensures Distinct(s + [x]) == if x in s then Distinct(s) else Distinct(s) + [x]
  {
    assert (s + [x])[..|s|] == s;
  }
}
