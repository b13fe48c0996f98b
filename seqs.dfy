/** Order-preserving filtering of lists, the `erase(remove_if(...))` idiom the C++ code
    uses to drop the entries of a vector that match a condition. */
module Seqs {

  /** The elements of s that satisfy `keep`, in their original order. */
  function Filter<T>(s: seq<T>, keep: T -> bool): (r: seq<T>)
    ensures |r| <= |s|
    decreases |s|
  {
    if |s| == 0 then []
    else Filter(s[..|s| - 1], keep) + (if keep(s[|s| - 1]) then [s[|s| - 1]] else [])
  }

  /** Filtering a concatenation filters each part: the kept elements stay in order. */
  lemma {:induction false} FilterAppend<T>(a: seq<T>, b: seq<T>, keep: T -> bool)
    ensures Filter(a + b, keep) == Filter(a, keep) + Filter(b, keep)
    decreases |b|
  {
    if |b| > 0 {
      var c := b[..|b| - 1];
      assert (a + b)[..|a + b| - 1] == a + c;
      var x := b[|b| - 1];
      assert (a + b)[|a + b| - 1] == x;
      var tail := if keep(x) then [x] else [];
      assert Filter(a + b, keep) == Filter(a + c, keep) + tail;
      assert Filter(b, keep) == Filter(c, keep) + tail;
      FilterAppend(a, c, keep);
    } else {
      assert a + b == a;
    }
  }

  /** x survives the filter exactly when it was in the list and is kept. */
  lemma {:induction false} FilterMember<T>(s: seq<T>, keep: T -> bool, x: T)
    ensures x in Filter(s, keep) <==> x in s && keep(x)
    decreases |s|
  {
    if |s| > 0 {
      var init := s[..|s| - 1];
      FilterMember(init, keep, x);
      assert s == init + [s[|s| - 1]];
    }
  }

  /** Every element of the result is kept. */
  lemma FilterAllKept<T>(s: seq<T>, keep: T -> bool)
    ensures forall i :: 0 <= i < |Filter(s, keep)| ==> keep(Filter(s, keep)[i])
  {
    forall i | 0 <= i < |Filter(s, keep)|
      ensures keep(Filter(s, keep)[i])
    {
      FilterMember(s, keep, Filter(s, keep)[i]);
    }
  }

  /** A list whose elements are all kept is unchanged. */
  lemma {:induction false} FilterKeepsAll<T>(s: seq<T>, keep: T -> bool)
    requires forall i :: 0 <= i < |s| ==> keep(s[i])
    ensures Filter(s, keep) == s
    decreases |s|
  {
    if |s| > 0 {
      FilterKeepsAll(s[..|s| - 1], keep);
    }
  }

  /** One step of a loop that scans the list left to right. */
  lemma FilterSnoc<T>(s: seq<T>, i: nat, keep: T -> bool)
    requires i < |s|
    ensures Filter(s[..i + 1], keep) == Filter(s[..i], keep) + (if keep(s[i]) then [s[i]] else [])
  {
    assert s[..i + 1][..i] == s[..i];
  }

  /** No element occurs twice. */
  predicate Distinct<T(==)>(s: seq<T>) {
    forall i, j :: 0 <= i < j < |s| ==> s[i] != s[j]
  }

  /** Filtering a list without repetitions gives one without repetitions. */
  lemma {:induction false} FilterDistinct<T>(s: seq<T>, keep: T -> bool)
    requires Distinct(s)
    ensures Distinct(Filter(s, keep))
    decreases |s|
  {
    if |s| > 0 {
      var init, x := s[..|s| - 1], s[|s| - 1];
      FilterDistinct(init, keep);
      FilterMember(init, keep, x);
      assert x !in init;
    }
  }

  /** A list without repetitions has as many elements as the set of its elements. */
  lemma {:induction false} DistinctCard<T>(s: seq<T>)
    requires Distinct(s)
    ensures |set x | x in s| == |s|
    decreases |s|
  {
    if |s| > 0 {
      var init, last := s[..|s| - 1], s[|s| - 1];
      DistinctCard(init);
      assert (set x | x in s) == (set x | x in init) + {last};
      assert last !in init;
    }
  }

  /** The pieces `f(v[0]) + f(v[1]) + ...`, written one element after the other, as a
      writer loop appends them. */
  function Flatten<T, U>(v: seq<T>, f: T -> seq<U>): seq<U>
    decreases |v|
  {
    if |v| == 0 then [] else Flatten(v[..|v| - 1], f) + f(v[|v| - 1])
  }

  /** One step of a loop that appends the pieces left to right. */
  lemma FlattenSnoc<T, U>(v: seq<T>, i: nat, f: T -> seq<U>)
    requires i < |v|
    ensures Flatten(v[..i + 1], f) == Flatten(v[..i], f) + f(v[i])
  {
    assert v[..i + 1][..i] == v[..i];
  }

  /** Appending one element appends its piece. */
  lemma FlattenPush<T, U>(v: seq<T>, x: T, f: T -> seq<U>)
    ensures Flatten(v + [x], f) == Flatten(v, f) + f(x)
  {
    assert (v + [x])[..|v|] == v;
  }

  /** The first piece comes first. */
  lemma {:induction false} FlattenCons<T, U>(v: seq<T>, f: T -> seq<U>)
    requires |v| > 0
    ensures Flatten(v, f) == f(v[0]) + Flatten(v[1..], f)
    decreases |v|
  {
    if |v| > 1 {
      var init := v[..|v| - 1];
      FlattenCons(init, f);
      assert init[1..] == v[1..][..|v[1..]| - 1];
      assert init[0] == v[0];
      assert v[1..][|v[1..]| - 1] == v[|v| - 1];
    } else {
      assert v[1..] == [];
      assert v[..0] == [];
    }
  }
}
