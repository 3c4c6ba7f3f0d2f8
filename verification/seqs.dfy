/** Sequence operations the run is built from: the concatenation of a list
    of lists (spread-and-reduce) and `Array.prototype.filter`. */
module Seqs {

  /** The concatenation of `xss` in order. */
  function Flatten<T>(xss: seq<seq<T>>): seq<T>
    decreases |xss|
  {
    if |xss| == 0 then [] else xss[0] + Flatten(xss[1..])
  }

  /** Appending one more list at the end appends its elements. */
  lemma {:induction false} FlattenSnoc<T>(xss: seq<seq<T>>, ys: seq<T>)
    ensures Flatten(xss + [ys]) == Flatten(xss) + ys
    decreases |xss|
  {
    if |xss| == 0 {
      assert xss + [ys] == [ys];
      assert [ys][1..] == [];
    } else {
      assert (xss + [ys])[0] == xss[0];
      assert (xss + [ys])[1..] == xss[1..] + [ys];
      FlattenSnoc(xss[1..], ys);
    }
  }

  /** The elements of `s` that `p` accepts, in their order in `s`. */
  function Filter<T>(p: T -> bool, s: seq<T>): (r: seq<T>)
    ensures |r| <= |s|
    ensures forall i :: 0 <= i < |r| ==> r[i] in s && p(r[i])
    ensures forall i :: 0 <= i < |s| && p(s[i]) ==> s[i] in r
    decreases |s|
  {
    if |s| == 0 then []
    else (if p(s[0]) then [s[0]] else []) + Filter(p, s[1..])
  }

  /** Filtering a concatenation filters each part. */
  lemma {:induction false} FilterAppend<T>(p: T -> bool, a: seq<T>, b: seq<T>)
    ensures Filter(p, a + b) == Filter(p, a) + Filter(p, b)
    decreases |a|
  {
    if |a| == 0 {
      assert a + b == b;
    } else {
      assert (a + b)[0] == a[0];
      assert (a + b)[1..] == a[1..] + b;
      FilterAppend(p, a[1..], b);
    }
  }

  /** Two filters may be applied in either order. */
  lemma {:induction false} FilterCommute<T>(p: T -> bool, q: T -> bool, s: seq<T>)
    ensures Filter(p, Filter(q, s)) == Filter(q, Filter(p, s))
    decreases |s|
  {
    if |s| > 0 {
      var hd := [s[0]];
      FilterCommute(p, q, s[1..]);
      FilterAppend(p, if q(s[0]) then hd else [], Filter(q, s[1..]));
      FilterAppend(q, if p(s[0]) then hd else [], Filter(p, s[1..]));
      assert Filter(p, hd) == (if p(s[0]) then hd else []) by {
        assert hd[1..] == [];
      }
      assert Filter(q, hd) == (if q(s[0]) then hd else []) by {
        assert hd[1..] == [];
      }
    }
  }

  /** A filter that accepts every element returns the list unchanged. */
  lemma {:induction false} FilterAcceptAll<T>(p: T -> bool, s: seq<T>)
    requires forall i :: 0 <= i < |s| ==> p(s[i])
    ensures Filter(p, s) == s
    decreases |s|
  {
    if |s| > 0 {
      assert forall i :: 0 <= i < |s| - 1 ==> s[1..][i] == s[i + 1];
      FilterAcceptAll(p, s[1..]);
      assert s == [s[0]] + s[1..];
    }
  }

  /** A single element is kept exactly when `p` accepts it. With
      `FilterAppend` this fixes the whole result: the kept elements stay in
      their input order. */
  lemma {:induction false} FilterSingleton<T>(p: T -> bool, x: T)
    ensures Filter(p, [x]) == if p(x) then [x] else []
  {
    assert [x][1..] == [];
  }

  /** Every element is kept exactly as often as it occurs in `s` when `p`
      accepts it, and not at all otherwise. */
  lemma {:induction false} FilterCount<T>(p: T -> bool, s: seq<T>)
    ensures forall x :: multiset(Filter(p, s))[x] == if p(x) then multiset(s)[x] else 0
    decreases |s|
  {
    if |s| > 0 {
      FilterCount(p, s[1..]);
      var head := if p(s[0]) then [s[0]] else [];
      assert Filter(p, s) == head + Filter(p, s[1..]);
      assert s == [s[0]] + s[1..];
      assert multiset(s) == multiset{s[0]} + multiset(s[1..]);
      assert multiset(Filter(p, s)) == multiset(head) + multiset(Filter(p, s[1..]));
    }
  }
}
