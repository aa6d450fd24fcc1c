/** Sequence operations shared by the handlers: `Array.prototype.filter`, counting,
    order-preserving subsequences and distinctness. */
module Seqs {

  /** The number of positions of `s` whose element satisfies `p`. */
  function Count<T>(s: seq<T>, p: T -> bool): (n: nat)
    ensures n <= |s|
  {
    if s == [] then 0 else (if p(s[0]) then 1 else 0) + Count(s[1..], p)
  }

  /** `a` can be obtained from `b` by deleting elements, keeping the order of the rest. */
  ghost predicate IsSubsequence<T>(a: seq<T>, b: seq<T>)
    decreases |b|
  {
    a == [] || (b != [] && ((a[0] == b[0] && IsSubsequence(a[1..], b[1..])) || IsSubsequence(a, b[1..])))
  }

  /** `s.filter(p)`: the elements of `s` that satisfy `p`, in their original order.
      Being a subsequence whose every element satisfies `p` and whose length is the
      number of satisfying positions determines the result uniquely. */
  function Filter<T(!new)>(s: seq<T>, p: T -> bool): (r: seq<T>)
    ensures |r| == Count(s, p)
    ensures forall x :: x in r <==> x in s && p(x)
    ensures IsSubsequence(r, s)
  {
    if s == [] then []
    else if p(s[0]) then [s[0]] + Filter(s[1..], p)
    else Filter(s[1..], p)
  }

  /** Extending a prefix by one element. */
  lemma PrefixSnoc<T>(s: seq<T>, i: nat)
    requires i < |s|
    ensures s[..i + 1] == s[..i] + [s[i]]
  {
  }

  /** No value occurs twice. */
  ghost predicate NoDup<T>(s: seq<T>)
  {
    forall i, j :: 0 <= i < j < |s| ==> s[i] != s[j]
  }

  /** The set of values occurring in `s`: `new Set(s)`. */
  function Elems<T>(s: seq<T>): set<T>
  {
    set x | x in s
  }

  /** Appending a value adds it to the set of values, growing it exactly when it is new. */
  lemma ElemsSnoc<T>(s: seq<T>, x: T)
    ensures Elems(s + [x]) == Elems(s) + {x}
    ensures |Elems(s + [x])| == if x in s then |Elems(s)| else |Elems(s)| + 1
  {
    assert Elems(s + [x]) == Elems(s) + {x};
    if x in s {
      assert Elems(s) + {x} == Elems(s);
    } else {
      assert x !in Elems(s);
    }
  }

  lemma NoDupCons<T>(x: T, s: seq<T>)
    ensures NoDup([x] + s) <==> x !in s && NoDup(s)
  {
    var t := [x] + s;
    if x !in s && NoDup(s) {
      forall i, j | 0 <= i < j < |t| ensures t[i] != t[j] {
        if i == 0 { assert t[j] == s[j - 1]; } else { assert t[i] == s[i - 1] && t[j] == s[j - 1]; }
      }
    }
    if NoDup(t) {
      forall k | 0 <= k < |s| ensures s[k] != x {
        assert t[k + 1] == s[k] && t[0] == x;
        assert t[0] != t[k + 1];
      }
      forall i, j | 0 <= i < j < |s| ensures s[i] != s[j] {
        assert t[i + 1] == s[i] && t[j + 1] == s[j];
      }
    }
  }

  lemma NoDupSnoc<T>(s: seq<T>, x: T)
    ensures NoDup(s + [x]) <==> x !in s && NoDup(s)
  {
    var t := s + [x];
    if NoDup(t) {
      forall k | 0 <= k < |s| ensures s[k] != x {
        assert t[k] == s[k] && t[|s|] == x;
        assert t[k] != t[|s|];
      }
      forall i, j | 0 <= i < j < |s| ensures s[i] != s[j] {
        assert t[i] == s[i] && t[j] == s[j];
      }
    }
  }

  /** Filtering a sequence without repetitions gives one without repetitions. */
  lemma {:induction false} FilterNoDup<T(!new)>(s: seq<T>, p: T -> bool)
    ensures NoDup(s) ==> NoDup(Filter(s, p))
  {
    if s != [] && NoDup(s) {
      assert s == [s[0]] + s[1..];
      NoDupCons(s[0], s[1..]);
      FilterNoDup(s[1..], p);
      if p(s[0]) {
        NoDupCons(s[0], Filter(s[1..], p));
      }
    }
  }

  /** `new Set(s).size` never exceeds `s.length`, and equals it exactly when `s` has no repetitions. */
  lemma {:induction false} DistinctCount<T>(s: seq<T>)
    ensures |Elems(s)| <= |s|
    ensures |Elems(s)| == |s| <==> NoDup(s)
  {
    if s == [] {
      assert Elems(s) == {};
    } else {
      var rest := s[1..];
      assert s == [s[0]] + rest;
      DistinctCount(rest);
      NoDupCons(s[0], rest);
      if s[0] in rest {
        assert Elems(s) == Elems(rest);
      } else {
        assert Elems(s) == {s[0]} + Elems(rest);
        assert s[0] !in Elems(rest);
      }
    }
  }
}
