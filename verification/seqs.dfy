/** Sequence operations behind the column manipulations of the program:
    boolean-mask row selection, dropping missing cells, `list.index`,
    and the `sum` / `min` / `max` reductions. */
module Seqs {
  import opened Wrappers

  /** The elements of `s` that satisfy `p`, in their original order (`df[mask]`). */
  function Keep<T>(s: seq<T>, p: T -> bool): (r: seq<T>)
    ensures |r| <= |s|
    ensures forall i :: 0 <= i < |r| ==> r[i] in s && p(r[i])
    ensures forall i :: 0 <= i < |s| && p(s[i]) ==> s[i] in r
  {
    if |s| == 0 then []
    else if p(s[0]) then [s[0]] + Keep(s[1..], p)
    else Keep(s[1..], p)
  }

  /** `a` can be obtained from `b` by deleting elements. */
  predicate IsSubsequence<T(==)>(a: seq<T>, b: seq<T>)
    decreases |b|
  {
    |a| == 0 || (|b| > 0 && ((a[0] == b[0] && IsSubsequence(a[1..], b[1..])) || IsSubsequence(a, b[1..])))
  }

  /** Selection neither adds nor alters elements and keeps their order. */
  lemma {:induction false} KeepIsSubsequence<T>(s: seq<T>, p: T -> bool)
    ensures IsSubsequence(Keep(s, p), s)
  {
    if |s| > 0 {
      KeepIsSubsequence(s[1..], p);
      if p(s[0]) {
        assert Keep(s, p)[1..] == Keep(s[1..], p);
      }
    }
  }

  lemma {:induction false} SubsequenceReflexive<T>(s: seq<T>)
    ensures IsSubsequence(s, s)
  {
    if |s| > 0 {
      SubsequenceReflexive(s[1..]);
    }
  }

  lemma {:induction false} SubsequenceTransitive<T>(a: seq<T>, b: seq<T>, c: seq<T>)
    requires IsSubsequence(a, b) && IsSubsequence(b, c)
    ensures IsSubsequence(a, c)
    decreases |c|
  {
    if |a| > 0 {
      if IsSubsequence(b, c[1..]) {
        SubsequenceTransitive(a, b, c[1..]);
      } else if a[0] == b[0] && IsSubsequence(a[1..], b[1..]) {
        SubsequenceTransitive(a[1..], b[1..], c[1..]);
      } else {
        SubsequenceTransitive(a, b[1..], c[1..]);
      }
    }
  }

  /** Every occurrence of a value that satisfies `p` is kept, and no other. */
  lemma {:induction false} KeepCount<T>(s: seq<T>, p: T -> bool, x: T)
    ensures multiset(Keep(s, p))[x] == if p(x) then multiset(s)[x] else 0
  {
    if |s| > 0 {
      KeepCount(s[1..], p, x);
      assert s == [s[0]] + s[1..];
    }
  }

  /** A condition that every element meets selects everything. */
  lemma {:induction false} KeepEverything<T>(s: seq<T>, p: T -> bool)
    requires forall x :: x in s ==> p(x)
    ensures Keep(s, p) == s
  {
    if |s| > 0 {
      KeepEverything(s[1..], p);
      assert s == [s[0]] + s[1..];
    }
  }

  /** Two selections can be applied in either order. */
  lemma {:induction false} KeepCommutes<T>(s: seq<T>, p: T -> bool, q: T -> bool)
    ensures Keep(Keep(s, p), q) == Keep(Keep(s, q), p)
  {
    if |s| > 0 {
      KeepCommutes(s[1..], p, q);
    }
  }

  /** Applying a selection a second time changes nothing. */
  lemma KeepIdempotent<T>(s: seq<T>, p: T -> bool)
    ensures Keep(Keep(s, p), p) == Keep(s, p)
  {
    KeepEverything(Keep(s, p), p);
  }

  /** `s` with every occurrence of `x` removed. */
  function Without<T(==)>(s: seq<T>, x: T): (r: seq<T>)
    ensures multiset(r) == multiset(s)[x := 0]
    ensures |r| + multiset(s)[x] == |s|
  {
    if |s| == 0 then []
    else
      assert s == [s[0]] + s[1..];
      if s[0] == x then Without(s[1..], x) else [s[0]] + Without(s[1..], x)
  }

  /** The non-missing cells of a column, in order (what pandas aggregations see
      after dropping NaN). */
  function Present<T>(col: seq<Option<T>>): (r: seq<T>)
    ensures |r| <= |col|
    ensures forall i :: 0 <= i < |r| ==> Some(r[i]) in col
    ensures forall i :: 0 <= i < |col| && col[i].Some? ==> col[i].value in r
  {
    if |col| == 0 then []
    else if col[0].Some? then [col[0].value] + Present(col[1..])
    else Present(col[1..])
  }

  /** A column with no missing cell loses nothing. */
  lemma {:induction false} PresentOfFullColumn<T>(col: seq<Option<T>>)
    requires forall i :: 0 <= i < |col| ==> col[i].Some?
    ensures |Present(col)| == |col|
  {
    if |col| > 0 {
      PresentOfFullColumn(col[1..]);
    }
  }

  /** Dropping missing cells keeps every present value as often as it occurs. */
  lemma {:induction false} PresentCount<T>(col: seq<Option<T>>, x: T)
    ensures multiset(Present(col))[x] == multiset(col)[Some(x)]
  {
    if |col| > 0 {
      PresentCount(col[1..], x);
      assert col == [col[0]] + col[1..];
    }
  }

  /** `s.index(x)`: the position of the first occurrence of `x`. */
  function IndexOf<T(==)>(s: seq<T>, x: T): (i: nat)
    requires x in s
    ensures i < |s| && s[i] == x
    ensures forall j :: 0 <= j < i ==> s[j] != x
  {
    if s[0] == x then 0 else 1 + IndexOf(s[1..], x)
  }

  function Sum(s: seq<nat>): nat {
    if |s| == 0 then 0 else s[0] + Sum(s[1..])
  }

  lemma {:induction false} SumConcat(a: seq<nat>, b: seq<nat>)
    ensures Sum(a + b) == Sum(a) + Sum(b)
  {
    if |a| > 0 {
      SumConcat(a[1..], b);
      assert (a + b)[0] == a[0];
      assert (a + b)[1..] == a[1..] + b;
    } else {
      assert a + b == b;
    }
  }

  function Min(s: seq<int>): (r: int)
    requires |s| > 0
    ensures r in s
    ensures forall x :: x in s ==> r <= x
  {
    if |s| == 1 then s[0]
    else
      var m := Min(s[1..]);
      assert s == [s[0]] + s[1..];
      if s[0] <= m then s[0] else m
  }

  function Max(s: seq<int>): (r: int)
    requires |s| > 0
    ensures r in s
    ensures forall x :: x in s ==> x <= r
  {
    if |s| == 1 then s[0]
    else
      var m := Max(s[1..]);
      assert s == [s[0]] + s[1..];
      if m <= s[0] then s[0] else m
  }

  /** `n` copies of `q` added up: `n * q`, kept recursive so that proofs about
      sums and means stay within linear arithmetic. */
  function Scale(n: nat, q: real): real {
    if n == 0 then 0.0 else q + Scale(n - 1, q)
  }

  lemma {:induction false} ScaleIsProduct(n: nat, q: real)
    ensures Scale(n, q) == n as real * q
  {
    if n > 0 {
      ScaleIsProduct(n - 1, q);
    }
  }

  lemma {:induction false} ScaleIsMonotone(n: nat, a: real, b: real)
    requires n > 0 && a < b
    ensures Scale(n, a) < Scale(n, b)
  {
    if n > 1 {
      ScaleIsMonotone(n - 1, a, b);
    }
  }

  /** A sum of `n` elements each at least `m` is at least `n` copies of `m`. */
  lemma {:induction false} SumAtLeast(s: seq<nat>, m: int)
    requires forall i :: 0 <= i < |s| ==> m <= s[i]
    ensures Scale(|s|, m as real) <= Sum(s) as real
  {
    if |s| > 0 {
      SumAtLeast(s[1..], m);
    }
  }

  /** A sum of `n` elements each at most `m` is at most `n` copies of `m`. */
  lemma {:induction false} SumAtMost(s: seq<nat>, m: int)
    requires forall i :: 0 <= i < |s| ==> s[i] <= m
    ensures Sum(s) as real <= Scale(|s|, m as real)
  {
    if |s| > 0 {
      SumAtMost(s[1..], m);
    }
  }

  /** A sum lies between `n` copies of the least element and `n` copies of the greatest. */
  lemma SumBetweenMinAndMax(s: seq<nat>)
    requires |s| > 0
    ensures Scale(|s|, Min(s) as real) <= Sum(s) as real <= Scale(|s|, Max(s) as real)
  {
    var lo, hi := Min(s), Max(s);
    assert forall i :: 0 <= i < |s| ==> lo <= s[i] <= hi by {
      forall i | 0 <= i < |s|
        ensures lo <= s[i] <= hi
      {
        assert s[i] in s;
      }
    }
    SumAtLeast(s, lo);
    SumAtMost(s, hi);
  }
}
