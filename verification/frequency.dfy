/** Frequency tables and modes: the pandas `value_counts()`, `mode()` and
    `value_counts().idxmax()` the statistics passes are built from, with the
    tie-breaking rules stated explicitly. */
module Frequency {
  import opened Wrappers
  import opened Orders
  import opened Seqs

  /** Number of occurrences of `x` in `s`. */
  function Count<T(==)>(s: seq<T>, x: T): nat {
    multiset(s)[x]
  }

  /** `x` is at least as good a choice of mode as `y`: it occurs more often,
      or as often and does not come after `y` in the order `le`. */
  predicate Beats<T(==)>(s: seq<T>, le: (T, T) -> bool, x: T, y: T) {
    Count(s, y) < Count(s, x) || (Count(s, y) == Count(s, x) && le(x, y))
  }

  /** `x` is the reported mode of `s`: it occurs in `s`, no value occurs more
      often, and it is the least of the values that occur as often. */
  ghost predicate IsMode<T>(s: seq<T>, le: (T, T) -> bool, x: T) {
    && x in s
    && (forall y :: y in s ==> Count(s, y) <= Count(s, x))
    && (forall y :: y in s && Count(s, y) == Count(s, x) ==> le(x, y))
  }

  lemma BeatsTransitive<T(!new)>(s: seq<T>, le: (T, T) -> bool, x: T, y: T, z: T)
    requires TotalOrder(le)
    requires Beats(s, le, x, y) && Beats(s, le, y, z)
    ensures Beats(s, le, x, z)
  {
  }

  /** One pass over `s` from position `i`, keeping the best candidate so far. */
  function ModeScan<T(==,!new)>(s: seq<T>, le: (T, T) -> bool, i: nat, best: T): (r: T)
    requires TotalOrder(le)
    requires i <= |s| && best in s
    requires forall k :: 0 <= k < i ==> Beats(s, le, best, s[k])
    ensures r in s
    ensures forall k :: 0 <= k < |s| ==> Beats(s, le, r, s[k])
    decreases |s| - i
  {
    if i == |s| then best
    else if Beats(s, le, s[i], best) then
      assert forall k :: 0 <= k < i ==> Beats(s, le, s[i], s[k]) by {
        forall k | 0 <= k < i
          ensures Beats(s, le, s[i], s[k])
        {
          BeatsTransitive(s, le, s[i], best, s[k]);
        }
      }
      ModeScan(s, le, i + 1, s[i])
    else
      ModeScan(s, le, i + 1, best)
  }

  lemma BeatingAllIsMode<T(!new)>(s: seq<T>, le: (T, T) -> bool, x: T)
    requires x in s
    requires forall k :: 0 <= k < |s| ==> Beats(s, le, x, s[k])
    ensures IsMode(s, le, x)
  {
    forall y | y in s
      ensures Beats(s, le, x, y)
    {
      var k :| 0 <= k < |s| && s[k] == y;
    }
  }

  /** `Series.mode()[0]`: pandas lists every most frequent value in ascending
      order and `[0]` takes the first. None stands for an empty column, on which
      the program raises instead. */
  function Mode<T(==,!new)>(s: seq<T>, le: (T, T) -> bool): (r: Option<T>)
    requires TotalOrder(le)
    ensures r.None? <==> |s| == 0
    ensures r.Some? ==> IsMode(s, le, r.value)
  {
    if |s| == 0 then None
    else
      var m := ModeScan(s, le, 1, s[0]);
      BeatingAllIsMode(s, le, m);
      Some(m)
  }

  /** The mode is determined by its definition: `Mode` reports a value exactly
      when that value is a mode in the sense of `IsMode`. */
  lemma ModeIsUnique<T(!new)>(s: seq<T>, le: (T, T) -> bool, x: T)
    requires TotalOrder(le)
    ensures Mode(s, le) == Some(x) <==> IsMode(s, le, x)
  {
    if IsMode(s, le, x) {
      var m := Mode(s, le).value;
      assert Count(s, m) == Count(s, x);
      assert le(m, x) && le(x, m);
    }
  }

  /** The mode depends only on how often each value occurs, not on row order. */
  lemma ModeIgnoresOrder<T(!new)>(s: seq<T>, t: seq<T>, le: (T, T) -> bool)
    requires TotalOrder(le)
    requires multiset(s) == multiset(t)
    ensures Mode(s, le) == Mode(t, le)
  {
    assert |s| == |multiset(s)| == |t|;
    if |s| > 0 {
      var m := Mode(s, le).value;
      assert forall y :: y in s <==> y in t by {
        forall y
          ensures y in s <==> y in t
        {
          assert y in s <==> y in multiset(s);
          assert y in t <==> y in multiset(t);
        }
      }
      assert IsMode(t, le, m);
      ModeIsUnique(t, le, m);
    }
  }

  /** Every value of `s` that no other value outnumbers: what `Series.mode()`
      returns before a single element is picked from it. */
  function AllModes<T(==,!new)>(s: seq<T>): (r: set<T>)
    ensures |s| > 0 ==> r != {}
    ensures forall x :: x in r ==> x in s
    ensures forall x, y :: x in r && y in r ==> Count(s, x) == Count(s, y)
    ensures forall x :: x in r <==> x in s && forall y :: y in s ==> Count(s, y) <= Count(s, x)
  {
    var r := set x | x in s && (forall y :: y in s ==> Count(s, y) <= Count(s, x));
    if |s| > 0 then
      var c := seq(|s|, i requires 0 <= i < |s| => Count(s, s[i]));
      var m := Max(c);
      var k :| 0 <= k < |c| && c[k] == m;
      assert forall y :: y in s ==> Count(s, y) <= m by {
        forall y | y in s
          ensures Count(s, y) <= m
        {
          var j :| 0 <= j < |s| && s[j] == y;
          assert c[j] in c;
        }
      }
      assert s[k] in r;
      r
    else
      r
  }

  /** The reported mode is one of the values `Series.mode()` lists. */
  lemma ModeIsAmongAllModes<T(!new)>(s: seq<T>, le: (T, T) -> bool)
    requires TotalOrder(le)
    requires |s| > 0
    ensures Mode(s, le).Some? && Mode(s, le).value in AllModes(s)
    ensures forall x :: x in AllModes(s) ==> le(Mode(s, le).value, x)
  {
  }

  /** One pass keeping the first value seen among those occurring most often. */
  function FirstModeScan<T(==)>(s: seq<T>, i: nat, best: T): (r: T)
    requires 0 < i <= |s| && best in s && IndexOf(s, best) < i
    requires forall k :: 0 <= k < i ==> Count(s, s[k]) <= Count(s, best)
    requires forall k :: 0 <= k < i && Count(s, s[k]) == Count(s, best) ==> IndexOf(s, best) <= k
    ensures r in s
    ensures forall k :: 0 <= k < |s| ==> Count(s, s[k]) <= Count(s, r)
    ensures forall k :: 0 <= k < |s| && Count(s, s[k]) == Count(s, r) ==> IndexOf(s, r) <= k
    decreases |s| - i
  {
    if i == |s| then best
    else if Count(s, best) < Count(s, s[i]) then
      assert IndexOf(s, s[i]) <= i;
      FirstModeScan(s, i + 1, s[i])
    else FirstModeScan(s, i + 1, best)
  }

  /** `Series.value_counts().idxmax()`: a most frequent value; among equally
      frequent ones, the one whose first occurrence comes first. None stands for
      an empty column. */
  function FirstMode<T(==)>(s: seq<T>): (r: Option<T>)
    ensures r.None? <==> |s| == 0
    ensures r.Some? ==> r.value in s
    ensures r.Some? ==> forall y :: y in s ==> Count(s, y) <= Count(s, r.value)
    ensures r.Some? ==> forall k :: 0 <= k < |s| && Count(s, s[k]) == Count(s, r.value) ==> IndexOf(s, r.value) <= k
  {
    if |s| == 0 then None
    else
      var m := FirstModeScan(s, 1, s[0]);
      assert forall y :: y in s ==> Count(s, y) <= Count(s, m) by {
        forall y | y in s
          ensures Count(s, y) <= Count(s, m)
        {
          var k :| 0 <= k < |s| && s[k] == y;
        }
      }
      Some(m)
  }

  /** The values of a frequency table, in table order. */
  function Keys<T>(t: seq<(T, nat)>): (ks: seq<T>)
    ensures |ks| == |t|
    ensures forall i :: 0 <= i < |t| ==> ks[i] == t[i].0
  {
    seq(|t|, i requires 0 <= i < |t| => t[i].0)
  }

  predicate Distinct<T(==)>(s: seq<T>) {
    forall i, j :: 0 <= i < j < |s| ==> s[i] != s[j]
  }

  /** `Series.value_counts()`: one entry per distinct value of `s`, holding the
      number of times it occurs. Entries are listed in order of first occurrence
      (pandas lists entries by descending count; the program only prints them). */
  function Tally<T(==)>(s: seq<T>): (t: seq<(T, nat)>)
    ensures Distinct(Keys(t))
    ensures forall i :: 0 <= i < |s| ==> s[i] in Keys(t)
    ensures forall i :: 0 <= i < |t| ==> t[i].0 in s && t[i].1 == Count(s, t[i].0)
    decreases |s|
  {
    if |s| == 0 then []
    else
      var t' := Tally(Without(s[1..], s[0]));
      TallyStep(s, t');
      [(s[0], Count(s, s[0]))] + t'
  }

  /** The facts `Tally` promises for `s`, given those it promises for `s` with
      its first value removed. */
  lemma TallyStep<T>(s: seq<T>, t': seq<(T, nat)>)
    requires |s| > 0
    requires Distinct(Keys(t'))
    requires forall i :: 0 <= i < |Without(s[1..], s[0])| ==> Without(s[1..], s[0])[i] in Keys(t')
    requires forall i :: 0 <= i < |t'| ==> t'[i].0 in Without(s[1..], s[0]) && t'[i].1 == Count(Without(s[1..], s[0]), t'[i].0)
    ensures Distinct(Keys([(s[0], Count(s, s[0]))] + t'))
    ensures forall i :: 0 <= i < |s| ==> s[i] in Keys([(s[0], Count(s, s[0]))] + t')
    ensures forall i :: 0 <= i < |t'| + 1 ==> ([(s[0], Count(s, s[0]))] + t')[i].0 in s
    ensures forall i :: 0 <= i < |t'| + 1 ==> ([(s[0], Count(s, s[0]))] + t')[i].1 == Count(s, ([(s[0], Count(s, s[0]))] + t')[i].0)
  {
    var x := s[0];
    var rest := Without(s[1..], x);
    var t := [(x, Count(s, x))] + t';
    assert s == [x] + s[1..];
    assert Keys(t) == [x] + Keys(t');
    forall i | 0 <= i < |t'|
      ensures t'[i].0 != x && t'[i].0 in s[1..]
      ensures t'[i].1 == Count(s, t'[i].0)
    {
      assert t'[i].0 in multiset(rest);
    }
    forall i | 0 <= i < |s|
      ensures s[i] in Keys(t)
    {
      if s[i] != x {
        assert s[i] in multiset(rest);
        var j :| 0 <= j < |rest| && rest[j] == s[i];
      }
    }
  }

  function SumCounts<T>(t: seq<(T, nat)>): nat {
    if |t| == 0 then 0 else t[0].1 + SumCounts(t[1..])
  }

  /** The counts of a frequency table add up to the length of the column. */
  lemma {:induction false} TallyTotal<T>(s: seq<T>)
    ensures SumCounts(Tally(s)) == |s|
    decreases |s|
  {
    if |s| > 0 {
      var x := s[0];
      var rest := Without(s[1..], x);
      TallyTotal(rest);
      assert s == [x] + s[1..];
      assert Tally(s)[1..] == Tally(rest);
    }
  }
}
