/** Order-preserving selection and a stable descending sort over sequences:
    the two shapes every dataframe view of the analyzer is built from
    (boolean-mask indexing and `sort_values` / `nlargest`). */
module Seqs {
  import opened Wrappers

  /** `a` is `b` with some elements dropped and the rest left in order. */
  ghost predicate SubsequenceOf<T>(a: seq<T>, b: seq<T>)
    decreases |b|
  {
    |a| == 0
    || (|b| > 0
        && ((a[0] == b[0] && SubsequenceOf(a[1..], b[1..])) || SubsequenceOf(a, b[1..])))
  }

  lemma {:induction false} SubsequenceRefl<T>(a: seq<T>)
    ensures SubsequenceOf(a, a)
    decreases |a|
  {
    if |a| > 0 {
      SubsequenceRefl(a[1..]);
    }
  }

  /** Dropping elements twice is dropping elements once. */
  lemma {:induction false} SubsequenceTrans<T>(a: seq<T>, b: seq<T>, c: seq<T>)
    requires SubsequenceOf(a, b) && SubsequenceOf(b, c)
    ensures SubsequenceOf(a, c)
    decreases |c|
  {
    if |a| == 0 {
    } else if b[0] == c[0] && SubsequenceOf(b[1..], c[1..]) {
      if a[0] == b[0] && SubsequenceOf(a[1..], b[1..]) {
        SubsequenceTrans(a[1..], b[1..], c[1..]);
      } else {
        SubsequenceTrans(a, b[1..], c[1..]);
      }
    } else {
      SubsequenceTrans(a, b, c[1..]);
    }
  }

  /** No element occurs twice. */
  ghost predicate NoDup<T>(s: seq<T>) {
    forall i, j :: 0 <= i < j < |s| ==> s[i] != s[j]
  }

  lemma {:induction false} NoDupCount<T>(s: seq<T>, x: T)
    requires NoDup(s)
    ensures multiset(s)[x] <= 1
    decreases |s|
  {
    if |s| > 0 {
      assert s == [s[0]] + s[1..];
      assert NoDup(s[1..]) by {
        forall i, j | 0 <= i < j < |s[1..]|
          ensures s[1..][i] != s[1..][j]
        {
          assert s[1..][i] == s[i + 1] && s[1..][j] == s[j + 1];
        }
      }
      NoDupCount(s[1..], x);
      if s[0] == x {
        assert x !in s[1..] by {
          forall k | 0 <= k < |s[1..]|
            ensures s[1..][k] != x
          {
            assert s[1..][k] == s[k + 1];
          }
        }
      }
    }
  }

  /** A permutation of a sequence without repeats has no repeats. */
  lemma NoDupPermutation<T>(a: seq<T>, b: seq<T>)
    requires NoDup(a)
    requires multiset(a) == multiset(b)
    ensures NoDup(b)
  {
    forall i, j | 0 <= i < j < |b|
      ensures b[i] != b[j]
    {
      if b[i] == b[j] {
        assert b == b[..j] + b[j..];
        assert b[i] in b[..j];
        assert b[j] in b[j..];
        assert multiset(b)[b[i]] == multiset(b[..j])[b[i]] + multiset(b[j..])[b[i]];
        NoDupCount(a, b[i]);
        assert false;
      }
    }
  }

  /** The elements of `s` satisfying `p`, in their original order
      (a boolean mask applied to a dataframe). */
  function Where<T(!new)>(s: seq<T>, p: T -> bool): (r: seq<T>)
    ensures |r| <= |s|
    ensures forall x :: x in r <==> x in s && p(x)
    ensures forall x :: multiset(r)[x] == if p(x) then multiset(s)[x] else 0
    ensures SubsequenceOf(r, s)
    decreases |s|
  {
    if |s| == 0 then []
    else
      var rest := Where(s[1..], p);
      assert s == [s[0]] + s[1..];
      if p(s[0]) then [s[0]] + rest else rest
  }

  /** The mask over a non-empty sequence: the head if it passes, then the
      mask over the tail. */
  lemma WhereCons<T(!new)>(s: seq<T>, p: T -> bool)
    requires |s| > 0
    ensures Where(s, p) == (if p(s[0]) then [s[0]] else []) + Where(s[1..], p)
  {
  }

  /** `s` is ordered non-increasingly by `key`. */
  predicate SortedDesc<T>(s: seq<T>, key: T -> real) {
    forall i, j :: 0 <= i < j < |s| ==> key(s[i]) >= key(s[j])
  }

  /** Insert `x` before the first element whose key is not larger than its
      own, so `x` goes in front of the elements it ties with. */
  function InsertDesc<T(!new)>(x: T, s: seq<T>, key: T -> real): (r: seq<T>)
    requires SortedDesc(s, key)
    ensures multiset(r) == multiset(s) + multiset{x}
    ensures forall y :: y in r <==> y == x || y in s
    ensures SortedDesc(r, key)
    decreases |s|
  {
    if |s| == 0 || key(x) >= key(s[0]) then [x] + s
    else
      var rest := InsertDesc(x, s[1..], key);
      assert s == [s[0]] + s[1..];
      assert forall y :: y in rest ==> key(s[0]) >= key(y) by {
        forall y | y in rest
          ensures key(s[0]) >= key(y)
        {
          if y != x {
            var k :| 0 <= k < |s[1..]| && s[1..][k] == y;
            assert s[k + 1] == y;
          }
        }
      }
      LeadSorted(s[0], rest, key);
      [s[0]] + rest
  }

  /** Putting an element in front of a sorted sequence whose keys are all at
      most its own keeps it sorted. */
  lemma LeadSorted<T>(x: T, s: seq<T>, key: T -> real)
    requires SortedDesc(s, key)
    requires forall y :: y in s ==> key(x) >= key(y)
    ensures SortedDesc([x] + s, key)
  {
    var r := [x] + s;
    forall i, j | 0 <= i < j < |r|
      ensures key(r[i]) >= key(r[j])
    {
      assert r[j] == s[j - 1];
      if i > 0 {
        assert r[i] == s[i - 1];
      }
    }
  }

  /** Insertion sort, non-increasing by `key`. It is stable because the head
      `s[0]` is inserted last, in front of any later element it ties with. */
  function SortDesc<T(!new)>(s: seq<T>, key: T -> real): (r: seq<T>)
    ensures multiset(r) == multiset(s)
    ensures |r| == |s|
    ensures SortedDesc(r, key)
    decreases |s|
  {
    if |s| == 0 then []
    else
      assert s == [s[0]] + s[1..];
      InsertDesc(s[0], SortDesc(s[1..], key), key)
  }

  /** In a sorted sequence, whatever is left out of a prefix has a key no
      larger than anything in the prefix. */
  lemma PrefixDominates<T>(s: seq<T>, k: int, key: T -> real)
    requires SortedDesc(s, key)
    requires 0 <= k <= |s|
    ensures multiset(s[..k]) <= multiset(s)
    ensures forall x, y :: x in s[..k] && multiset(s[..k])[y] < multiset(s)[y] ==> key(y) <= key(x)
  {
    assert s == s[..k] + s[k..];
    forall x, y | x in s[..k] && multiset(s[..k])[y] < multiset(s)[y]
      ensures key(y) <= key(x)
    {
      assert multiset(s) == multiset(s[..k]) + multiset(s[k..]);
      assert y in multiset(s[k..]);
      var t :| 0 <= t < |s[k..]| && s[k..][t] == y;
      assert s[k + t] == y;
      var i :| 0 <= i < k && s[..k][i] == x;
      assert s[i] == x;
    }
  }

  /** Sum of an integer measure over a sequence. */
  function SumOf<T>(s: seq<T>, f: T -> int): int
    decreases |s|
  {
    if |s| == 0 then 0 else f(s[0]) + SumOf(s[1..], f)
  }

  lemma {:induction false} SumOfInsert<T(!new)>(x: T, s: seq<T>, key: T -> real, f: T -> int)
    requires SortedDesc(s, key)
    ensures SumOf(InsertDesc(x, s, key), f) == f(x) + SumOf(s, f)
    decreases |s|
  {
    if |s| == 0 || key(x) >= key(s[0]) {
      assert ([x] + s)[1..] == s;
    } else {
      SumOfInsert(x, s[1..], key, f);
      var r := InsertDesc(x, s, key);
      assert r[1..] == InsertDesc(x, s[1..], key);
    }
  }

  /** Sorting does not change a total. */
  lemma {:induction false} SumOfSort<T(!new)>(s: seq<T>, key: T -> real, f: T -> int)
    ensures SumOf(SortDesc(s, key), f) == SumOf(s, f)
    decreases |s|
  {
    if |s| > 0 {
      SumOfSort(s[1..], key, f);
      SumOfInsert(s[0], SortDesc(s[1..], key), key, f);
    }
  }

  /** The rows for which `val` is present (the rows `nlargest` ranks before
      the NaN rows). */
  function HasValue<T>(val: T -> Option<real>): T -> bool {
    x => val(x).Some?
  }

  function Key<T>(val: T -> Option<real>): T -> real {
    x => val(x).GetOr(0.0)
  }

  function Present<T(!new)>(s: seq<T>, val: T -> Option<real>): seq<T> {
    Where(s, HasValue(val))
  }

  /** The present elements, largest value first, earlier ones first on ties. */
  function Ranked<T(!new)>(s: seq<T>, val: T -> Option<real>): seq<T> {
    SortDesc(Present(s, val), Key(val))
  }

  lemma RankedFacts<T(!new)>(s: seq<T>, val: T -> Option<real>)
    ensures |Ranked(s, val)| == |Present(s, val)|
    ensures multiset(Ranked(s, val)) <= multiset(s)
    ensures forall i :: 0 <= i < |Ranked(s, val)| ==> val(Ranked(s, val)[i]).Some?
    ensures forall i, j :: 0 <= i < j < |Ranked(s, val)| ==>
      val(Ranked(s, val)[i]).value >= val(Ranked(s, val)[j]).value
  {
    var sorted := Ranked(s, val);
    var valid := Present(s, val);
    forall x | x in sorted
      ensures val(x).Some?
    {
      assert x in multiset(valid);
    }
    forall x | x in multiset(valid)
      ensures multiset(valid)[x] <= multiset(s)[x]
    {
    }
    forall i, j | 0 <= i < j < |sorted|
      ensures val(sorted[i]).value >= val(sorted[j]).value
    {
      assert Key(val)(sorted[i]) >= Key(val)(sorted[j]);
    }
  }

  lemma RankedPrefixDominates<T(!new)>(s: seq<T>, val: T -> Option<real>, k: int, res: seq<T>)
    requires 0 <= k <= |Present(s, val)|
    requires res == Ranked(s, val)[..k]
    requires forall i :: 0 <= i < |res| ==> val(res[i]).Some?
    ensures multiset(res) <= multiset(s)
    ensures forall i, y ::
      0 <= i < |res| && y in s && val(y).Some? && multiset(res)[y] < multiset(s)[y]
      ==> val(y).value <= val(res[i]).value
  {
    var sorted := Ranked(s, val);
    var valid := Present(s, val);
    RankedFacts(s, val);
    PrefixDominates(sorted, k, Key(val));
    forall i, y |
      0 <= i < |res| && y in s && val(y).Some? && multiset(res)[y] < multiset(s)[y]
      ensures val(y).value <= val(res[i]).value
    {
      assert multiset(valid)[y] == multiset(s)[y];
      assert res[i] == sorted[i];
      assert Key(val)(y) <= Key(val)(sorted[i]);
    }
  }

  lemma LargestFacts<T(!new)>(s: seq<T>, val: T -> Option<real>, k: int, res: seq<T>)
    requires 0 <= k <= |Present(s, val)|
    requires res == Ranked(s, val)[..k]
    ensures |res| == k
    ensures multiset(res) <= multiset(s)
    ensures forall i :: 0 <= i < |res| ==> val(res[i]).Some?
    ensures forall i, j :: 0 <= i < j < |res| ==> val(res[i]).value >= val(res[j]).value
    ensures forall i, y ::
      0 <= i < |res| && y in s && val(y).Some? && multiset(res)[y] < multiset(s)[y]
      ==> val(y).value <= val(res[i]).value
  {
    var ranked := Ranked(s, val);
    RankedFacts(s, val);
    assert forall i :: 0 <= i < |res| ==> res[i] == ranked[i];
    RankedPrefixDominates(s, val, k, res);
  }

  /** The rows for which `val` is missing, in their original order. */
  function Lacking<T>(val: T -> Option<real>): T -> bool {
    x => val(x).None?
  }

  function Missing<T(!new)>(s: seq<T>, val: T -> Option<real>): seq<T> {
    Where(s, Lacking(val))
  }

  /** Every row either has a value or lacks one, so the two masks split the
      rows between them. */
  lemma {:induction false} PresentMissingSplit<T(!new)>(s: seq<T>, val: T -> Option<real>)
    ensures multiset(Present(s, val)) + multiset(Missing(s, val)) == multiset(s)
    ensures |Present(s, val)| + |Missing(s, val)| == |s|
  {
    var a, b := Present(s, val), Missing(s, val);
    forall x
      ensures (multiset(a) + multiset(b))[x] == multiset(s)[x]
    {
      assert HasValue(val)(x) != Lacking(val)(x);
    }
    assert multiset(a) + multiset(b) == multiset(s);
    assert |multiset(a) + multiset(b)| == |multiset(a)| + |multiset(b)|;
  }

  /** The order `nlargest` draws from: the ranked rows, then the rows
      without a value. */
  function RankedThenMissing<T(!new)>(s: seq<T>, val: T -> Option<real>): (r: seq<T>)
    ensures |r| == |s|
    ensures multiset(r) == multiset(s)
  {
    PresentMissingSplit(s, val);
    RankedFacts(s, val);
    Ranked(s, val) + Missing(s, val)
  }

  /** Past the ranked rows, every copy of a row with a value is taken. */
  lemma TailKeepsPresent<T(!new)>(s: seq<T>, val: T -> Option<real>, k: int, res: seq<T>)
    requires |Present(s, val)| <= k <= |s|
    requires res == RankedThenMissing(s, val)[..k]
    ensures multiset(res) <= multiset(s)
    ensures forall y :: val(y).Some? ==> multiset(res)[y] == multiset(s)[y]
  {
    var ranked, missing := Ranked(s, val), Missing(s, val);
    PresentMissingSplit(s, val);
    assert multiset(ranked) == multiset(Present(s, val));
    PrefixOfConcat(ranked, missing, k);
    forall y | val(y).Some?
      ensures multiset(res)[y] == multiset(s)[y]
    {
      assert multiset(missing)[y] == 0;
    }
  }

  /** A prefix reaching past `a` in `a + b` is `a` and part of `b`. */
  lemma PrefixOfConcat<T>(a: seq<T>, b: seq<T>, k: int)
    requires |a| <= k <= |a| + |b|
    ensures multiset((a + b)[..k]) == multiset(a) + multiset(b[..k - |a|])
    ensures multiset(b[..k - |a|]) <= multiset(b)
  {
    assert (a + b)[..k] == a + b[..k - |a|];
    assert b == b[..k - |a|] + b[k - |a|..];
  }

  /** Past the ranked rows, every row is one without a value. */
  lemma TailLacks<T(!new)>(s: seq<T>, val: T -> Option<real>, k: int, res: seq<T>)
    requires |Present(s, val)| <= k <= |s|
    requires res == RankedThenMissing(s, val)[..k]
    ensures forall i :: 0 <= i < |res| ==> (val(res[i]).Some? <==> i < |Present(s, val)|)
    ensures forall i :: 0 <= i < |Present(s, val)| ==> res[i] == Ranked(s, val)[i]
  {
    var ranked, missing := Ranked(s, val), Missing(s, val);
    RankedFacts(s, val);
    forall i | 0 <= i < |res|
      ensures val(res[i]).Some? <==> i < |ranked|
    {
      if i >= |ranked| {
        assert res[i] == missing[i - |ranked|];
        assert res[i] in missing;
      }
    }
  }

  /** `ranked + missing[..k - |ranked|]`, with `k` past the ranked rows:
      every ranked copy is there, so no row with a value is left out. */
  lemma LargestTail<T(!new)>(s: seq<T>, val: T -> Option<real>, k: int, res: seq<T>)
    requires |Present(s, val)| <= k <= |s|
    requires res == RankedThenMissing(s, val)[..k]
    ensures |res| == k
    ensures multiset(res) <= multiset(s)
    ensures forall i, j :: 0 <= i < j < |res| && val(res[j]).Some? ==>
      val(res[i]).Some? && val(res[i]).value >= val(res[j]).value
    ensures forall y :: val(y).Some? ==> multiset(res)[y] == multiset(s)[y]
  {
    var ranked := Ranked(s, val);
    RankedFacts(s, val);
    TailKeepsPresent(s, val, k, res);
    TailLacks(s, val, k, res);
    forall i, j | 0 <= i < j < |res| && val(res[j]).Some?
      ensures val(res[i]).Some? && val(res[i]).value >= val(res[j]).value
    {
      assert res[i] == ranked[i] && res[j] == ranked[j];
    }
  }

  /** Either cut of the ranked rows followed by the missing ones. */
  lemma LargestCut<T(!new)>(s: seq<T>, val: T -> Option<real>, k: int, res: seq<T>)
    requires 0 <= k <= |s|
    requires res == RankedThenMissing(s, val)[..k]
    ensures |res| == k
    ensures multiset(res) <= multiset(s)
    ensures forall i, j :: 0 <= i < j < |res| && val(res[j]).Some? ==>
      val(res[i]).Some? && val(res[i]).value >= val(res[j]).value
    ensures forall i, y ::
      0 <= i < |res| && y in s && val(y).Some? && multiset(res)[y] < multiset(s)[y]
      ==> val(res[i]).Some? && val(y).value <= val(res[i]).value
  {
    RankedFacts(s, val);
    if k <= |Present(s, val)| {
      assert res == Ranked(s, val)[..k];
      LargestFacts(s, val, k, res);
    } else {
      LargestTail(s, val, k, res);
    }
  }

  /** `nlargest(n)` over the values `val`: the `n` rows with the largest
      value (none when `n <= 0`), largest first, and when fewer than `n`
      rows have a value, the rows without one after them in their original
      order. Every row returned comes from `s`, and no row with a value that
      is left out has a larger value than any row returned. */
  function Largest<T(!new)>(s: seq<T>, val: T -> Option<real>, n: int): (res: seq<T>)
    ensures |res| == if n <= 0 then 0 else if n < |s| then n else |s|
    ensures multiset(res) <= multiset(s)
    ensures forall i, j :: 0 <= i < j < |res| && val(res[j]).Some? ==>
      val(res[i]).Some? && val(res[i]).value >= val(res[j]).value
    ensures forall i, y ::
      0 <= i < |res| && y in s && val(y).Some? && multiset(res)[y] < multiset(s)[y]
      ==> val(res[i]).Some? && val(y).value <= val(res[i]).value
  {
    var k := if n <= 0 then 0 else if n < |s| then n else |s|;
    var res := RankedThenMissing(s, val)[..k];
    LargestCut(s, val, k, res);
    res
  }

  /** A column holding 10 and NaN, asked for its 10 largest: both rows come
      back, the NaN row last. */
  lemma MissingLastExample()
    ensures Largest([Some(10.0), None], (x: Option<real>) => x, 10) == [Some(10.0), None]
  {
    var s: seq<Option<real>> := [Some(10.0), None];
    var res := Largest(s, x => x, 10);
    assert |res| == 2;
    assert res[1].Some? ==> res[0].Some?;
    PresentFirstPair(res, multiset(s));
  }

  /** Two rows drawn from {10, NaN}, with a present row never behind a
      missing one, are 10 then NaN. */
  lemma PresentFirstPair(res: seq<Option<real>>, m: multiset<Option<real>>)
    requires m == multiset{Some(10.0), None}
    requires |res| == 2
    requires multiset(res) <= m
    requires res[1].Some? ==> res[0].Some?
    ensures res == [Some(10.0), None]
  {
    MultisetSubEqual(multiset(res), m);
    var x, y := res[0], res[1];
    assert res == [x, y];
    assert multiset{x, y} == m;
  }

  /** A sub-multiset as large as its super-multiset is equal to it. */
  lemma MultisetSubEqual<T>(a: multiset<T>, b: multiset<T>)
    requires a <= b
    requires |a| == |b|
    ensures a == b
  {
    var d := b - a;
    assert b == a + d;
    assert |d| == 0;
  }
}
