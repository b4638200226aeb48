/** Finite maps from indices: taking the first entries out and sliding the others. */
module SparseMaps {
  import opened Options

  lemma PutSize<T>(m: map<int, T>, i: int, v: T)
    ensures |m[i := v]| == if i in m then |m| else |m| + 1
  {
    assert m[i := v].Keys == m.Keys + {i};
    assert |m.Keys| == |m| && |m[i := v].Keys| == |m[i := v]|;
  }

  predicate NonNegative<T>(m: map<int, T>) { forall k :: k in m ==> k >= 0 }

  /** The indices below c. */
  ghost function Below<T>(m: map<int, T>, c: int): set<int> { set k | k in m && k < c }

  /** The entries from index c on. */
  ghost function From<T>(m: map<int, T>, c: int): map<int, T> { map k | k in m && k >= c :: m[k] }

  /** The entries up to index c. */
  ghost function Upto<T>(m: map<int, T>, c: int): map<int, T> { map k | k in m && k <= c :: m[k] }

  lemma UptoNext<T>(m: map<int, T>, c: int, next: int)
    requires next in m && c < next && forall k :: k in m ==> (k < next <==> k <= c)
    ensures Upto(m, next) == Upto(m, c)[next := m[next]]
  {
  }

  lemma UptoNone<T>(m: map<int, T>, c: int)
    requires forall k :: k in m ==> k > c
    ensures Upto(m, c) == map[]
  {
    var u := Upto(m, c);
    assert (forall k :: k !in u.Keys) ==> u.Keys == {};
  }

  lemma UptoAll<T>(m: map<int, T>, c: int)
    requires forall k :: k in m ==> k <= c
    ensures Upto(m, c) == m
  {
  }

  /** Every index moved by d. */
  ghost function Slide<T>(m: map<int, T>, d: int): map<int, T>
  {
    var keys := set k | k in m :: k + d;
    map j | j in keys :: m[j - d]
  }

  lemma SlideAt<T>(m: map<int, T>, d: int, k: int)
    ensures k in Slide(m, d) <==> k - d in m
    ensures k in Slide(m, d) ==> Slide(m, d)[k] == m[k - d]
  {
    assert k - d in m ==> (k - d) + d == k;
  }

  lemma SlideBack<T>(m: map<int, T>, d: int)
    ensures Slide(Slide(m, d), 0 - d) == m
  {
    hide Slide;
    var up := Slide(m, d);
    var back := Slide(up, 0 - d);
    forall k
      ensures (k in back <==> k in m) && (k in m ==> back[k] == m[k])
    {
      SlideAt(up, 0 - d, k);
      SlideAt(m, d, k + d);
    }
  }

  // ----- shifting elements out -----

  lemma {:induction false} FewBelow(s: set<int>, c: nat)
    requires forall k :: k in s ==> 0 <= k < c
    ensures |s| <= c
    decreases c
  {
    if c == 0 {
      assert (forall k :: k !in s) ==> s == {};
    } else {
      FewBelow(s - {c - 1}, c - 1);
    }
  }

  /** However sparse the array, an index with n indices below it is at least n: taking n
      elements out and lowering the others by n leaves no index negative. */
  lemma IndexAtLeastRank<T>(m: map<int, T>, c: int, n: nat)
    requires NonNegative(m) && c in m && |Below(m, c)| == n
    ensures c >= n && NonNegative(Slide(From(m, c), 0 - n))
  {
    FewBelow(Below(m, c), c);
    var r := Slide(From(m, c), 0 - n);
    forall k | k in r
      ensures k >= 0
    {
      SlideAt(From(m, c), 0 - n, k);
    }
  }

  lemma {:induction false} SlideSize<T>(m: map<int, T>, d: int)
    ensures |Slide(m, d)| == |m|
    decreases |m|
  {
    var r := Slide(m, d);
    assert |r.Keys| == |r| && |m.Keys| == |m|;
    SameSize(m.Keys, r.Keys, d) by {
      forall k ensures k in r.Keys <==> k - d in m.Keys { SlideAt(m, d, k); }
    }
  }

  lemma {:induction false} SameSize(s: set<int>, t: set<int>, d: int)
    requires forall k :: k in t <==> k - d in s
    ensures |s| == |t|
    decreases |s|
  {
    if s == {} {
      assert (forall k :: k !in t) ==> t == {};
    } else {
      assert (forall k :: k !in s) ==> s == {};
      var k :| k in s;
      assert k + d in t;
      SameSize(s - {k}, t - {k + d}, d);
    }
  }

  lemma SizeAfterCut<T>(m: map<int, T>, c: int, n: nat)
    requires c in m && |Below(m, c)| == n
    ensures |Slide(From(m, c), 0 - n)| == |m| - n > 0
  {
    SlideSize(From(m, c), 0 - n);
    var s, t := Below(m, c), From(m, c).Keys;
    assert s + t == m.Keys && s * t == {};
    assert |s + t| == |s| + |t|;
    assert |m.Keys| == |m| && |t| == |From(m, c)|;
    assert c in t;
  }

  /** What array_shift leaves of m: nothing if there are no more than n entries, and
      otherwise those from c on, the index with n others below it. */
  ghost predicate ShiftsTo<T>(m: map<int, T>, n: nat, r: map<int, T>)
  {
    if |m| <= n then r == map[] else exists c :: CutsTo(m, n, r, c)
  }

  ghost predicate CutsTo<T>(m: map<int, T>, n: nat, r: map<int, T>, c: int)
  {
    c in m && |Below(m, c)| == n && r == Slide(From(m, c), 0 - n)
  }

  /** The number of elements to take out determines where the cut is. */
  lemma CutIsUnique<T>(m: map<int, T>, c: int, d: int)
    requires c in m && d in m && |Below(m, c)| == |Below(m, d)|
    ensures c == d
  {
    if c < d {
      BelowGrows(m, c, d);
    } else if d < c {
      BelowGrows(m, d, c);
    }
  }

  lemma BelowGrows<T>(m: map<int, T>, c: int, d: int)
    requires c in m && c < d
    ensures |Below(m, c)| < |Below(m, d)|
  {
    SmallerSet(Below(m, c), Below(m, d), c);
  }

  lemma {:induction false} SmallerSet(s: set<int>, t: set<int>, c: int)
    requires s <= t && c in t && c !in s
    ensures |s| < |t|
    decreases |s|
  {
    if s != {} {
      assert (forall k :: k !in s) ==> s == {};
      var k :| k in s;
      SmallerSet(s - {k}, t - {k}, c);
    }
  }

  // ----- push and pop -----

  ghost function Pushed<T>(m: map<int, T>, v: T): map<int, T> { Slide(m, 1)[0 := v] }

  /** Popping undoes pushing, for every array, empty or sparse. */
  lemma PopUndoesPush<T>(m: map<int, T>, v: T, r: map<int, T>)
    requires NonNegative(m) && ShiftsTo(Pushed(m, v), 1, r)
    ensures r == m
  {
    hide Slide, Pushed;
    var p := Pushed(m, v);
    SlideBack(m, 1);
    if |p| <= 1 {
      PushedAlone(m, v);
    } else {
      var c :| CutsTo(p, 1, r, c);
      PushedCut(m, v, c);
    }
  }

  lemma UpPositive<T>(m: map<int, T>, v: T)
    requires NonNegative(m)
    ensures forall k :: k in Slide(m, 1) ==> k >= 1
    ensures NonNegative(Pushed(m, v)) && 0 in Pushed(m, v)
  {
    var up := Slide(m, 1);
    forall k | k in up
      ensures k >= 1
    {
      SlideAt(m, 1, k);
    }
  }

  lemma PushedAlone<T>(m: map<int, T>, v: T)
    requires NonNegative(m) && |Pushed(m, v)| <= 1
    ensures m == map[]
  {
    hide Slide;
    UpPositive(m, v);
    SizeOne(Pushed(m, v), 0);
    forall k
      ensures k !in m
    {
      SlideAt(m, 1, k + 1);
    }
  }

  lemma PushedCut<T>(m: map<int, T>, v: T, c: int)
    requires NonNegative(m) && c in Pushed(m, v) && |Below(Pushed(m, v), c)| == 1
    ensures From(Pushed(m, v), c) == Slide(m, 1)
  {
    hide Slide;
    UpPositive(m, v);
    var p, up := Pushed(m, v), Slide(m, 1);
    OnlyZeroBelow(p, c);
    var f := From(p, c);
    assert forall k :: k in up ==> k in p && p[k] == up[k];
    assert f.Keys == up.Keys;
    assert f == up;
  }

  lemma SizeOne<T>(p: map<int, T>, k: int)
    requires k in p && |p| <= 1
    ensures forall j :: j in p ==> j == k
  {
    assert |p.Keys| == |p|;
    forall j | j in p
      ensures j == k
    {
      if j != k {
        SmallerSet({k}, p.Keys, j);
      }
    }
  }

  /** The second smallest of non-negative indices that include 0 has just 0 below it. */
  lemma OnlyZeroBelow<T>(p: map<int, T>, c: int)
    requires NonNegative(p) && 0 in p && c in p && |Below(p, c)| == 1
    ensures c > 0 && forall k :: k in p ==> k == 0 || k >= c
  {
    var s := Below(p, c);
    assert c <= 0 ==> s == {};
    forall k | k in p && k != 0
      ensures k >= c
    {
      if k < c {
        SmallerSet({0}, s, k);
      }
    }
  }
}
