/** The other representation of arrays: a table of slots that grows. */
module SlotTable {
  import opened Int64
  import opened SparseMaps
  import SparseArray
  import opened Options

  const DEFAULT_SIZE: int := 1024
  const MAX_DOUBLE: int := 16777216

  /** arrayind_t, from 0 on. */
  type index = x: int | 0 <= x <= INTMAX_MAX

  // ----- growing -----

  /** The number of slots in the block that is asked for, whose size in bytes is a 64-bit
      product. */
  function BlockSlots(n: intmax): nat { n * 8 % MODULUS / 8 }

  /** The most slots a block can have, and the first index no table can grow to. */
  const MOST_SLOTS: int := 0x1FFF_FFFF_FFFF_FFFF
  const LIMIT: int := MOST_SLOTS + 1 - DEFAULT_SIZE

  lemma BlockFits(n: intmax)
    ensures n >= 0 && BlockSlots(n) >= n <==> 0 <= n <= MOST_SLOTS
  {
    if n > MOST_SLOTS {
      assert n * 8 % MODULUS < MODULUS;
    }
  }

  /** nsize after k doublings. */
  function Doubled(s: intmax, k: nat): intmax { Wrap(s * Pow2(k)) }

  lemma DoubledNext(s: intmax, k: nat)
    ensures Doubled(s, k + 1) == Wrap(2 * Doubled(s, k))
  {
    WrapId(2);
    WrapMul(2, s * Pow2(k));
    assert 2 * (s * Pow2(k)) == s * Pow2(k + 1);
  }

  lemma {:induction false} Pow2Sum(a: nat, b: nat)
    ensures Pow2(a + b) == Pow2(a) * Pow2(b)
    decreases a
  {
    if a > 0 {
      Pow2Sum(a - 1, b);
    }
  }

  lemma PowersOfTwo()
    ensures Pow2(52) == 0x10_0000_0000_0000 && Pow2(54) == 0x40_0000_0000_0000 && Pow2(64) == MODULUS
  {
    SmallPowers();
    hide Pow2;
    Pow2Sum(8, 8);
    Pow2Sum(16, 16);
    Pow2Sum(32, 16);
    Pow2Sum(32, 32);
    Pow2Sum(48, 4);
    Pow2Sum(48, 6);
  }

  lemma SmallPowers()
    ensures Pow2(4) == 16 && Pow2(6) == 64 && Pow2(8) == 256
  {
    assert Pow2(2) == 4;
  }

  /** What 64 doublings leave of any size. */
  lemma DoubledAway(s: intmax, k: nat)
    requires k >= 64
    ensures Doubled(s, k) == 0
  {
    PowersOfTwo();
    Pow2Sum(64, k - 64);
    WholeMultiple(s * Pow2(k), s * Pow2(k - 64));
  }

  lemma WholeMultiple(x: int, j: int)
    requires x == j * MODULUS
    ensures Wrap(x) == 0
  {
    WrapUnique(x, 0, j);
  }

  /** The doubling of an empty table ends exactly for indices below 2^62: its sizes go up to
      2^62, then to the least number, then to 0, and 0 stays. */
  lemma GrowthEnds(n: intmax)
    ensures (exists k: nat :: n < Doubled(DEFAULT_SIZE, k)) <==> n < 0x4000_0000_0000_0000
  {
    PowersOfTwo();
    WrapId(0x4000_0000_0000_0000);
    assert Doubled(DEFAULT_SIZE, 52) == 0x4000_0000_0000_0000;
    forall k: nat
      ensures Doubled(DEFAULT_SIZE, k) <= 0x4000_0000_0000_0000
    {
      SizesFromDefault(k);
    }
  }

  /** So a[2^62]=v on an empty array never returns. */
  lemma SizesFromDefault(k: nat)
    ensures Doubled(DEFAULT_SIZE, k) <= 0x4000_0000_0000_0000
  {
    PowersOfTwo();
    if k <= 52 {
      Pow2Sum(k, 52 - k);
      MulMonotone(Pow2(k), 1, Pow2(52 - k));
      WrapId(DEFAULT_SIZE * Pow2(k));
    } else if k == 53 {
      WrapUnique(DEFAULT_SIZE * Pow2(53), INTMAX_MIN, 1);
    } else {
      Pow2Sum(54, k - 54);
      WholeMultiple(DEFAULT_SIZE * Pow2(k), Pow2(k - 54));
    }
  }

  /** The first doubling of s above n, unbounded. */
  function Above(s: nat, n: int): (r: nat)
    requires s > 0
    ensures r > n && (r == s || r <= 2 * n)
    decreases n - s
  {
    if n < s then s else Above(2 * s, n)
  }

  /** The doubling loop, and None when it never ends: not before all sizes have been tried. */
  method Doubling(s: intmax, n: index) returns (r: Option<intmax>)
    requires s > 0
    ensures r.None? <==> forall k: nat :: Doubled(s, k) <= n
    ensures r.Some? ==> r.value > n
    ensures n < 0x4000_0000_0000_0000 ==> r.Some? && r.value == Above(s, n)
  {
    hide Doubled, Wrap, Above;
    var nsize: int := s;
    ghost var k: nat := 0;
    DoubledNone(s);
    while n >= nsize
      invariant nsize == Doubled(s, k) && k <= 64 && forall j :: 0 <= j < k ==> Doubled(s, j) <= n
      invariant n < 0x4000_0000_0000_0000 ==> nsize > 0 && Above(nsize, n) == Above(s, n)
      decreases 64 - k
    {
      if nsize == 0 {
        // doubling 0 gives 0 for ever
        ZeroStays(s, k);
        return None;
      }
      DoubledNext(s, k);
      if k == 64 {
        DoubledAway(s, 64);
      }
      AboveNext(nsize, n);
      nsize := Wrap(2 * nsize);
      k := k + 1;
    }
    AboveHere(nsize, n);
    return Some(nsize);
  }

  lemma DoubledNone(s: intmax)
    ensures Doubled(s, 0) == s
  {
    WrapId(s);
  }

  lemma {:induction false} ZeroStays(s: intmax, k: nat)
    requires Doubled(s, k) == 0
    ensures forall j :: j >= k ==> Doubled(s, j) == 0
  {
    forall j | j >= k
      ensures Doubled(s, j) == 0
    {
      ZeroStaysTo(s, k, j);
    }
  }

  lemma {:induction false} ZeroStaysTo(s: intmax, k: nat, j: nat)
    requires Doubled(s, k) == 0 && j >= k
    ensures Doubled(s, j) == 0
    decreases j
  {
    if j > k {
      ZeroStaysTo(s, k, j - 1);
      DoubledNext(s, j - 1);
      WrapId(0);
    }
  }

  lemma AboveNext(s: intmax, n: int)
    ensures 0 < s <= n < 0x4000_0000_0000_0000 ==> Wrap(2 * s) == 2 * s && Above(2 * s, n) == Above(s, n)
  {
    if 0 < s <= n < 0x4000_0000_0000_0000 {
      WrapId(2 * s);
    }
  }

  lemma AboveHere(s: intmax, n: int)
    ensures 0 < s && n < s ==> Above(s, n) == s
  {
  }

  /** The size of a table that has made room for n. */
  function NewSize(size: nat, n: index): nat
  {
    if n < size then size
    else
      var r := Above(if size > 0 then size else DEFAULT_SIZE, n);
      if r > MAX_DOUBLE then n + DEFAULT_SIZE else r
  }

  class Table {
    var elements: array<Option<string>>
    var firstIndex: int
    var maxIndex: int
    var numElements: int
    ghost var contents: map<int, string>

    /** The slots hold the contents; the last index is exact, the first only a lower bound. */
    ghost predicate Valid()
      reads this, elements
    {
      && Slots() && Bounded(contents, firstIndex, maxIndex) && numElements == |contents|
      && elements.Length <= MOST_SLOTS
    }

    ghost predicate Slots()
      reads `elements, `contents, elements
    {
      && (forall i :: i in contents ==> 0 <= i < elements.Length)
      && (forall i :: 0 <= i < elements.Length ==> elements[i] == Lookup(contents, i))
    }

    static ghost predicate Bounded(m: map<int, string>, first: int, last: int)
    {
      && (forall i :: i in m ==> 0 <= first <= i <= last) && -1 <= first
      && (if m == map[] then last == -1 else last in m)
    }

    static lemma PutBounds(m: map<int, string>, first: int, last: int, i: int, v: string)
      requires Bounded(m, first, last) && i >= 0
      ensures Bounded(m[i := v], if first < 0 || i < first then i else first, if i > last then i else last)
    {
      assert i in m[i := v];
    }

    constructor ()
      ensures Valid() && contents == map[] && fresh(elements) && elements.Length == 0
    {
      firstIndex, maxIndex, numElements := -1, -1, 0;
      elements := new Option<string>[0];
      contents := map[];
    }

    /** array_expand: room for index n, doubling while that is reasonable. It fails, when the
        doubling never ends or the block is too short, exactly for indices from LIMIT on. */
    method Expand(n: index) returns (ok: bool)
      requires Valid()
      modifies this`elements
      ensures ok == (n < old(elements.Length) || n < LIMIT)
      ensures Valid() && (elements == old(elements) || fresh(elements))
      ensures elements.Length == if ok then NewSize(old(elements.Length), n) else old(elements.Length)
      ensures ok ==> n < elements.Length
    {
      if n < elements.Length {
        return true;
      }
      var doubled := Doubling(if elements.Length > 0 then elements.Length else DEFAULT_SIZE, n);
      if doubled.None? {
        return false;
      }
      var nsize := doubled.value;
      Enlarged(n);
      if nsize > MAX_DOUBLE {
        nsize := Wrap(n + DEFAULT_SIZE);
      }
      BlockFits(nsize);
      if nsize < 0 || BlockSlots(nsize) < nsize {
        // the slots up to nsize are not all inside the block
        return false;
      }
      Resize(nsize);
      return true;
    }

    static lemma Enlarged(n: index)
      ensures n < LIMIT ==> Wrap(n + DEFAULT_SIZE) == n + DEFAULT_SIZE
      ensures n >= LIMIT ==> !(0 <= Wrap(n + DEFAULT_SIZE) <= MOST_SLOTS)
    {
      if n + DEFAULT_SIZE <= INTMAX_MAX {
        WrapId(n + DEFAULT_SIZE);
      } else {
        WrapUnique(n + DEFAULT_SIZE, n + DEFAULT_SIZE - MODULUS, 1);
      }
    }

    method Resize(n: int)
      requires Valid() && elements.Length < n <= MOST_SLOTS
      modifies this`elements
      ensures Valid() && n == elements.Length && fresh(elements)
    {
      var was, e := elements, new Option<string>[n];
      for i := 0 to was.Length
        invariant forall j :: 0 <= j < i ==> e[j] == was[j]
        modifies e
      {
        e[i] := was[i];
      }
      for i := was.Length to n
        invariant forall j :: 0 <= j < was.Length ==> e[j] == was[j]
        invariant forall j :: was.Length <= j < i ==> e[j] == None
        modifies e
      {
        e[i] := None;
      }
      elements := e;
    }

    /** array_insert: 0 for a value that was replaced; for a new one -1, which the code calls a
        problem; None when there is no room to be had for the index. */
    method Insert(i: index, v: string) returns (code: Option<int>)
      requires Valid()
      modifies this, elements
      ensures code == if i >= old(elements.Length) && i >= LIMIT then None else Some(if i in old(contents) then 0 else -1)
      ensures Valid() && contents == (if code.Some? then old(contents)[i := v] else old(contents))
      ensures elements == old(elements) || fresh(elements)
      ensures elements.Length == if code.Some? then NewSize(old(elements.Length), i) else old(elements.Length)
    {
      hide Bounded, Table.Slots;
      if i >= elements.Length {
        var ok := Expand(i);
        if !ok {
          return None;
        }
      }
      PutSize(contents, i, v);
      PutBounds(contents, firstIndex, maxIndex, i, v);
      if i > maxIndex {
        maxIndex := i;
      }
      if firstIndex < 0 || i < firstIndex {
        firstIndex := i;
      }
      var previous := Fill(i, v);
      if previous.Some? {
        return Some(0);
      }
      numElements := numElements + 1;
      return Some(-1);
    }

    /** The slot is written; what it held is handed back. */
    method Fill(i: int, v: string) returns (previous: Option<string>)
      requires Slots() && 0 <= i < elements.Length
      modifies elements, this`contents
      ensures Slots() && contents == old(contents)[i := v] && previous == Lookup(old(contents), i)
    {
      previous := elements[i];
      elements[i] := Some(v);
      contents := contents[i := v];
    }

    method Remove(i: int) returns (r: Option<string>)
      requires Valid()
      modifies this, elements
      ensures Valid() && contents == old(contents) - {i} && elements == old(elements)
      ensures r == Lookup(old(contents), i)
    {
      if numElements == 0 {
        NothingIn(contents);
        return None;
      }
      if i > maxIndex || i < firstIndex {
        return None;
      }
      r := elements[i];
      elements[i] := None;
      contents := contents - {i};
      if r.Some? {
        numElements := numElements - 1;
        assert maxIndex != i ==> maxIndex in contents;
        if numElements == 0 {
          NothingIn(contents);
          firstIndex := if maxIndex == -1 then 1 else 0;
        }
        NewBounds(i);
      }
    }

    lemma NothingIn(m: map<int, string>)
      requires |m| == 0
      ensures m == map[]
    {
    }

    /** After the slot at i was emptied: look for the new last and first index. */
    method NewBounds(i: int)
      requires 0 <= i <= maxIndex < elements.Length && i !in contents && -1 <= firstIndex <= i
      requires (forall j :: j in contents ==> 0 <= firstIndex <= j <= maxIndex) && (contents == map[] ==> firstIndex == 0 && maxIndex == i)
      requires maxIndex != i ==> maxIndex in contents
      requires forall j :: 0 <= j < elements.Length ==> elements[j] == Lookup(contents, j)
      modifies this`firstIndex, this`maxIndex
      ensures Bounded(contents, firstIndex, maxIndex)
    {
      if i == maxIndex {
        var ind := i;
        while ind >= firstIndex && elements[ind].None?
          invariant firstIndex - 1 <= ind <= i && forall j :: j in contents ==> j <= ind
        {
          ind := ind - 1;
        }
        maxIndex := ind;
      }
      if i == firstIndex {
        var ind := i;
        while ind <= maxIndex && elements[ind].None?
          invariant i <= ind && forall j :: j in contents ==> ind <= j
        {
          ind := ind + 1;
        }
        firstIndex := ind;
      }
    }

    method Reference(i: int) returns (r: Option<string>)
      requires Valid()
      ensures r == Lookup(contents, i)
    {
      if numElements == 0 {
        NothingIn(contents);
        return None;
      }
      if i > maxIndex || i < firstIndex {
        return None;
      }
      return elements[i];
    }

    /** array_flush counts with an int: it empties the table exactly when it was empty or its
        last index is below INT_MAX; otherwise the count leaves the range of its type. */
    method Flush() returns (ok: bool)
      requires Valid()
      modifies this, elements
      ensures ok == (old(contents) == map[] || old(maxIndex) < INT_MAX)
      ensures elements == old(elements)
      ensures ok ==> Valid() && contents == map[]
    {
      if numElements == 0 {
        NothingIn(contents);
        maxIndex, firstIndex := -1, -1;
        return true;
      }
      var r := ToInt(firstIndex);
      while r <= maxIndex
        invariant r <= INT_MAX
        invariant maxIndex < INT_MAX ==> firstIndex <= r <= maxIndex + 1
        invariant maxIndex < INT_MAX ==> forall j :: 0 <= j < elements.Length ==>
          elements[j] == if firstIndex <= j < r then None else Lookup(contents, j)
        modifies elements
      {
        if r < 0 {
          // outside the table
          return false;
        }
        elements[r] := None;
        if r == INT_MAX {
          // there is no next int
          return false;
        }
        r := r + 1;
      }
      maxIndex, firstIndex, numElements := -1, -1, 0;
      contents := map[];
      return true;
    }

    /** The last index is below INT_MAX when every index is. */
    lemma LastIndex()
      requires Valid()
      ensures contents == map[] || maxIndex < INT_MAX <==> forall i :: i in contents ==> i < INT_MAX
    {
      if contents != map[] {
        assert maxIndex in contents;
      }
    }
  }

  // ----- both representations side by side -----

  datatype Op = Insert(i: index, v: string) | Remove(j: int) | Flush

  function ApplyOne(m: map<int, string>, op: Op): map<int, string>
  {
    match op
    case Insert(i, v) => m[i := v]
    case Remove(j) => m - {j}
    case Flush => map[]
  }

  function Apply(ops: seq<Op>): map<int, string>
  {
    if ops == [] then map[] else ApplyOne(Apply(ops[..|ops| - 1]), ops[|ops| - 1])
  }

  method StepRing(a: SparseArray.Array, op: Op)
    requires a.Valid()
    modifies a, a.head, a.nodes
    ensures a.Valid() && a.contents == ApplyOne(old(a.contents), op) && a.head == old(a.head)
    ensures forall x :: x in a.nodes ==> x in old(a.nodes) || fresh(x)
  {
    hide SparseArray.Array.Ring;
    match op
    case Insert(i, v) => a.Insert(i, v);
    case Remove(j) => var _ := a.Remove(j);
    case Flush => a.Flush();
  }

  /** The operations a slot table of that size and contents can carry out. */
  predicate Handles(size: nat, m: map<int, string>, op: Op)
  {
    match op
    case Insert(i, _) => i < size || i < LIMIT
    case Remove(_) => true
    case Flush => forall i :: i in m ==> i < INT_MAX
  }

  function SizeAfter(size: nat, op: Op): nat { if op.Insert? then NewSize(size, op.i) else size }

  function SizeOf(ops: seq<Op>): nat
  {
    if ops == [] then 0 else SizeAfter(SizeOf(ops[..|ops| - 1]), ops[|ops| - 1])
  }

  predicate HandlesAt(ops: seq<Op>, k: nat)
    requires k < |ops|
  {
    Handles(SizeOf(ops[..k]), Apply(ops[..k]), ops[k])
  }

  /** A run that the slot table carries through. */
  predicate Safe(ops: seq<Op>) { forall k :: 0 <= k < |ops| ==> HandlesAt(ops, k) }

  /** Every run whose indices are below INT_MAX is one. */
  lemma SmallIndicesAreSafe(ops: seq<Op>)
    requires forall k :: 0 <= k < |ops| && ops[k].Insert? ==> ops[k].i < INT_MAX
    ensures Safe(ops)
  {
    forall k | 0 <= k < |ops|
      ensures HandlesAt(ops, k)
    {
      SmallIndices(ops[..k]);
    }
  }

  lemma {:induction false} SmallIndices(ops: seq<Op>)
    requires forall k :: 0 <= k < |ops| && ops[k].Insert? ==> ops[k].i < INT_MAX
    ensures forall i :: i in Apply(ops) ==> i < INT_MAX
    decreases |ops|
  {
    if ops != [] {
      SmallIndices(ops[..|ops| - 1]);
    }
  }

  method StepTable(b: Table, op: Op) returns (ok: bool)
    requires b.Valid()
    modifies b, b.elements
    ensures ok == Handles(old(b.elements.Length), old(b.contents), op)
    ensures b.elements == old(b.elements) || fresh(b.elements)
    ensures ok ==> b.Valid() && b.contents == ApplyOne(old(b.contents), op)
    ensures ok ==> b.elements.Length == SizeAfter(old(b.elements.Length), op)
  {
    hide Table.Valid;
    match op
    case Insert(i, v) =>
      var code := b.Insert(i, v);
      ok := code.Some?;
    case Remove(j) =>
      var _ := b.Remove(j);
      ok := true;
    case Flush =>
      b.LastIndex();
      ok := b.Flush();
  }

  /** From empty, a run of insertions, removals and flushes is carried through by the slot
      table exactly when it is safe; and then the ring and the slot table give the same answer
      to every reference, and it is the map's. */
  method SameAnswers(ops: seq<Op>, i: int) returns (ok: bool, fromRing: Option<string>, fromTable: Option<string>)
    ensures ok == Safe(ops)
    ensures ok ==> fromRing == fromTable == Lookup(Apply(ops), i)
  {
    hide SparseArray.Array.Valid, Table.Valid, ApplyOne, Handles, SizeAfter;
    var a := new SparseArray.Array();
    var b := new Table();
    fromRing, fromTable := None, None;
    for k := 0 to |ops|
      invariant fresh(a) && fresh(b) && fresh(a.head) && fresh(a.nodes) && fresh(b.elements)
      invariant a.Valid() && b.Valid() && a.contents == b.contents == Apply(ops[..k])
      invariant b.elements.Length == SizeOf(ops[..k]) && forall j :: 0 <= j < k ==> HandlesAt(ops, j)
    {
      assert ops[..k + 1][..k] == ops[..k];
      StepRing(a, ops[k]);
      ok := StepTable(b, ops[k]);
      assert ok == HandlesAt(ops, k);
      if !ok {
        return;
      }
    }
    assert ops[..|ops|] == ops;
    ok := true;
    fromRing := a.Reference(i);
    fromTable := b.Reference(i);
  }
}
