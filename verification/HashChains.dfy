/** Bucket chains as sequences, and the finite map a table of them stands for. */
module HashChains {
  import opened Int64
  import opened Options

  /** The data of an entry is null until the caller sets it. */
  type Data = Option<string>

  datatype Entry = Entry(key: string, data: Data, khash: nat, timesFound: int)

  const WORD: int := 0x1_0000_0000
  const FNV_OFFSET: int := 2166136261
  const FNV_PRIME: int := 16777619

  // ----- the hash -----

  /** A char read through a signed pointer, widened to 32 bits. */
  function Byte(c: char): (b: nat)
    ensures b < WORD
  {
    var n := c as int % 256;
    if n < 128 then n else n + 0xFFFF_FF00
  }

  function Xor(a: nat, b: nat): (r: nat)
    requires a < WORD && b < WORD
    ensures r < WORD
  {
    AndXorBound(BitXor, a, b);
    Bits(BitXor, a, b, 32)
  }

  lemma AndXorBound(op: BitOp, a: nat, b: nat)
    ensures Bits(op, a, b, 32) < WORD
  {
    assert Pow2(8) == 0x100;
    assert Pow2(16) == 0x1_0000;
    assert Pow2(24) == 0x100_0000;
    assert Pow2(32) == WORD;
  }

  /** FNV-1: multiply by the prime, then mix the next character in. */
  function Fnv(h: nat, s: string): (r: nat)
    requires h < WORD
    ensures r < WORD
    decreases |s|
  {
    if s == "" then h else Fnv(Xor(h * FNV_PRIME % WORD, Byte(s[0])), s[1..])
  }

  function HashString(s: string): (r: nat)
    ensures r < WORD
  {
    Fnv(FNV_OFFSET, s)
  }

  /** The shifts and additions of the loop are the multiplication by the prime. */
  lemma ShiftsMultiply(i: nat)
    requires i < WORD
    ensures (i + (i * 0x2 % WORD + i * 0x10 % WORD + i * 0x80 % WORD + i * 0x100 % WORD + i * 0x100_0000 % WORD)) % WORD
         == i * FNV_PRIME % WORD
  {
    var a, b, c, d, e := i * 0x2, i * 0x10, i * 0x80, i * 0x100, i * 0x100_0000;
    assert i + a + b + c + d + e == i * FNV_PRIME;
    var k := a / WORD + b / WORD + c / WORD + d / WORD + e / WORD;
    assert i + (a % WORD + b % WORD + c % WORD + d % WORD + e % WORD) == i * FNV_PRIME - k * WORD;
    ModShift(i * FNV_PRIME, k);
  }

  lemma ModShift(x: nat, k: nat)
    requires x >= k * WORD
    ensures (x - k * WORD) % WORD == x % WORD
  {
    var q := x / WORD;
    assert x - k * WORD == (q - k) * WORD + x % WORD;
  }

  method HashLoop(s: string) returns (i: nat)
    ensures i == HashString(s)
  {
    i := FNV_OFFSET;
    var j := 0;
    assert s[0..] == s;
    while j < |s|
      invariant j <= |s| && i < WORD && Fnv(i, s[j..]) == HashString(s)
    {
      ShiftsMultiply(i);
      i := (i + (i * 0x2 % WORD + i * 0x10 % WORD + i * 0x80 % WORD + i * 0x100 % WORD + i * 0x100_0000 % WORD)) % WORD;
      i := Xor(i, Byte(s[j]));
      assert s[j..][1..] == s[j + 1..];
      j := j + 1;
    }
    assert s[j..] == "";
  }

  // ----- where a key belongs -----

  /** HASH_BUCKET: the hash masked by the number of buckets less one. */
  function Masked(h: nat, nbuckets: nat): (b: nat)
    requires nbuckets > 0
    ensures b < nbuckets
  {
    MaskAtMost(h, nbuckets - 1, 32);
    Bits(BitAnd, h, nbuckets - 1, 32)
  }

  lemma {:induction false} MaskAtMost(a: nat, b: nat, width: nat)
    ensures Bits(BitAnd, a, b, width) <= b
  {
    if width > 0 {
      MaskAtMost(a / 2, b / 2, width - 1);
    }
  }

  function Home(key: string, nbuckets: nat): (b: nat)
    requires nbuckets > 0
    ensures b < nbuckets
  {
    Masked(HashString(key), nbuckets)
  }

  // ----- chains -----

  /** Keys are different from one another. */
  predicate Distinct(chain: seq<Entry>)
  {
    forall i, j :: 0 <= i < j < |chain| ==> chain[i].key != chain[j].key
  }

  /** The position of a key in a chain; its length when it is not there. */
  function Find(chain: seq<Entry>, key: string): (k: nat)
    ensures k <= |chain| && (k < |chain| ==> chain[k].key == key)
    ensures forall i :: 0 <= i < k ==> chain[i].key != key
  {
    if chain == [] || chain[0].key == key then 0 else 1 + Find(chain[1..], key)
  }

  function Get(chain: seq<Entry>, key: string): Option<Data>
  {
    var k := Find(chain, key);
    if k < |chain| then Some(chain[k].data) else None
  }

  /** Each entry is in the bucket its cached hash selects. */
  predicate Placed(chain: seq<Entry>, b: nat, n: nat)
    requires n > 0
  {
    forall i :: 0 <= i < |chain| ==> chain[i].khash == HashString(chain[i].key) && Home(chain[i].key, n) == b
  }

  /** A bucket holds what the map has for the keys that belong there, each once. */
  predicate Holds(chain: seq<Entry>, b: nat, n: nat, m: map<string, Data>)
    requires n > 0
  {
    && Distinct(chain) && Placed(chain, b, n)
    && (forall i :: 0 <= i < |chain| ==> chain[i].key in m && m[chain[i].key] == chain[i].data)
    && (forall key :: key in m && Home(key, n) == b ==> Find(chain, key) < |chain|)
  }

  predicate Represents(t: seq<seq<Entry>>, m: map<string, Data>)
  {
    |t| > 0 && forall b {:trigger t[b]} :: 0 <= b < |t| ==> Holds(t[b], b, |t|, m)
  }

  lemma FindIs(chain: seq<Entry>, i: nat)
    requires Distinct(chain) && i < |chain|
    ensures Find(chain, chain[i].key) == i
  {
    hide Find;
    var k := Find(chain, chain[i].key);
  }

  /** What a table answers for a key is what the map says. */
  lemma LookupIs(t: seq<seq<Entry>>, m: map<string, Data>, key: string)
    requires Represents(t, m)
    ensures Get(t[Home(key, |t|)], key) == Lookup(m, key)
  {
    hide Home, Find;
    var b := Home(key, |t|);
    assert Holds(t[b], b, |t|, m);
  }

  // ----- one entry more, one fewer, one changed -----

  lemma FindPrepend(e: Entry, chain: seq<Entry>, key: string)
    ensures Find([e] + chain, key) == if e.key == key then 0 else 1 + Find(chain, key)
  {
    assert ([e] + chain)[1..] == chain;
  }

  lemma HoldsPrepend(e: Entry, chain: seq<Entry>, b: nat, n: nat, m: map<string, Data>)
    requires n > 0 && Holds(chain, b, n, m) && e.key !in m && e.khash == HashString(e.key) && Home(e.key, n) == b
    ensures Holds([e] + chain, b, n, m[e.key := e.data])
  {
    hide Home, HashString, Find;
    var c, m1 := [e] + chain, m[e.key := e.data];
    assert forall i :: 0 < i < |c| ==> c[i] == chain[i - 1];
    forall key | key in m1 && Home(key, n) == b
      ensures Find(c, key) < |c|
    {
      FindPrepend(e, chain, key);
    }
  }

  lemma HoldsElsewhere(chain: seq<Entry>, b: nat, n: nat, m: map<string, Data>, m1: map<string, Data>, key: string)
    requires n > 0 && Holds(chain, b, n, m) && Home(key, n) != b
    requires forall k :: k != key ==> (k in m <==> k in m1) && (k in m ==> m[k] == m1[k])
    ensures Holds(chain, b, n, m1)
  {
    hide Home, HashString, Find;
  }

  lemma Prepend(t: seq<seq<Entry>>, m: map<string, Data>, e: Entry)
    requires Represents(t, m) && e.key !in m && e.khash == HashString(e.key)
    ensures var b := Home(e.key, |t|); Represents(t[b := [e] + t[b]], m[e.key := e.data])
  {
    hide Home, HashString, Holds;
    var b := Home(e.key, |t|);
    var u, m1 := t[b := [e] + t[b]], m[e.key := e.data];
    forall c | 0 <= c < |u|
      ensures Holds(u[c], c, |u|, m1)
    {
      if c == b {
        HoldsPrepend(e, t[b], b, |t|, m);
      } else {
        HoldsElsewhere(t[c], c, |t|, m, m1, e.key);
      }
    }
  }

  lemma HoldsWithout(chain: seq<Entry>, k: nat, b: nat, n: nat, m: map<string, Data>)
    requires n > 0 && Holds(chain, b, n, m) && k < |chain|
    ensures Holds(chain[..k] + chain[k + 1..], b, n, m - {chain[k].key})
  {
    hide Home, HashString, Find;
    var c, m1 := chain[..k] + chain[k + 1..], m - {chain[k].key};
    assert forall i :: 0 <= i < |c| ==> c[i] == chain[if i < k then i else i + 1];
    forall key | key in m1 && Home(key, n) == b
      ensures Find(c, key) < |c|
    {
      var i := Find(chain, key);
      assert c[if i < k then i else i - 1].key == key;
    }
  }

  lemma TakeOut(t: seq<seq<Entry>>, m: map<string, Data>, key: string)
    requires Represents(t, m) && key in m
    ensures var b := Home(key, |t|);
      var k := Find(t[b], key);
      k < |t[b]| && Represents(t[b := t[b][..k] + t[b][k + 1..]], m - {key})
  {
    hide Home, HashString, Find;
    var b := Home(key, |t|);
    assert Holds(t[b], b, |t|, m);
    var k := Find(t[b], key);
    var u, m1 := t[b := t[b][..k] + t[b][k + 1..]], m - {key};
    HoldsWithout(t[b], k, b, |t|, m);
    hide Holds;
    forall c | 0 <= c < |u|
      ensures Holds(u[c], c, |u|, m1)
    {
      if c != b {
        assert Holds(t[c], c, |t|, m);
        HoldsElsewhere(t[c], c, |t|, m, m1, key);
      }
    }
  }

  lemma HoldsChanged(chain: seq<Entry>, k: nat, e: Entry, b: nat, n: nat, m: map<string, Data>)
    requires n > 0 && Holds(chain, b, n, m) && k < |chain| && e.key == chain[k].key && e.khash == chain[k].khash
    ensures Holds(chain[k := e], b, n, m[e.key := e.data])
  {
    hide Home, HashString, Find;
    var c := chain[k := e];
    assert forall i :: 0 <= i < |c| ==> c[i].key == chain[i].key && c[i].khash == chain[i].khash;
    forall key | key in m && Home(key, n) == b
      ensures Find(c, key) < |c|
    {
      assert c[Find(chain, key)].key == key;
    }
  }

  lemma Change(t: seq<seq<Entry>>, m: map<string, Data>, key: string, e: Entry)
    requires Represents(t, m) && key in m && e.key == key && e.khash == HashString(key)
    ensures var b := Home(key, |t|);
      var k := Find(t[b], key);
      k < |t[b]| && Represents(t[b := t[b][k := e]], m[key := e.data])
  {
    hide Home, HashString, Find;
    var b := Home(key, |t|);
    assert Holds(t[b], b, |t|, m);
    var k := Find(t[b], key);
    var u, m1 := t[b := t[b][k := e]], m[key := e.data];
    HoldsChanged(t[b], k, e, b, |t|, m);
    forall c | 0 <= c < |u|
      ensures Holds(u[c], c, |u|, m1)
    {
      if c != b {
        assert Holds(t[c], c, |t|, m);
        HoldsElsewhere(t[c], c, |t|, m, m1, key);
      }
    }
  }

  // ----- moving every entry to another table -----

  /** The key's entry stands before item i of chain j. */
  predicate Earlier(t: seq<seq<Entry>>, key: string, j: nat, i: nat)
    requires |t| > 0
  {
    var b := Home(key, |t|);
    b < j || (b == j && Find(t[b], key) < i)
  }

  /** The part of the map that has been moved when item i of chain j is next. */
  function Done(t: seq<seq<Entry>>, m: map<string, Data>, j: nat, i: nat): map<string, Data>
    requires |t| > 0
  {
    map key | key in m && Earlier(t, key, j, i) :: m[key]
  }

  lemma DoneItem(t: seq<seq<Entry>>, m: map<string, Data>, j: nat, i: nat)
    requires Represents(t, m) && j < |t| && i < |t[j]|
    ensures var e := t[j][i];
      && e.khash == HashString(e.key) && e.key !in Done(t, m, j, i)
      && Done(t, m, j, i + 1) == Done(t, m, j, i)[e.key := e.data]
  {
    hide Home, HashString, Find;
    var e := t[j][i];
    assert Holds(t[j], j, |t|, m);
    FindIs(t[j], i);
    forall key | key in m
      ensures Earlier(t, key, j, i + 1) <==> Earlier(t, key, j, i) || key == e.key
    {
    }
  }

  lemma DoneChain(t: seq<seq<Entry>>, m: map<string, Data>, j: nat)
    requires Represents(t, m) && j < |t|
    ensures Done(t, m, j, |t[j]|) == Done(t, m, j + 1, 0)
  {
    hide Home, HashString, Find;
    assert Holds(t[j], j, |t|, m);
  }

  lemma DoneEnds(t: seq<seq<Entry>>, m: map<string, Data>)
    requires Represents(t, m)
    ensures |t| > 0 && Done(t, m, 0, 0) == map[] && Done(t, m, |t|, 0) == m
  {
    hide HashString, Find;
  }

  lemma EmptyRepresents(t: seq<seq<Entry>>)
    requires |t| > 0 && forall b :: 0 <= b < |t| ==> t[b] == []
    ensures Represents(t, map[])
  {
  }

  /** One entry more is moved, to the bucket its cached hash selects. */
  lemma MovesOn(t: seq<seq<Entry>>, m: map<string, Data>, j: nat, i: nat, u: seq<seq<Entry>>)
    requires Represents(t, m) && j < |t| && i < |t[j]| && Represents(u, Done(t, m, j, i))
    ensures |u| > 0 && t[j][i].key !in Done(t, m, j, i)
    ensures var c := Masked(t[j][i].khash, |u|); Represents(u[c := [t[j][i]] + u[c]], Done(t, m, j, i + 1))
  {
    hide Represents, Done, Masked, HashString;
    DoneItem(t, m, j, i);
    Prepend(u, Done(t, m, j, i), t[j][i]);
    Inhabited(u, Done(t, m, j, i));
  }

  lemma Inhabited(t: seq<seq<Entry>>, m: map<string, Data>)
    requires Represents(t, m)
    ensures |t| > 0
  {
  }

  // ----- the count of entries -----

  function Lengths(t: seq<seq<Entry>>): nat { if t == [] then 0 else Lengths(t[..|t| - 1]) + |t[|t| - 1]| }

  lemma {:induction false} CountItems(t: seq<seq<Entry>>, m: map<string, Data>, j: nat, i: nat)
    requires Represents(t, m) && j < |t| && i <= |t[j]|
    ensures |Done(t, m, j, i)| == |Done(t, m, j, 0)| + i
    decreases i
  {
    hide Done, Represents;
    if i > 0 {
      CountItems(t, m, j, i - 1);
      DoneItem(t, m, j, i - 1);
      PutNew(Done(t, m, j, i - 1), t[j][i - 1].key, t[j][i - 1].data);
    }
  }

  lemma PutNew(m: map<string, Data>, key: string, d: Data)
    requires key !in m
    ensures |m[key := d]| == |m| + 1
  {
  }

  lemma {:induction false} CountChains(t: seq<seq<Entry>>, m: map<string, Data>, j: nat)
    requires Represents(t, m) && j <= |t|
    ensures |Done(t, m, j, 0)| == Lengths(t[..j])
    decreases j
  {
    hide Done, Holds;
    DoneEnds(t, m);
    if j > 0 {
      CountChains(t, m, j - 1);
      CountItems(t, m, j - 1, |t[j - 1]|);
      DoneChain(t, m, j - 1);
      assert t[..j][..j - 1] == t[..j - 1];
    }
  }

  /** The chains together are as long as the map is large. */
  lemma TotalLength(t: seq<seq<Entry>>, m: map<string, Data>)
    requires Represents(t, m)
    ensures Lengths(t) == |m|
  {
    CountChains(t, m, |t|);
    DoneEnds(t, m);
    assert t[..|t|] == t;
  }

  // ----- copying -----

  function CopyData(d: Data, cp: string -> string): Data { if d.Some? then Some(cp(d.value)) else None }

  function CopyEntry(e: Entry, cp: string -> string): Entry { e.(data := CopyData(e.data, cp)) }

  function CopyChain(chain: seq<Entry>, cp: string -> string): seq<Entry>
  {
    seq(|chain|, i requires 0 <= i < |chain| => CopyEntry(chain[i], cp))
  }

  lemma CopyAt(chain: seq<Entry>, cp: string -> string, i: nat)
    ensures |CopyChain(chain, cp)| == |chain|
    ensures i < |chain| ==> CopyChain(chain, cp)[i] == CopyEntry(chain[i], cp)
  {
  }

  function CopyMap(m: map<string, Data>, cp: string -> string): map<string, Data>
  {
    map key | key in m :: CopyData(m[key], cp)
  }

  lemma HoldsCopy(chain: seq<Entry>, b: nat, n: nat, m: map<string, Data>, cp: string -> string)
    requires n > 0 && Holds(chain, b, n, m)
    ensures Holds(CopyChain(chain, cp), b, n, CopyMap(m, cp))
  {
    hide Home, HashString, Find;
    var c := CopyChain(chain, cp);
    forall key | key in m && Home(key, n) == b
      ensures Find(c, key) < |c|
    {
      assert c[Find(chain, key)].key == key;
    }
  }

  lemma CopyRepresents(t: seq<seq<Entry>>, u: seq<seq<Entry>>, m: map<string, Data>, cp: string -> string)
    requires Represents(t, m) && |u| == |t| && forall b :: 0 <= b < |t| ==> u[b] == CopyChain(t[b], cp)
    ensures Represents(u, CopyMap(m, cp)) && |CopyMap(m, cp)| == |m|
  {
    hide Holds;
    forall b | 0 <= b < |u|
      ensures Holds(u[b], b, |u|, CopyMap(m, cp))
    {
      assert Holds(t[b], b, |t|, m);
      HoldsCopy(t[b], b, |t|, m, cp);
    }
    assert m.Keys == CopyMap(m, cp).Keys;
    assert |m.Keys| == |m| && |CopyMap(m, cp).Keys| == |CopyMap(m, cp)|;
  }
}
