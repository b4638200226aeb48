/** The chained hash table: an array of linked lists. */
module HashTable {
  import opened HashChains
  import opened Int64
  import opened Options

  const DEFAULT_BUCKETS: int := 128
  const REHASH_MULTIPLIER: int := 4
  const REHASH_FACTOR: int := 2

  class Item {
    var next: Item?
    var key: string
    var data: Data
    var khash: nat
    var timesFound: int

    constructor (e: Entry, next: Item?)
      ensures AsEntry() == e && this.next == next
    {
      key, data, khash, timesFound := e.key, e.data, e.khash, e.timesFound;
      this.next := next;
    }

    function AsEntry(): Entry
      reads `key, `data, `khash, `timesFound
    {
      Entry(key, data, khash, timesFound)
    }
  }

  /** The item at i, or the null at the end. */
  function At(chain: seq<Item>, i: nat): Item? { if i < |chain| then chain[i] else null }

  /** From p on the items of the chain are linked one to the next. */
  ghost predicate Linked(p: Item?, chain: seq<Item>, items: set<Item>)
    reads items`next
  {
    && p == At(chain, 0)
    && forall i {:trigger chain[i]} :: 0 <= i < |chain| ==> chain[i] in items && chain[i].next == At(chain, i + 1)
  }

  /** Each bucket points to its chain. */
  ghost predicate Chains(heads: seq<Item?>, chains: seq<seq<Item>>, items: set<Item>)
    reads items`next
  {
    |heads| == |chains| && forall b {:trigger chains[b]} :: 0 <= b < |chains| ==> Linked(heads[b], chains[b], items)
  }

  /** The items of a chain hold these entries. */
  ghost predicate Holding(chain: seq<Item>, entries: seq<Entry>, items: set<Item>)
    reads items`key, items`data, items`khash, items`timesFound
  {
    && |chain| == |entries|
    && forall i {:trigger chain[i]} :: 0 <= i < |chain| ==> chain[i] in items && chain[i].AsEntry() == entries[i]
  }

  ghost predicate Entries(chains: seq<seq<Item>>, table: seq<seq<Entry>>, items: set<Item>)
    reads items`key, items`data, items`khash, items`timesFound
  {
    |chains| == |table| && forall b {:trigger chains[b]} :: 0 <= b < |chains| ==> Holding(chains[b], table[b], items)
  }

  /** The item stands nowhere but at place k of chain b. */
  ghost predicate OnlyAt(chains: seq<seq<Item>>, item: Item, b: nat, k: nat)
  {
    forall c, i {:trigger chains[c][i]} :: 0 <= c < |chains| && 0 <= i < |chains[c]| && chains[c][i] == item ==> c == b && i == k
  }

  class Table {
    var buckets: array<Item?>
    var nentries: int
    ghost var items: set<Item>
    ghost var chains: seq<seq<Item>>
    ghost var table: seq<seq<Entry>>
    ghost var contents: map<string, Data>

    /** Every entry is in its bucket, every key once; the count is exact. */
    ghost predicate Valid()
      reads this, buckets, items
    {
      && Chains(buckets[..], chains, items) && Entries(chains, table, items) && Represents(table, contents)
      && |chains| == |table| == buckets.Length <= INT_MAX && nentries == |contents| <= INT_MAX
    }

    constructor (size: nat)
      requires size <= INT_MAX
      ensures Valid() && contents == map[] && fresh(buckets) && items == {}
      ensures buckets.Length == if size == 0 then DEFAULT_BUCKETS else size
    {
      var n := if size == 0 then DEFAULT_BUCKETS else size;
      buckets := new Item?[n](_ => null);
      nentries, contents, items := 0, map[], {};
      chains, table := seq(n, _ => []), seq(n, _ => []);
      new;
      EmptyRepresents(table);
    }

    /** The walk along a chain that looks for a key. */
    method Walk(key: string) returns (b: nat, prev: Item?, list: Item?, ghost k: nat)
      requires Valid()
      ensures b == Home(key, buckets.Length) < buckets.Length && |chains| == |table| == buckets.Length
      ensures k == Find(table[b], key) <= |chains[b]| && list == At(chains[b], k)
      ensures prev == if k == 0 then null else chains[b][k - 1]
      ensures list != null <==> key in contents
      ensures list != null ==> list in items && list.AsEntry() == table[b][k] && contents[key] == list.data
      ensures list != null ==> list.key == key && list.khash == HashString(key)
    {
      hide Find;
      var hv := HashLoop(key);
      b := Masked(hv, buckets.Length);
      LookupIs(table, contents, key);
      assert Holds(table[b], b, |table|, contents);
      ghost var chain := chains[b];
      assert Linked(buckets[..][b], chain, items) && Holding(chain, table[b], items);
      prev, list, k := null, buckets[b], 0;
      while list != null && !(hv == list.khash && list.key == key)
        invariant k <= |chain| && list == At(chain, k) && prev == (if k == 0 then null else chain[k - 1])
        invariant forall i :: 0 <= i < k ==> table[b][i].key != key
        decreases |chain| - k
      {
        prev, list, k := list, list.next, k + 1;
      }
    }

    /** hash_search without HASH_CREATE; what it finds is counted. */
    method Search(key: string) returns (list: Item?)
      requires Valid()
      modifies items, this`table
      ensures Valid() && (list != null <==> key in contents)
      ensures list != null ==> list in items && list.key == key && list.data == contents[key]
    {
      hide Represents, Find, HashString, Home, Chains;
      if nentries == 0 {
        assert contents == map[];
        return null;
      }
      var b, prev, found, k := Walk(key);
      list := found;
      if list != null {
        Change(table, contents, key, list.AsEntry().(timesFound := ToInt(list.timesFound + 1)));
        Apart(chains, table, items, contents, b, k);
        table := Write(list, list.data, ToInt(list.timesFound + 1), b, k, chains, table, items);
        assert contents[key := list.data] == contents;
      }
    }

    /** The caller stores data through the item it was given. */
    method Store(key: string, data: Data)
      requires Valid() && key in contents
      modifies items, this`table, this`contents
      ensures Valid() && contents == old(contents)[key := data]
    {
      hide Represents, Find, HashString, Home, Chains;
      var b, prev, list, k := Walk(key);
      Change(table, contents, key, list.AsEntry().(data := data));
      Apart(chains, table, items, contents, b, k);
      table := Write(list, data, list.timesFound, b, k, chains, table, items);
      contents := contents[key := data];
      assert contents.Keys == old(contents).Keys;
      assert |contents.Keys| == |contents| && |old(contents).Keys| == |old(contents)|;
    }

    /** hash_rehash: every item is relinked into the bucket its cached hash selects in the new array. */
    method Rehash(nsize: int)
      requires Valid() && 0 < nsize <= INT_MAX
      modifies this`buckets, this`chains, this`table, items`next
      ensures Valid() && buckets.Length == nsize && (buckets == old(buckets) || fresh(buckets))
    {
      hide Represents, Chains, Entries;
      if nsize == buckets.Length {
        return;
      }
      var was := buckets;
      buckets := new Item?[nsize](_ => null);
      chains, table := MoveAll(was, buckets, chains, table, contents, items);
    }

    method Grow()
      requires Valid()
      modifies this`buckets, this`chains, this`table, items`next
      ensures Valid() && (buckets == old(buckets) || fresh(buckets))
      ensures REHASH_MULTIPLIER * old(buckets.Length) <= INT_MAX ==> buckets.Length == REHASH_MULTIPLIER * old(buckets.Length)
    {
      hide Represents, Chains;
      var nsize := ToInt(buckets.Length * REHASH_MULTIPLIER);
      if nsize > 0 {
        Rehash(nsize);
      }
    }

    /** A new item for a key that has none, in a table that grows first if it is full. The
        table keeps at most two entries a bucket as long as the sizes fit an int. */
    method Add(key: string) returns (item: Item)
      requires Valid() && key !in contents && nentries < INT_MAX
      modifies this, buckets, items
      ensures Valid() && contents == old(contents)[key := None] && (buckets == old(buckets) || fresh(buckets))
      ensures fresh(item) && items == old(items) + {item} && item.key == key && item.data == None
      ensures Roomy(old(nentries), old(buckets.Length)) ==> nentries <= REHASH_FACTOR * buckets.Length
    {
      hide Represents, Chains, Entries;
      Inhabited(table, contents);
      if nentries >= ToInt(buckets.Length * REHASH_FACTOR) {
        Grow();
      }
      item := PutFirst(key);
    }

    method PutFirst(key: string) returns (item: Item)
      requires Valid() && key !in contents && nentries < INT_MAX
      modifies this, buckets
      ensures Valid() && contents == old(contents)[key := None] && buckets == old(buckets) && nentries == old(nentries) + 1
      ensures fresh(item) && items == old(items) + {item} && item.key == key && item.data == None
    {
      hide Represents, Find, HashString, Masked, Chains, Entries;
      Inhabited(table, contents);
      var hv := HashLoop(key);
      item := new Item(Entry(key, None, hv, 0), null);
      Prepend(table, contents, item.AsEntry());
      Absent(chains, table, items, contents, item);
      More(buckets[..], chains, table, items, item);
      items := items + {item};
      chains, table := Link(buckets, Masked(hv, buckets.Length), item, chains, table, items);
      contents := contents[key := None];
      nentries := nentries + 1;
    }

    /** hash_insert. HASH_NOSRCH is for callers who know that the key is absent. There is no
        answer when the count of entries would leave the range of an int. */
    method Insert(key: string, nosrch: bool) returns (item: Item?)
      requires Valid() && (nosrch ==> key !in contents)
      modifies this, buckets, items
      ensures Valid() && (item == null <==> key !in old(contents) && |old(contents)| == INT_MAX)
      ensures contents == if key in old(contents) || item == null then old(contents) else old(contents)[key := None]
      ensures item != null ==> item in items && item.key == key && item.data == contents[key]
      ensures (buckets == old(buckets) || fresh(buckets)) && forall x <- items :: x in old(items) || fresh(x)
      ensures Roomy(old(nentries), old(buckets.Length)) ==> nentries <= REHASH_FACTOR * buckets.Length
    {
      hide Represents, Chains;
      item := null;
      if !nosrch {
        item := Search(key);
      }
      if item == null && nentries < INT_MAX {
        item := Add(key);
      }
    }

    /** hash_search with HASH_CREATE. */
    method SearchOrCreate(key: string) returns (item: Item?)
      requires Valid()
      modifies this, buckets, items
      ensures Valid() && (item == null <==> key !in old(contents) && |old(contents)| == INT_MAX)
      ensures contents == if key in old(contents) || item == null then old(contents) else old(contents)[key := None]
      ensures item != null ==> item in items && item.key == key && item.data == contents[key]
      ensures (buckets == old(buckets) || fresh(buckets)) && forall x <- items :: x in old(items) || fresh(x)
      ensures Roomy(old(nentries), old(buckets.Length)) ==> nentries <= REHASH_FACTOR * buckets.Length
    {
      item := Insert(key, false);
    }

    /** hash_remove: the item is unlinked and handed back. */
    method Remove(key: string) returns (item: Item?)
      requires Valid()
      modifies this, buckets, items`next
      ensures Valid() && buckets == old(buckets) && contents == old(contents) - {key}
      ensures item != null <==> key in old(contents)
      ensures item != null ==> item in old(items) && item.key == key && item.data == old(contents)[key]
      ensures items == old(items) - {item}
    {
      hide Represents, Find, HashString, Home, Chains, Entries;
      item := null;
      if nentries == 0 {
        assert contents == map[];
        return;
      }
      var b, prev, list, k := Walk(key);
      item := list;
      if item != null {
        Take(b, prev, item, k);
      }
    }

    method Take(b: nat, prev: Item?, item: Item, ghost k: nat)
      requires Valid() && item.key in contents && b == Home(item.key, |table|) < |chains| && k == Find(table[b], item.key) < |chains[b]|
      requires item == chains[b][k] && prev == if k == 0 then null else chains[b][k - 1]
      modifies this, buckets, items`next
      ensures Valid() && buckets == old(buckets) && contents == old(contents) - {item.key} && items == old(items) - {item}
    {
      hide Represents, Find, HashString, Home, Chains, Entries, OnlyAt;
      TakeOut(table, contents, item.key);
      RemoveSize(contents, item.key);
      Apart(chains, table, items, contents, b, k);
      if k > 0 {
        Apart(chains, table, items, contents, b, k - 1);
      }
      Without(chains, table, items, b, k);
      table := table[b := table[b][..k] + table[b][k + 1..]];
      chains := Unlink(buckets, b, prev, item, k, chains, items);
      items := items - {item};
      contents := contents - {item.key};
      nentries := nentries - 1;
    }

    lemma RemoveSize(m: map<string, Data>, key: string)
      requires key in m
      ensures |m - {key}| == |m| - 1
    {
      assert m.Keys == (m - {key}).Keys + {key};
      assert |m.Keys| == |m| && |(m - {key}).Keys| == |m - {key}|;
    }

    /** nentries is the length of all chains together. */
    lemma EntriesCounted()
      requires Valid()
      ensures nentries == Lengths(table)
    {
      hide Represents, Lengths;
      TotalLength(table, contents);
    }

    method Flush()
      requires Valid()
      modifies this, buckets
      ensures Valid() && contents == map[] && buckets == old(buckets)
    {
      if nentries == 0 {
        assert contents == map[];
        return;
      }
      var t := buckets;
      for i := 0 to t.Length
        invariant forall b :: 0 <= b < i ==> t[b] == null
        modifies t
      {
        t[i] := null;
      }
      nentries, contents, items := 0, map[], {};
      chains, table := seq(t.Length, _ => []), seq(t.Length, _ => []);
      EmptyRepresents(table);
    }

    /** hash_copy, the data copied by cp. */
    method Copy(cp: string -> string) returns (c: Table)
      requires Valid()
      ensures fresh(c) && fresh(c.buckets) && fresh(c.items) && c.Valid() && c.buckets.Length == buckets.Length
      ensures c.contents == CopyMap(contents, cp)
    {
      hide Represents, Chains, Entries, CopyMap, CopyChain;
      Inhabited(table, contents);
      c := new Table(buckets.Length);
      ghost var cc, ct, ci := CopyBuckets(buckets, c.buckets, cp, chains, table, items);
      CopyRepresents(table, ct, contents, cp);
      Bucket(c.buckets[..], cc, ct, ci, 0);
      c.nentries := nentries;
      c.contents, c.chains, c.table, c.items := CopyMap(contents, cp), cc, ct, ci;
    }
  }

  /** In a table that represents a map an item stands at one place only. */
  lemma Apart(chains: seq<seq<Item>>, table: seq<seq<Entry>>, items: set<Item>, m: map<string, Data>, b: nat, k: nat)
    requires Entries(chains, table, items) && Represents(table, m) && b < |chains| && k < |chains[b]|
    ensures OnlyAt(chains, chains[b][k], b, k)
  {
    hide Home, HashString, Find;
    forall c, i | 0 <= c < |chains| && 0 <= i < |chains[c]| && chains[c][i] == chains[b][k]
      ensures c == b && i == k
    {
      assert Holding(chains[b], table[b], items) && Holding(chains[c], table[c], items);
      assert Holds(table[b], b, |table|, m) && Holds(table[c], c, |table|, m);
    }
  }

  /** An item whose key a table does not have is in none of its chains. */
  lemma Absent(chains: seq<seq<Item>>, table: seq<seq<Entry>>, items: set<Item>, m: map<string, Data>, item: Item)
    requires Entries(chains, table, items) && Represents(table, m) && item.key !in m
    ensures forall b, k :: 0 <= b < |chains| && 0 <= k < |chains[b]| ==> chains[b][k] != item
  {
    hide Home, HashString, Find;
    forall b, k | 0 <= b < |chains| && 0 <= k < |chains[b]|
      ensures chains[b][k] != item
    {
      assert Holding(chains[b], table[b], items) && Holds(table[b], b, |table|, m);
    }
  }

  lemma More(heads: seq<Item?>, chains: seq<seq<Item>>, table: seq<seq<Entry>>, items: set<Item>, item: Item)
    requires Chains(heads, chains, items) && Entries(chains, table, items)
    ensures Chains(heads, chains, items + {item}) && Entries(chains, table, items + {item})
  {
    forall b | 0 <= b < |chains|
      ensures Linked(heads[b], chains[b], items + {item}) && Holding(chains[b], table[b], items + {item})
    {
      assert Linked(heads[b], chains[b], items) && Holding(chains[b], table[b], items);
    }
  }

  /** One item gets other data or another count. */
  method Write(item: Item, data: Data, timesFound: int, ghost b: nat, ghost k: nat,
               ghost chains: seq<seq<Item>>, ghost table: seq<seq<Entry>>, ghost items: set<Item>)
    returns (ghost table1: seq<seq<Entry>>)
    requires Entries(chains, table, items) && b < |chains| && k < |chains[b]| && item == chains[b][k] && OnlyAt(chains, item, b, k)
    modifies item`data, item`timesFound
    ensures |table[b]| == |chains[b]| && item.data == data
    ensures table1 == table[b := table[b][k := table[b][k].(data := data, timesFound := timesFound)]]
    ensures Entries(chains, table1, items)
  {
    assert Holding(chains[b], table[b], items);
    item.data, item.timesFound := data, timesFound;
    table1 := table[b := table[b][k := item.AsEntry()]];
    forall c | 0 <= c < |chains|
      ensures Holding(chains[c], table1[c], items)
    {
      assert old(Holding(chains[c], table[c], items));
    }
  }

  /** An item becomes the first of a bucket. */
  method Link(t: array<Item?>, b: nat, item: Item, ghost chains: seq<seq<Item>>, ghost table: seq<seq<Entry>>, ghost items: set<Item>)
    returns (ghost chains1: seq<seq<Item>>, ghost table1: seq<seq<Entry>>)
    requires b < t.Length && Chains(t[..], chains, items) && Entries(chains, table, items) && item in items
    requires forall c, k :: 0 <= c < |chains| && 0 <= k < |chains[c]| ==> chains[c][k] != item
    modifies t, item`next
    ensures t[..] == old(t[..])[b := item] && item.next == old(t[b])
    ensures chains1 == chains[b := [item] + chains[b]] && table1 == table[b := [item.AsEntry()] + table[b]]
    ensures Chains(t[..], chains1, items) && Entries(chains1, table1, items)
  {
    hide Holding, Entries;
    Front(chains, table, items, b, item);
    item.next := t[b];
    t[b] := item;
    chains1, table1 := chains[b := [item] + chains[b]], table[b := [item.AsEntry()] + table[b]];
    forall c | 0 <= c < |chains1|
      ensures Linked(t[..][c], chains1[c], items)
    {
      assert old(Linked(t[..][c], chains[c], items));
    }
  }

  lemma Front(chains: seq<seq<Item>>, table: seq<seq<Entry>>, items: set<Item>, b: nat, item: Item)
    requires Entries(chains, table, items) && b < |chains| && item in items
    ensures |table| == |chains|
    ensures Entries(chains[b := [item] + chains[b]], table[b := [item.AsEntry()] + table[b]], items)
  {
    assert Holding(chains[b], table[b], items);
  }

  /** What stands before an item is linked to what stands behind it. */
  method Unlink(buckets: array<Item?>, b: nat, prev: Item?, item: Item, ghost k: nat, ghost chains: seq<seq<Item>>, ghost items: set<Item>)
    returns (ghost chains1: seq<seq<Item>>)
    requires Chains(buckets[..], chains, items) && b < |chains| && k < |chains[b]| && item == chains[b][k]
    requires prev == (if k == 0 then null else chains[b][k - 1]) && (prev == null || OnlyAt(chains, prev, b, k - 1))
    requires OnlyAt(chains, item, b, k)
    modifies buckets, items`next
    ensures chains1 == chains[b := chains[b][..k] + chains[b][k + 1..]] && Chains(buckets[..], chains1, items - {item})
  {
    assert Linked(buckets[..][b], chains[b], items);
    if prev != null {
      prev.next := item.next;
    } else {
      buckets[b] := item.next;
    }
    ghost var cut := chains[b][..k] + chains[b][k + 1..];
    assert forall i :: 0 <= i < |cut| ==> cut[i] == chains[b][if i < k then i else i + 1];
    chains1 := chains[b := cut];
    forall c | 0 <= c < |chains1|
      ensures Linked(buckets[..][c], chains1[c], items - {item})
    {
      assert old(Linked(buckets[..][c], chains[c], items));
    }
  }

  /** The entries of the chains when one item is left out. */
  lemma Without(chains: seq<seq<Item>>, table: seq<seq<Entry>>, items: set<Item>, b: nat, k: nat)
    requires Entries(chains, table, items) && b < |chains| && k < |chains[b]| && OnlyAt(chains, chains[b][k], b, k)
    ensures |table[b]| == |chains[b]|
    ensures Entries(chains[b := chains[b][..k] + chains[b][k + 1..]], table[b := table[b][..k] + table[b][k + 1..]], items - {chains[b][k]})
  {
    assert Holding(chains[b], table[b], items);
    var c1, t1 := chains[b][..k] + chains[b][k + 1..], table[b][..k] + table[b][k + 1..];
    assert forall i :: 0 <= i < |c1| ==> c1[i] == chains[b][if i < k then i else i + 1] && t1[i] == table[b][if i < k then i else i + 1];
    forall c {:trigger chains[b := c1][c]} | 0 <= c < |chains|
      ensures Holding(chains[b := c1][c], table[b := t1][c], items - {chains[b][k]})
    {
      assert Holding(chains[c], table[c], items);
    }
  }

  /** The chains from number j on are linked as they were. */
  ghost predicate Remain(heads: seq<Item?>, chains: seq<seq<Item>>, items: set<Item>, j: nat)
    reads items`next
  {
    |heads| == |chains| && forall b {:trigger chains[b]} :: j <= b < |chains| ==> Linked(heads[b], chains[b], items)
  }

  lemma FirstRemains(heads: seq<Item?>, chains: seq<seq<Item>>, table: seq<seq<Entry>>, items: set<Item>, j: nat)
    requires Remain(heads, chains, items, j) && Entries(chains, table, items) && j < |chains|
    ensures j < |table| == |heads| && Linked(heads[j], chains[j], items) && Holding(chains[j], table[j], items) && Remain(heads, chains, items, j + 1)
  {
  }

  /** The loops of hash_rehash, from the old array into the new one. */
  method MoveAll(was: array<Item?>, t: array<Item?>, ghost oc: seq<seq<Item>>, ghost ot: seq<seq<Entry>>,
                 ghost m: map<string, Data>, ghost items: set<Item>)
    returns (ghost nc: seq<seq<Item>>, ghost nt: seq<seq<Entry>>)
    requires Chains(was[..], oc, items) && Entries(oc, ot, items) && Represents(ot, m)
    requires t != was && t.Length > 0 && forall b :: 0 <= b < t.Length ==> t[b] == null
    modifies t, items`next
    ensures Chains(t[..], nc, items) && Entries(nc, nt, items) && Represents(nt, m) && |nc| == |nt| == t.Length
  {
    hide Represents, Done, Chains, Entries, Remain;
    ghost var w := was[..];
    nc, nt := seq(t.Length, _ => []), seq(t.Length, _ => []);
    EmptyRepresents(nt);
    DoneEnds(ot, m);
    Bucket(w, oc, ot, items, 0);
    RehashStarts(w, oc, t[..], nc, nt, items);
    for j := 0 to was.Length
      invariant was[..] == w && Remain(w, oc, items, j)
      invariant |nt| == t.Length && Chains(t[..], nc, items) && Entries(nc, nt, items) && Represents(nt, Done(ot, m, j, 0))
    {
      nc, nt := Move(t, was[j], j, w, oc, ot, m, nc, nt, items);
      DoneChain(ot, m, j);
    }
    Bucket(t[..], nc, nt, items, 0);
  }

  lemma RehashStarts(heads: seq<Item?>, chains: seq<seq<Item>>, t: seq<Item?>, nc: seq<seq<Item>>, nt: seq<seq<Entry>>, items: set<Item>)
    requires Chains(heads, chains, items) && |t| == |nc| == |nt|
    requires forall b :: 0 <= b < |t| ==> t[b] == null && nc[b] == [] && nt[b] == []
    ensures Remain(heads, chains, items, 0) && Chains(t, nc, items) && Entries(nc, nt, items)
  {
  }

  /** The inner loop of hash_rehash: the items of one chain are relinked into the new table. */
  method Move(t: array<Item?>, first: Item?, ghost j: nat, ghost heads: seq<Item?>, ghost oc: seq<seq<Item>>, ghost ot: seq<seq<Entry>>,
              ghost m: map<string, Data>, ghost nc: seq<seq<Item>>, ghost nt: seq<seq<Entry>>, ghost items: set<Item>)
    returns (ghost nc1: seq<seq<Item>>, ghost nt1: seq<seq<Entry>>)
    requires Entries(oc, ot, items) && Represents(ot, m) && Remain(heads, oc, items, j) && j < |oc| && first == heads[j]
    requires |nt| == t.Length && Chains(t[..], nc, items) && Entries(nc, nt, items) && Represents(nt, Done(ot, m, j, 0))
    modifies t, items`next
    ensures Remain(heads, oc, items, j + 1)
    ensures |nt1| == t.Length && Chains(t[..], nc1, items) && Entries(nc1, nt1, items) && Represents(nt1, Done(ot, m, j, |ot[j]|))
  {
    hide Represents, Done, Masked, Find, HashString, Entries;
    nc1, nt1 := nc, nt;
    ghost var chain, i := oc[j], 0;
    FirstRemains(heads, oc, ot, items, j);
    var item := first;
    while item != null
      invariant i <= |chain| && item == At(chain, i) && |nt1| == t.Length && Remain(heads, oc, items, j + 1)
      invariant forall k {:trigger chain[k]} :: i <= k < |chain| ==> chain[k].next == At(chain, k + 1)
      invariant Chains(t[..], nc1, items) && Entries(nc1, nt1, items) && Represents(nt1, Done(ot, m, j, i))
      decreases |chain| - i
    {
      ghost var e := item.AsEntry();
      MovesOn(ot, m, j, i, nt1);
      Absent(nc1, nt1, items, Done(ot, m, j, i), item);
      Apart(oc, ot, items, m, j, i);
      var next := item.next;
      nc1, nt1 := Link(t, Masked(item.khash, t.Length), item, nc1, nt1, items);
      item, i := next, i + 1;
    }
  }

  /** A new last item, linked in behind the old one. */
  method PutLast(n: Item?, e: Entry, ghost chain: seq<Item>, ghost entries: seq<Entry>, ghost items: set<Item>)
    returns (x: Item)
    requires Linked(At(chain, 0), chain, items) && Holding(chain, entries, items) && NoneTwice(chain)
    requires n == if chain == [] then null else chain[|chain| - 1]
    modifies items`next
    ensures fresh(x) && NoneTwice(chain + [x])
    ensures Linked(At(chain + [x], 0), chain + [x], items + {x}) && Holding(chain + [x], entries + [e], items + {x})
  {
    x := new Item(e, null);
    if n != null {
      n.next := x;
    }
  }

  ghost predicate NoneTwice(chain: seq<Item>)
  {
    forall i, j :: 0 <= i < j < |chain| ==> chain[i] != chain[j]
  }

  /** copy_bucket_array: one chain, item by item, in order, each linked in behind the last. */
  method CopyBucket(ba: Item?, cp: string -> string, ghost chain: seq<Item>, ghost entries: seq<Entry>, ghost items: set<Item>)
    returns (bucket: Item?, ghost copied: seq<Item>)
    requires Linked(ba, chain, items) && Holding(chain, entries, items)
    ensures fresh(set x <- copied)
    ensures Linked(bucket, copied, set x <- copied) && Holding(copied, CopyChain(entries, cp), set x <- copied)
  {
    hide CopyChain, CopyEntry, NoneTwice, Linked;
    bucket, copied := null, [];
    var n, e := null, ba;
    ghost var all, wanted := {}, CopyChain(entries, cp);
    CopyAt(entries, cp, 0);
    Start();
    Next(ba, chain, entries, items, 0);
    while e != null
      invariant |copied| <= |chain| == |wanted| && e == At(chain, |copied|) && bucket == At(copied, 0)
      invariant n == (if copied == [] then null else copied[|copied| - 1])
      invariant all == (set x <- copied) && fresh(all) && NoneTwice(copied)
      invariant Linked(bucket, copied, all) && Holding(copied, wanted[..|copied|], all)
      decreases |chain| - |copied|
    {
      ghost var i := |copied|;
      CopyAt(entries, cp, i);
      Next(ba, chain, entries, items, i);
      var x := PutLast(n, CopyEntry(e.AsEntry(), cp), copied, wanted[..i], all);
      if n == null {
        bucket := x;
      }
      assert wanted[..i + 1] == wanted[..i] + [wanted[i]];
      copied, all := copied + [x], all + {x};
      n, e := x, e.next;
    }
    assert wanted[..|chain|] == wanted;
  }

  lemma Start()
    ensures Linked(null, [], {}) && Holding([], [], {}) && NoneTwice([])
  {
  }

  lemma Next(p: Item?, chain: seq<Item>, entries: seq<Entry>, items: set<Item>, i: nat)
    requires Linked(p, chain, items) && Holding(chain, entries, items)
    ensures p == At(chain, 0) && |entries| == |chain|
    ensures i < |chain| ==> chain[i].next == At(chain, i + 1) && chain[i].AsEntry() == entries[i]
  {
  }

  method CopyBuckets(buckets: array<Item?>, t: array<Item?>, cp: string -> string,
                     ghost chains: seq<seq<Item>>, ghost table: seq<seq<Entry>>, ghost items: set<Item>)
    returns (ghost cc: seq<seq<Item>>, ghost ct: seq<seq<Entry>>, ghost ci: set<Item>)
    requires Chains(buckets[..], chains, items) && Entries(chains, table, items) && t.Length == buckets.Length && t != buckets
    modifies t
    ensures fresh(ci) && Chains(t[..], cc, ci) && Entries(cc, ct, ci)
    ensures |ct| == |table| && forall b :: 0 <= b < |table| ==> ct[b] == CopyChain(table[b], cp)
  {
    hide CopyChain, Linked, Holding, Entries, Chains;
    Bucket(buckets[..], chains, table, items, 0);
    NoBuckets();
    cc, ct, ci := [], [], {};
    for i := 0 to buckets.Length
      invariant fresh(ci) && |cc| == |ct| == i && Chains(t[..i], cc, ci) && Entries(cc, ct, ci)
      invariant Chains(buckets[..], chains, items) && Entries(chains, table, items)
      invariant forall b :: 0 <= b < i ==> ct[b] == CopyChain(table[b], cp)
    {
      Bucket(buckets[..], chains, table, items, i);
      var bucket, copied := CopyBucket(buckets[i], cp, chains[i], table[i], items);
      t[i] := bucket;
      Append(t[..i], cc, ct, ci, bucket, copied, CopyChain(table[i], cp), set x <- copied);
      assert t[..i + 1] == t[..i] + [bucket];
      cc, ct, ci := cc + [copied], ct + [CopyChain(table[i], cp)], ci + set x <- copied;
    }
    assert t[..t.Length] == t[..];
  }

  lemma Bucket(heads: seq<Item?>, chains: seq<seq<Item>>, table: seq<seq<Entry>>, items: set<Item>, b: nat)
    requires Chains(heads, chains, items) && Entries(chains, table, items)
    ensures |heads| == |chains| == |table|
    ensures b < |chains| ==> Linked(heads[b], chains[b], items) && Holding(chains[b], table[b], items)
  {
  }

  lemma NoBuckets()
    ensures Chains([], [], {}) && Entries([], [], {})
  {
  }

  lemma Append(heads: seq<Item?>, chains: seq<seq<Item>>, table: seq<seq<Entry>>, items: set<Item>,
               p: Item?, chain: seq<Item>, entries: seq<Entry>, more: set<Item>)
    requires Chains(heads, chains, items) && Entries(chains, table, items)
    requires Linked(p, chain, more) && Holding(chain, entries, more)
    ensures Chains(heads + [p], chains + [chain], items + more) && Entries(chains + [chain], table + [entries], items + more)
  {
    var cc := chains + [chain];
    forall b | 0 <= b < |cc|
      ensures Linked((heads + [p])[b], cc[b], items + more) && Holding(cc[b], (table + [entries])[b], items + more)
    {
      assert b < |chains| ==> Linked(heads[b], chains[b], items) && Holding(chains[b], table[b], items);
    }
  }

  /** At most two entries a bucket, and growing does not overflow. */
  predicate Roomy(nentries: int, nbuckets: int)
  {
    nentries <= REHASH_FACTOR * nbuckets && REHASH_MULTIPLIER * nbuckets <= INT_MAX
  }
}
