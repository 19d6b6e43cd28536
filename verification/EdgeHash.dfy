/**
 The hash table of `olden_mst/src/hash.c`: an array of buckets, each a linked chain of entries.
 A key may be inserted more than once, so the table stands for a stack of entries per key:
 insertion pushes, lookup reads the top (0 if there is none) and deletion pops.
 */
module EdgeHash {
  class HashEntry {
    const key: nat
    const entry: int
    var next: HashEntry?

    constructor (key: nat, entry: int, next: HashEntry?)
      ensures this.key == key && this.entry == entry && this.next == next
    {
      this.key, this.entry, this.next := key, entry, next;
    }
  }

  /** What one node files under the key. */
  ghost function Share(x: HashEntry, key: nat): seq<int> {
    if x.key == key then [x.entry] else []
  }

  /** The entries with a key in a chain, first to last. */
  ghost function Filed(c: seq<HashEntry>, key: nat): seq<int> {
    if c == [] then [] else Share(c[0], key) + Filed(c[1..], key)
  }

  lemma {:induction false} FiledSplit(a: seq<HashEntry>, b: seq<HashEntry>, key: nat)
    ensures Filed(a + b, key) == Filed(a, key) + Filed(b, key)
  {
    if a == [] {
      assert a + b == b;
    } else {
      FiledSplit(a[1..], b, key);
      FiledOne(a, key);
      FiledOne(a + b, key);
      hide Filed;
      assert (a + b)[0] == a[0] && (a + b)[1..] == a[1..] + b;
      Associated(Share(a[0], key), Filed(a[1..], key), Filed(b, key));
    }
  }

  lemma FiledOne(c: seq<HashEntry>, key: nat)
    requires c != []
    ensures Filed(c, key) == Share(c[0], key) + Filed(c[1..], key)
  {
  }

  lemma Associated(x: seq<int>, y: seq<int>, z: seq<int>)
    ensures x + (y + z) == x + y + z
  {
  }

  lemma {:induction false} FiledNone(c: seq<HashEntry>, key: nat)
    requires forall k :: 0 <= k < |c| ==> c[k].key != key
    ensures Filed(c, key) == []
  {
    if c != [] { FiledNone(c[1..], key); }
  }

  /** The first entry with the key is the top of the stack, and taking it out of the chain pops it. */
  lemma FiledFirst(c: seq<HashEntry>, k: nat, key: nat)
    requires k < |c| && c[k].key == key && forall i :: 0 <= i < k ==> c[i].key != key
    ensures Filed(c, key) == [c[k].entry] + Filed(c[..k] + c[k + 1..], key)
    ensures forall other :: other != key ==> Filed(c[..k] + c[k + 1..], other) == Filed(c, other)
  {
    assert c == c[..k] + ([c[k]] + c[k + 1..]);
    FiledNone(c[..k], key);
    FiledSplit(c[..k], c[k + 1..], key);
    FiledSplit(c[..k], [c[k]] + c[k + 1..], key);
    assert ([c[k]] + c[k + 1..])[1..] == c[k + 1..];
    forall other | other != key ensures Filed(c[..k] + c[k + 1..], other) == Filed(c, other) {
      FiledSplit(c[..k], c[k + 1..], other);
      FiledSplit(c[..k], [c[k]] + c[k + 1..], other);
    }
  }

  /** The nodes of `c` are linked from `p` on. */
  ghost predicate Chained(p: HashEntry?, c: seq<HashEntry>)
    reads c
  {
    && p == (if c == [] then null else c[0])
    && forall k :: 0 <= k < |c| ==> c[k].next == (if k + 1 < |c| then c[k + 1] else null)
  }

  lemma ChainIs(p: HashEntry?, c: seq<HashEntry>)
    requires p == (if c == [] then null else c[0])
    requires forall k :: 0 <= k < |c| ==> c[k].next == (if k + 1 < |c| then c[k + 1] else null)
    ensures Chained(p, c)
  {
  }

  lemma ChainedAt(p: HashEntry?, c: seq<HashEntry>, k: nat)
    requires Chained(p, c) && k < |c|
    ensures c[k].next == if k + 1 < |c| then c[k + 1] else null
  {
  }

  /** The links of a chain, seen from the chain without place `k`. */
  lemma ChainWithout(p: HashEntry?, c: seq<HashEntry>, k: nat, d: seq<HashEntry>)
    requires Chained(p, c) && k < |c| && d == c[..k] + c[k + 1..]
    ensures c[k].next == (if k < |d| then d[k] else null)
    ensures k > 0 ==> p == d[0]
    ensures forall i :: 0 <= i < |d| && i != k - 1 ==> d[i].next == if i + 1 < |d| then d[i + 1] else null
  {
    assert forall i :: 0 <= i < |d| ==> d[i] == if i < k then c[i] else c[i + 1];
    ChainedAt(p, c, k);
    assert k > 0 ==> d[0] == c[0];
    forall i | 0 <= i < |d| && i != k - 1 ensures d[i].next == if i + 1 < |d| then d[i + 1] else null {
      ChainedAt(p, c, if i < k then i else i + 1);
    }
  }

  /** Every entry is in the bucket of its key, once. */
  ghost predicate Placed(chains: seq<seq<HashEntry>>, entries: set<HashEntry>, mapfunc: nat -> nat) {
    && (forall j, k :: 0 <= j < |chains| && 0 <= k < |chains[j]| ==>
          chains[j][k] in entries && mapfunc(chains[j][k].key) == j)
    && (forall j, k, l :: 0 <= j < |chains| && 0 <= k < l < |chains[j]| ==> chains[j][k] != chains[j][l])
  }

  lemma PlacedWithout(chains: seq<seq<HashEntry>>, entries: set<HashEntry>, mapfunc: nat -> nat, j: nat, k: nat)
    requires Placed(chains, entries, mapfunc) && j < |chains| && k < |chains[j]|
    ensures Placed(chains[j := chains[j][..k] + chains[j][k + 1..]], entries, mapfunc)
    ensures k > 0 ==> forall i :: 0 <= i < |chains| && i != j ==> chains[j][k - 1] !in chains[i]
    ensures forall i :: 0 <= i < |chains[j]| ==> chains[j][i] in entries && (i != k - 1 ==> k > 0 ==> chains[j][i] != chains[j][k - 1])
  {
  }

  class Hash {
    const size: nat
    const mapfunc: nat -> nat
    const buckets: array<HashEntry?>
    ghost var chains: seq<seq<HashEntry>>
    ghost var entries: set<HashEntry>

    ghost predicate Valid()
      reads this, buckets, entries
    {
      && buckets.Length == size == |chains| && (forall key :: mapfunc(key) < size)
      && Placed(chains, entries, mapfunc)
      && (forall j :: 0 <= j < size ==> Chained(buckets[j], chains[j]))
    }

    /** The entries filed under a key, newest first. */
    ghost function Stack(key: nat): seq<int>
      requires Valid()
      reads this, buckets, entries
    {
      Filed(chains[mapfunc(key)], key)
    }

    /** What a lookup finds. */
    ghost function Top(key: nat): int
      requires Valid()
      reads this, buckets, entries
    {
      if Stack(key) == [] then 0 else Stack(key)[0]
    }

    /** `MakeHash`. */
    constructor (size: nat, map_: nat -> nat)
      requires forall key :: map_(key) < size
      ensures Valid() && this.size == size && mapfunc == map_ && fresh(buckets) && entries == {}
      ensures forall key :: Stack(key) == []
    {
      this.size := size;
      mapfunc := map_;
      buckets := new HashEntry?[size](_ => null);
      chains := seq(size, _ => []);
      entries := {};
    }

    /** `HashLookup`. */
    method HashLookup(key: nat) returns (entry: int)
      requires Valid()
      ensures entry == Top(key)
    {
      var j := mapfunc(key);
      var ent := buckets[j];
      ghost var c, k := chains[j], 0;
      while ent != null && ent.key != key
        invariant Chained(buckets[j], c) && 0 <= k <= |c|
        invariant ent == (if k < |c| then c[k] else null)
        invariant forall i :: 0 <= i < k ==> c[i].key != key
        decreases |c| - k
      {
        ChainedAt(buckets[j], c, k);
        ent := ent.next;
        k := k + 1;
      }
      if ent != null {
        FiledFirst(c, k, key);
        entry := ent.entry;
      } else {
        FiledNone(c, key);
        entry := 0;
      }
    }

    /** `HashInsert`. */
    method HashInsert(entry: int, key: nat)
      requires Valid()
      modifies this, buckets
      ensures Valid() && fresh(entries - old(entries)) && old(entries) <= entries
      ensures Stack(key) == [entry] + old(Stack(key))
      ensures forall other :: other != key ==> Stack(other) == old(Stack(other))
    {
      var j := mapfunc(key);
      ghost var was, c := chains, chains[j];
      assert forall i :: 0 <= i < size ==> Chained(buckets[i], was[i]);
      var ent := new HashEntry(key, entry, buckets[j]);
      ghost var d := [ent] + c;
      buckets[j] := ent;
      chains := chains[j := d];
      entries := entries + {ent};
      assert d[1..] == c;
      FiledElsewhere(ent, c);
      forall i | 0 <= i < |d| ensures d[i].next == if i + 1 < |d| then d[i + 1] else null {
        if i > 0 { ChainedAt(ent.next, c, i - 1); }
      }
      assert Chained(buckets[j], d);
      assert forall i :: 0 <= i < size && i != j ==> Chained(buckets[i], chains[i]);
    }

    lemma FiledElsewhere(ent: HashEntry, c: seq<HashEntry>)
      ensures forall key :: Filed([ent] + c, key) == (if ent.key == key then [ent.entry] else []) + Filed(c, key)
    {
      assert ([ent] + c)[1..] == c;
    }

    /** The search in `HashDelete`, which also keeps the entry before. */
    method Locate(key: nat) returns (prev: HashEntry?, ent: HashEntry?, ghost k: nat)
      requires Valid()
      ensures var c := chains[mapfunc(key)];
        && k <= |c| && ent == (if k < |c| then c[k] else null) && (ent != null ==> ent.key == key)
        && prev == (if k == 0 then null else c[k - 1])
        && forall i :: 0 <= i < k ==> c[i].key != key
    {
      var j := mapfunc(key);
      prev, ent := null, buckets[j];
      ghost var c := chains[j];
      k := 0;
      while ent != null && ent.key != key
        invariant k <= |c| && ent == (if k < |c| then c[k] else null)
        invariant prev == (if k == 0 then null else c[k - 1])
        invariant forall i :: 0 <= i < k ==> c[i].key != key
        decreases |c| - k
      {
        ChainedAt(buckets[j], c, k);
        prev := ent;
        ent := ent.next;
        k := k + 1;
      }
    }

    /** `HashDelete`; like the original it must only be called for a key that is there. */
    method HashDelete(key: nat)
      requires Valid() && Stack(key) != []
      modifies this, buckets, entries
      ensures Valid() && entries == old(entries)
      ensures Stack(key) == old(Stack(key))[1..]
      ensures forall other :: other != key ==> Stack(other) == old(Stack(other))
    {
      var prev, ent, k := Locate(key);
      if ent == null { FiledNone(chains[mapfunc(key)], key); }
      FiledFirst(chains[mapfunc(key)], k, key);
      Unlink(mapfunc(key), prev, ent, k);
    }

    /** `*ent = (*ent)->next`, where `ent` is place `k` of bucket `j`. */
    method Unlink(j: nat, prev: HashEntry?, ent: HashEntry, ghost k: nat)
      requires Valid() && j < size && k < |chains[j]| && ent == chains[j][k]
      requires prev == if k == 0 then null else chains[j][k - 1]
      modifies this, buckets, entries
      ensures Valid() && entries == old(entries)
      ensures chains == old(chains[j := chains[j][..k] + chains[j][k + 1..]])
    {
      ghost var was, c, d := chains, chains[j], chains[j][..k] + chains[j][k + 1..];
      assert forall i :: 0 <= i < size ==> Chained(buckets[i], was[i]);
      PlacedWithout(chains, entries, mapfunc, j, k);
      hide Placed;
      ChainWithout(buckets[j], c, k, d);
      if prev == null {
        buckets[j] := ent.next;
      } else {
        prev.next := ent.next;
      }
      chains := chains[j := d];
      assert forall i :: 0 <= i < |d| ==> d[i] == if i < k then c[i] else c[i + 1];
      assert forall i :: 0 <= i < |d| && i != k - 1 ==> d[i].next == old(d[i].next);
      assert k > 0 ==> d[k - 1] == prev && prev.next == (if k < |d| then d[k] else null);
      forall i | 0 <= i < |d| ensures d[i].next == if i + 1 < |d| then d[i + 1] else null {
      }
      if k > 0 {
        assert buckets[j] == d[0] && d != [];
      } else {
        assert buckets[j] == if |d| > 0 then d[0] else null;
      }
      ChainIs(buckets[j], d);
      assert forall i :: 0 <= i < size && i != j ==> Chained(buckets[i], was[i]);
    }
  }
}
