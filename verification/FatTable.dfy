/**
 The allocation table of `fatfs/src/ff.c` as a mathematical object: a sequence
 indexed by cluster number, in which 0 means free and anything past the last
 cluster means end of chain.  Here are the laws that following, stretching and
 removing chains obey on every table, well formed or not.
 */
module FatTable {
  type Table = seq<nat>

  /** What `get_fat` answers: entry `c`, or 1 for a number that is no cluster. */
  function Lookup(t: Table, c: nat): nat {
    if 2 <= c < |t| then t[c] else 1
  }

  ghost predicate Full(t: Table) {
    forall c :: 2 <= c < |t| ==> t[c] != 0
  }

  /** No entry holds the reserved value 1, which the module takes for damage. */
  ghost predicate Sound(t: Table) {
    forall c :: 2 <= c < |t| ==> t[c] != 1
  }

  /** `cs` is a chain: linked from each cluster to the next, ended by an end mark. */
  ghost predicate IsChain(t: Table, cs: seq<nat>) {
    && cs != []
    && (forall i :: 0 <= i < |cs| ==> 2 <= cs[i] < |t|)
    && (forall i :: 0 <= i < |cs| - 1 ==> t[cs[i]] == cs[i + 1])
    && t[cs[|cs| - 1]] >= |t|
  }

  ghost predicate Distinct(s: seq<nat>) {
    forall i, j :: 0 <= i < j < |s| ==> s[i] != s[j]
  }

  /** A chain is acyclic: following links to an end mark cannot revisit a cluster. */
  lemma ChainIsAcyclic(t: Table, cs: seq<nat>)
    requires IsChain(t, cs)
    ensures Distinct(cs)
  {
    forall i, j | 0 <= i < j < |cs| ensures cs[i] != cs[j] {
      ChainNeverReturns(t, cs, i, j);
    }
  }

  lemma {:induction false} ChainNeverReturns(t: Table, cs: seq<nat>, i: nat, j: nat)
    requires IsChain(t, cs) && i < j < |cs|
    ensures cs[i] != cs[j]
    decreases |cs| - j
  {
    assert t[cs[i]] == cs[i + 1];
    if j < |cs| - 1 {
      assert t[cs[j]] == cs[j + 1];
      ChainNeverReturns(t, cs, i + 1, j + 1);
    }
  }

  // ---------- next-fit search for a free cluster ----------

  /** Is `c` visited strictly before `r` when searching upwards from `from`, with wrap-around? */
  predicate Before(from: nat, c: nat, r: nat) {
    if from < r then from < c < r else c > from || c < r
  }

  /** Every entry visited so far in the search from `from` that has reached `at` is in use. */
  ghost predicate Scanned(t: Table, from: nat, at: nat) {
    && 1 <= at < |t|
    && (at != from ==> forall c :: 2 <= c < |t| && (Before(from, c, at) || c == at) ==> t[c] > 1)
  }

  /** The first free cluster after `from`, or 0 if there is none, or 1 if a damaged entry came first. */
  ghost predicate NextFit(t: Table, from: nat, r: nat) {
    if r == 0 then Full(t)
    else if r == 1 then !Sound(t)
    else r < |t| && t[r] == 0 && forall c :: 2 <= c < |t| && Before(from, c, r) ==> t[c] > 1
  }

  /** The table after appending the free cluster `r` to `prev` (0: as a new chain). */
  function Linked(t: Table, prev: nat, r: nat, eoc: nat): (u: Table)
    requires 2 <= r < |t| && (prev == 0 || 2 <= prev < |t|)
    ensures |u| == |t|
  {
    var u := t[r := eoc];
    if prev == 0 then u else u[prev := r]
  }

  /** Number of free clusters from `lo` on. */
  ghost function FreeFrom(t: Table, lo: nat): nat
    decreases |t| - lo
  {
    if lo >= |t| then 0 else (if t[lo] == 0 then 1 else 0) + FreeFrom(t, lo + 1)
  }

  ghost function FreeCount(t: Table): nat {
    FreeFrom(t, 2)
  }

  lemma {:induction false} FreeFromUpdate(t: Table, lo: nat, c: nat, v: nat)
    requires c < |t|
    ensures FreeFrom(t[c := v], lo) ==
      FreeFrom(t, lo) + (if lo <= c && v == 0 && t[c] != 0 then 1 else if lo <= c && v != 0 && t[c] == 0 then -1 else 0)
    decreases |t| - lo
  {
    if lo < |t| {
      FreeFromUpdate(t, lo + 1, c, v);
    }
  }

  lemma {:induction false} NoFree(t: Table, lo: nat)
    ensures FreeFrom(t, lo) == 0 <==> forall c :: lo <= c < |t| ==> t[c] != 0
    ensures FreeFrom(t, lo) <= if lo <= |t| then |t| - lo else 0
    decreases |t| - lo
  {
    if lo < |t| {
      NoFree(t, lo + 1);
      if FreeFrom(t, lo) == 0 {
        forall c | lo <= c < |t| ensures t[c] != 0 { if c > lo {} }
      }
    }
  }

  /** Where `create_chain` starts searching: after the chain's end, or after the suggested cluster. */
  function SearchStart(t: Table, prev: nat, last: nat): nat {
    if prev != 0 then prev else if last == 0 || last >= |t| then 1 else last
  }

  /**
   What `create_chain(prev)` answers on table `t` and leaves as table `u`: an existing
   successor; or the first free cluster in search order, linked in and marked as the end;
   or 0 on a full table; or 1 where `prev` or an entry met on the way is damaged.
   */
  ghost predicate Stretched(t: Table, prev: nat, last: nat, eoc: nat, r: nat, u: Table) {
    if r == 0 then u == t && Full(t) && Lookup(t, prev) != 0
    else if r == 1 then u == t && ((prev != 0 && Lookup(t, prev) < 2) || !Sound(t))
    else
      && r < |t|
      && (prev != 0 ==> 2 <= prev < |t|)
      && if prev != 0 && t[prev] < |t| then r == t[prev] && u == t
         else
           && NextFit(t, SearchStart(t, prev, last), r) && u == Linked(t, prev, r, eoc)
  }

  /** Called on a cluster of a chain, `create_chain` steps to its successor or appends past the last one. */
  lemma StretchOutcome(t: Table, cs: seq<nat>, idx: int, last: nat, eoc: nat, r: nat, u: Table)
    requires if idx < 0 then idx == -1 && cs == [] else IsChain(t, cs) && idx < |cs|
    requires Stretched(t, if idx < 0 then 0 else cs[idx], last, eoc, r, u) && eoc >= |t|
    ensures idx < 0 || Lookup(t, cs[idx]) >= 2
    ensures r < 2 ==> u == t
    ensures r >= 2 && u == t ==> idx + 1 < |cs| && cs[idx + 1] == r
    ensures u != t ==>
      && idx + 1 == |cs| && 2 <= r < |t| && t[r] == 0
      && u == Linked(t, if idx < 0 then 0 else cs[idx], r, eoc)
  {
    if idx >= 0 && idx < |cs| - 1 {
      assert t[cs[idx]] == cs[idx + 1];
    }
    if r >= 2 && (idx < 0 || t[cs[idx]] >= |t|) {
      assert u[r] != 0;
    }
  }

  /**
   The cluster that is appended is the first free one in the order of numbers, from the one after the end of the chain
   on, or for a new chain from the one after the hint on if that is a cluster, and starting again from 2.
   */
  lemma StretchTakesNext(t: Table, prev: nat, last: nat, eoc: nat, r: nat, u: Table)
    requires Stretched(t, prev, last, eoc, r, u) && u != t && r >= 2
    ensures r < |t| && t[r] == 0
    ensures var s := if prev != 0 then prev else if 0 < last < |t| then last else 1;
      if s < r then forall c :: s < c < r && c >= 2 ==> t[c] != 0
      else forall c :: 2 <= c < |t| && (c > s || c < r) ==> t[c] != 0
  {
  }

  lemma StretchKeepsSound(t: Table, prev: nat, last: nat, eoc: nat, r: nat, u: Table)
    requires Stretched(t, prev, last, eoc, r, u) && Sound(t) && eoc >= 2
    ensures Sound(u) && (prev == 0 || Lookup(t, prev) >= 2 ==> r != 1)
  {
  }

  /** The same in one place, with what it means for damage and for a full table. */
  lemma StretchSteps(t: Table, cs: seq<nat>, idx: int, last: nat, eoc: nat, r: nat, u: Table)
    requires if idx < 0 then idx == -1 && cs == [] else IsChain(t, cs) && idx < |cs|
    requires Stretched(t, if idx < 0 then 0 else cs[idx], last, eoc, r, u) && eoc >= |t| >= 2
    ensures (Sound(t) ==> Sound(u) && r != 1) && (Full(t) ==> Full(u)) && (r == 0 ==> Full(u))
    ensures u == t ==> r < 2 || (idx + 1 < |cs| && cs[idx + 1] == r && 2 <= r < |t|)
    ensures u != t ==>
      && idx + 1 == |cs| && 2 <= r < |t| && t[r] == 0
      && u == Linked(t, if idx < 0 then 0 else cs[idx], r, eoc)
  {
    StretchOutcome(t, cs, idx, last, eoc, r, u);
    if Sound(t) {
      StretchKeepsSound(t, if idx < 0 then 0 else cs[idx], last, eoc, r, u);
    }
    assert Full(t) ==> u == t;
  }

  // ---------- freeing ----------

  /**
   Freeing clusters from `c` on along the links: the verdict (false: a reserved
   entry was met) and the table left behind.  Each step clears a non-zero entry,
   so this ends on a cyclic table too.
   */
  ghost function Unlink(t: Table, c: nat): (r: (bool, Table))
    requires 2 <= c < |t|
    ensures |r.1| == |t|
    decreases |t| - FreeCount(t)
  {
    NoFree(t, 2);
    FreeFromUpdate(t, 2, c, 0);
    if t[c] == 0 then (true, t)
    else if t[c] == 1 then (false, t)
    else if t[c] < |t| then Unlink(t[c := 0], t[c])
    else (true, t[c := 0])
  }

  /** `t` with every cluster of `cs` freed. */
  ghost function Cleared(t: Table, cs: seq<nat>): (u: Table)
    ensures |u| == |t|
    ensures forall c :: 0 <= c < |t| ==> u[c] == if c in cs then 0 else t[c]
  {
    seq(|t|, c requires 0 <= c < |t| => if c in cs then 0 else t[c])
  }

  /** On a chain, freeing from its head frees exactly its clusters. */
  lemma {:induction false} UnlinkChain(t: Table, cs: seq<nat>)
    requires IsChain(t, cs)
    ensures Unlink(t, cs[0]) == (true, Cleared(t, cs))
    decreases |cs|
  {
    ChainIsAcyclic(t, cs);
    var u := t[cs[0] := 0];
    if |cs| == 1 {
      assert u == Cleared(t, cs);
    } else {
      var rest := cs[1..];
      assert forall i :: 0 <= i < |rest| ==> rest[i] == cs[i + 1];
      assert IsChain(u, rest);
      UnlinkChain(u, rest);
      assert Cleared(u, rest) == Cleared(t, cs) by {
        assert forall c :: c in cs <==> c == cs[0] || c in rest;
      }
    }
  }

  /** However the table looks, freeing only ever turns entries into free ones. */
  lemma {:induction false} UnlinkOnlyFrees(t: Table, c: nat)
    requires 2 <= c < |t|
    ensures forall x :: 0 <= x < |t| ==> Unlink(t, c).1[x] == t[x] || Unlink(t, c).1[x] == 0
    ensures Sound(t) ==> Unlink(t, c).0
    ensures FreeCount(t) <= FreeCount(Unlink(t, c).1)
    decreases |t| - FreeCount(t)
  {
    NoFree(t, 2);
    FreeFromUpdate(t, 2, c, 0);
    if t[c] > 1 && t[c] < |t| {
      UnlinkOnlyFrees(t[c := 0], t[c]);
    }
  }

  // ---------- families of chains ----------

  /** Chains of a volume: each well formed, no cluster in two of them. */
  ghost predicate Family(t: Table, fs: seq<seq<nat>>) {
    && (forall i :: 0 <= i < |fs| ==> IsChain(t, fs[i]))
    && (forall i, j, x :: 0 <= i < |fs| && 0 <= j < |fs| && i != j && x in fs[i] ==> x !in fs[j])
  }

  lemma ChainUntouched(t: Table, u: Table, cs: seq<nat>)
    requires IsChain(t, cs) && |u| == |t|
    requires forall x :: x in cs ==> 0 <= x < |u| && u[x] == t[x]
    ensures IsChain(u, cs)
  {
    assert forall i :: 0 <= i < |cs| ==> cs[i] in cs;
  }

  lemma StretchChain(t: Table, cs: seq<nat>, r: nat, eoc: nat)
    requires IsChain(t, cs) && 2 <= r < |t| && t[r] == 0 && eoc >= |t|
    ensures r !in cs && IsChain(Linked(t, cs[|cs| - 1], r, eoc), cs + [r])
  {
    FreeNotInChain(t, cs, r);
    ChainIsAcyclic(t, cs);
    var u, ds := Linked(t, cs[|cs| - 1], r, eoc), cs + [r];
    assert forall j :: 0 <= j < |cs| - 1 ==> u[ds[j]] == t[cs[j]];
  }

  /** Stretching chain number `k` with a free cluster keeps every chain well formed and disjoint. */
  lemma StretchKeepsFamily(t: Table, fs: seq<seq<nat>>, k: nat, r: nat, eoc: nat)
    requires Family(t, fs) && k < |fs|
    requires 2 <= r < |t| && t[r] == 0 && eoc >= |t|
    ensures (ChainEndsInTable(t, fs[k]);
      Family(Linked(t, fs[k][|fs[k]| - 1], r, eoc), fs[k := fs[k] + [r]]))
  {
    var last := fs[k][|fs[k]| - 1];
    var u := Linked(t, last, r, eoc);
    var gs := fs[k := fs[k] + [r]];
    forall i | 0 <= i < |fs| ensures r !in fs[i] && last in fs[k] {
      FreeNotInChain(t, fs[i], r);
    }
    StretchChain(t, fs[k], r, eoc);
    forall i | 0 <= i < |gs| ensures IsChain(u, gs[i]) {
      if i != k {
        ChainUntouched(t, u, fs[i]);
      }
    }
  }

  /** A new one-cluster chain joins the family. */
  lemma CreateKeepsFamily(t: Table, fs: seq<seq<nat>>, r: nat, eoc: nat)
    requires Family(t, fs)
    requires 2 <= r < |t| && t[r] == 0 && eoc >= |t|
    ensures Family(Linked(t, 0, r, eoc), fs + [[r]])
  {
    var u := Linked(t, 0, r, eoc);
    var gs := fs + [[r]];
    forall i | 0 <= i < |fs| ensures r !in fs[i] {
      FreeNotInChain(t, fs[i], r);
    }
    forall i | 0 <= i < |gs| ensures IsChain(u, gs[i]) {
      if i < |fs| {
        ChainUntouched(t, u, fs[i]);
      }
    }
  }

  /** Cutting one chain after its first `m` clusters: both pieces are as expected. */
  lemma CutChain(t: Table, cs: seq<nat>, m: nat, eoc: nat)
    requires IsChain(t, cs) && 0 < m < |cs| && eoc >= |t|
    ensures var u := t[cs[m - 1] := eoc];
      && Unlink(u, cs[m]) == (true, Cleared(u, cs[m..]))
      && IsChain(Cleared(u, cs[m..]), cs[..m])
  {
    var tail := cs[m..];
    var u := t[cs[m - 1] := eoc];
    ChainIsAcyclic(t, cs);
    assert forall i :: 0 <= i < |tail| ==> tail[i] == cs[m + i];
    assert IsChain(u, tail);
    UnlinkChain(u, tail);
    forall j | 0 <= j < m ensures cs[j] !in tail {
    }
  }

  /** Truncating chain `k` after its first `m` clusters keeps the rest of the family. */
  lemma TruncateKeepsFamily(t: Table, fs: seq<seq<nat>>, k: nat, m: nat, eoc: nat)
    requires Family(t, fs) && k < |fs| && 0 < m < |fs[k]| && eoc >= |t|
    ensures (ChainEndsInTable(t, fs[k]);
      var u := t[fs[k][m - 1] := eoc];
      && Unlink(u, fs[k][m]) == (true, Cleared(u, fs[k][m..]))
      && Family(Cleared(u, fs[k][m..]), fs[k := fs[k][..m]]))
  {
    var cs, tail := fs[k], fs[k][m..];
    var v := Cleared(t[cs[m - 1] := eoc], tail);
    CutChain(t, cs, m, eoc);
    var gs := fs[k := cs[..m]];
    forall i | 0 <= i < |gs| && i != k ensures IsChain(v, gs[i]) {
      forall x | x in fs[i] ensures 0 <= x < |v| && v[x] == t[x] {
        assert x !in cs;
      }
      ChainUntouched(t, v, fs[i]);
    }
    forall i, x | 0 <= i < |gs| && x in gs[i] ensures x in fs[i] {
    }
  }

  /** Removing chain `k` whole frees its clusters and leaves the others. */
  lemma RemoveKeepsFamily(t: Table, fs: seq<seq<nat>>, k: nat)
    requires Family(t, fs) && k < |fs|
    ensures (ChainEndsInTable(t, fs[k]);
      && Unlink(t, fs[k][0]) == (true, Cleared(t, fs[k]))
      && Family(Cleared(t, fs[k]), fs[..k] + fs[k + 1..]))
  {
    UnlinkChain(t, fs[k]);
    var v := Cleared(t, fs[k]);
    var gs := fs[..k] + fs[k + 1..];
    forall i | 0 <= i < |gs| ensures IsChain(v, gs[i]) {
      var i' := if i < k then i else i + 1;
      assert gs[i] == fs[i'];
      ChainUntouched(t, v, fs[i']);
    }
    forall i, j, x | 0 <= i < |gs| && 0 <= j < |gs| && i != j && x in gs[i] ensures x !in gs[j] {
      var i', j' := if i < k then i else i + 1, if j < k then j else j + 1;
      assert gs[i] == fs[i'] && gs[j] == fs[j'];
    }
  }

  lemma FreeNotInChain(t: Table, cs: seq<nat>, r: nat)
    requires IsChain(t, cs) && r < |t| && t[r] == 0
    ensures r !in cs
  {
    forall i | 0 <= i < |cs| ensures cs[i] != r {
      if i < |cs| - 1 {
        assert t[cs[i]] == cs[i + 1];
      }
    }
  }

  lemma ChainEndsInTable(t: Table, cs: seq<nat>)
    requires IsChain(t, cs)
    ensures forall i :: 0 <= i < |cs| ==> 2 <= cs[i] < |t|
  {
  }

  // ---------- the free-cluster counter ----------

  /** The new counter of `create_chain`: decremented only below the cluster count. */
  function CounterAfterAlloc(free: nat, n: nat): nat {
    if free < n - 2 then (if free == 0 then 0xFFFF_FFFF else free - 1) else free
  }

  /**
   A counter that was right stays right through an allocation if and only if it was
   below `n_fatent - 2`: on a volume whose clusters are all free the guard skips the update.
   */
  lemma CounterExact(t: Table, prev: nat, r: nat, eoc: nat)
    requires 2 <= r < |t| && t[r] == 0 && eoc >= |t|
    requires prev == 0 || (2 <= prev < |t| && t[prev] >= |t|)
    ensures FreeCount(Linked(t, prev, r, eoc)) == FreeCount(t) - 1
    ensures CounterAfterAlloc(FreeCount(t), |t|) == FreeCount(Linked(t, prev, r, eoc)) <==> FreeCount(t) < |t| - 2
  {
    FreeFromUpdate(t, 2, r, eoc);
    if prev != 0 {
      FreeFromUpdate(t[r := eoc], 2, prev, r);
    }
    NoFree(t, 2);
  }

  /** On a table of two clusters that are both free the counter stays at two when one is taken. */
  lemma CounterSkipped()
    ensures var t := [0, 0, 0, 0];
      FreeCount(t) == 2 && CounterAfterAlloc(2, 4) == 2 && FreeCount(Linked(t, 0, 2, 0xFFF)) == 1
  {
    var t := [0, 0, 0, 0];
    assert FreeFrom(t, 4) == 0 && FreeFrom(t, 3) == 1;
    FreeFromUpdate(t, 2, 2, 0xFFF);
  }
}
