/**
 Where the bytes of an open file live: file sector `si` is sector `si % csize` of
 the cluster at position `si / csize` of the file's chain, unless the file's
 private buffer holds a newer copy.  The laws here say which byte sequence a
 file denotes after each of the elementary steps of `f_read` and `f_write`
 (`fatfs/src/ff.c`): flushing and filling the buffer, changing bytes in it,
 transferring a run of sectors directly, and stretching the chain.
 */
module FatStore {
  import opened FatTable
  import opened FatVolume

  // ---------- division by the cluster size ----------

  /** Which cluster of a file holds its sector `si`, and at what place in the cluster. */
  function ClusterIndex(si: nat, csize: nat): nat
    requires 0 < csize
  {
    si / csize
  }

  function PlaceIn(si: nat, csize: nat): (r: nat)
    requires 0 < csize
    ensures r < csize
  {
    si % csize
  }

  lemma Place(si: nat, csize: nat, q: nat, r: nat)
    requires si == q * csize + r && r < csize
    ensures ClusterIndex(si, csize) == q && PlaceIn(si, csize) == r
  {
    DivModUnique(si, csize, q, r);
  }

  lemma Rebuild(si: nat, csize: nat)
    requires 0 < csize
    ensures si == ClusterIndex(si, csize) * csize + PlaceIn(si, csize)
  {
  }

  lemma SamePlace(a: nat, b: nat, csize: nat)
    requires 0 < csize && ClusterIndex(a, csize) == ClusterIndex(b, csize) && PlaceIn(a, csize) == PlaceIn(b, csize)
    ensures a == b
  {
    hide ClusterIndex, PlaceIn;
    Rebuild(a, csize);
    Rebuild(b, csize);
  }

  /** A step inside a cluster. */
  lemma InCluster(si: nat, csize: nat, j: nat)
    requires 0 < csize && PlaceIn(si, csize) + j < csize
    ensures ClusterIndex(si + j, csize) == ClusterIndex(si, csize) && PlaceIn(si + j, csize) == PlaceIn(si, csize) + j
  {
    hide ClusterIndex, PlaceIn;
    Rebuild(si, csize);
    Place(si + j, csize, ClusterIndex(si, csize), PlaceIn(si, csize) + j);
  }

  /** At a place inside a cluster but not at its start, the place before is in the same cluster. */
  lemma SameClusterBefore(si: nat, csize: nat)
    requires 0 < csize && 0 < si && PlaceIn(si, csize) != 0
    ensures ClusterIndex(si, csize) == ClusterIndex(si - 1, csize)
  {
    hide ClusterIndex, PlaceIn;
    Rebuild(si, csize);
    Place(si - 1, csize, ClusterIndex(si, csize), PlaceIn(si, csize) - 1);
  }

  /** The step over a cluster boundary. */
  lemma NextCluster(si: nat, csize: nat)
    requires 0 < csize && 0 < si && PlaceIn(si, csize) == 0
    ensures ClusterIndex(si, csize) == ClusterIndex(si - 1, csize) + 1
  {
    hide ClusterIndex, PlaceIn;
    var q, r := ClusterIndex(si - 1, csize), PlaceIn(si - 1, csize);
    Rebuild(si - 1, csize);
    if r + 1 < csize {
      Place(si, csize, q, r + 1);
    } else {
      assert si == (q + 1) * csize + 0;
      Place(si, csize, q + 1, 0);
    }
  }

  // ---------- the store ----------

  /** The data area behind the FAT copies. */
  ghost predicate DataArea(g: Geometry) {
    && g.Valid()
    && g.csize in {1, 2, 4, 8, 16, 32, 64, 128}
    && g.database + (g.nFatent - 2) * g.csize <= g.total
  }

  /** `clust2sect`: the first sector of a cluster. */
  function ClusterSector(g: Geometry, clst: nat): nat {
    if clst < 2 || clst >= g.nFatent then 0 else (clst - 2) * g.csize + g.database
  }

  lemma ClusterSectors(g: Geometry, c: nat, i: nat)
    requires DataArea(g) && 2 <= c < g.nFatent && i < g.csize
    ensures g.database <= ClusterSector(g, c) + i < g.total
  {
    StrideGrows(g.csize, c - 2, g.nFatent - 2);
  }

  /** Different places of the data area have different sector numbers. */
  lemma SectorsDiffer(g: Geometry, c: nat, i: nat, c': nat, i': nat)
    requires DataArea(g) && 2 <= c < g.nFatent && 2 <= c' < g.nFatent && i < g.csize && i' < g.csize
    requires ClusterSector(g, c) + i == ClusterSector(g, c') + i'
    ensures c == c' && i == i'
  {
    var x := (c - 2) * g.csize + i;
    DivModUnique(x, g.csize, c - 2, i);
    DivModUnique(x, g.csize, c' - 2, i');
  }

  /** The clusters lie one after the other from the start of the data area on, `csize` sectors each. */
  lemma ClustersTile(g: Geometry, c: nat)
    requires DataArea(g) && 2 <= c < g.nFatent
    ensures ClusterSector(g, 2) == g.database
    ensures c + 1 < g.nFatent ==> ClusterSector(g, c + 1) == ClusterSector(g, c) + g.csize
    ensures c + 1 == g.nFatent ==> ClusterSector(g, c) + g.csize == g.database + (g.nFatent - 2) * g.csize
    ensures ClusterSector(g, c) == g.database + (c - 2) * g.csize
  {
  }

  /** Every sector of their area is in one of them, at the place that division gives. */
  lemma SectorInCluster(g: Geometry, x: nat)
    requires DataArea(g) && g.database <= x < g.database + (g.nFatent - 2) * g.csize
    ensures var c, i := 2 + (x - g.database) / g.csize, (x - g.database) % g.csize;
      2 <= c < g.nFatent && i < g.csize && ClusterSector(g, c) + i == x
  {
    QuotientBelow(x - g.database, g.csize, g.nFatent - 2);
  }

  lemma QuotientBelow(a: nat, d: nat, n: nat)
    requires d > 0 && a < n * d
    ensures a / d < n && a == a / d * d + a % d
  {
    TimesMonotone(n, a / d, d);
  }

  lemma TimesMonotone(a: nat, b: nat, d: nat)
    ensures a <= b ==> a * d <= b * d
  {
    if a < b { StrideGrows(d, a, b); }
  }

  /** The place in its chain of the cluster that has byte `k` of a file. */
  function ByteIndex(k: nat, csize: nat): nat
    requires 0 < csize
  {
    DivParts(k, 512 * csize);
    k / (512 * csize)
  }

  /** The chain has a cluster for byte `k`. */
  predicate InChain(g: Geometry, cs: seq<nat>, k: nat) {
    0 < g.csize && ByteIndex(k, g.csize) < |cs| && 2 <= cs[ByteIndex(k, g.csize)] < g.nFatent
  }

  /** Byte `k` of the chain `cs` on the disk `d`. */
  ghost function DiskByte(g: Geometry, d: Disk, cs: seq<nat>, k: nat): Byte
    requires DataArea(g) && |d| == g.total && InChain(g, cs, k)
  {
    var c := cs[ByteIndex(k, g.csize)];
    ClusterSectors(g, c, k / 512 % g.csize);
    ClustersTile(g, c);
    d[g.database + (c - 2) * g.csize + k / 512 % g.csize][k % 512]
  }

  lemma ByteCluster(k: nat, csize: nat)
    requires csize > 0
    ensures ClusterIndex(k / 512, csize) == ByteIndex(k, csize) && PlaceIn(k / 512, csize) == k / 512 % csize
  {
    ClusterOfByte(csize, 512 * csize, k);
  }

  datatype Store = Store(
    g: Geometry, chain: seq<nat>, disk: Disk,
    cached: int, dirty: bool, buf: Sector)
  {
    ghost predicate Valid() {
      && DataArea(g) && 0 < g.csize
      && |disk| == g.total
      && (forall i :: 0 <= i < |chain| ==> 2 <= chain[i] < g.nFatent)
      && FatTable.Distinct(chain)
      && (dirty ==> Inside(cached))
      && (Inside(cached) && !dirty ==> buf == disk[Sect(cached)])
    }

    /** Does the chain reach file sector `si`? */
    predicate Inside(si: int)
      requires 0 < g.csize
    {
      0 <= si && ClusterIndex(si, g.csize) < |chain|
    }

    /** The disk sector of file sector `si`. */
    function Sect(si: int): (s: nat)
      requires DataArea(g) && Inside(si)
      requires forall i :: 0 <= i < |chain| ==> 2 <= chain[i] < g.nFatent
      ensures g.database <= s < g.total
    {
      ClusterSectors(g, chain[ClusterIndex(si, g.csize)], PlaceIn(si, g.csize));
      ClusterSector(g, chain[ClusterIndex(si, g.csize)]) + PlaceIn(si, g.csize)
    }

    lemma SectInjective(si: int, sj: int)
      requires Valid() && Inside(si) && Inside(sj) && Sect(si) == Sect(sj)
      ensures si == sj
    {
      SectorsDiffer(g, chain[ClusterIndex(si, g.csize)], PlaceIn(si, g.csize), chain[ClusterIndex(sj, g.csize)], PlaceIn(sj, g.csize));
      SamePlace(si, sj, g.csize);
    }

    /** File sector `si` as a reader must see it. */
    function SectorAt(si: int): Sector
      requires Valid() && Inside(si)
    {
      if dirty && si == cached then buf else disk[Sect(si)]
    }

    /** Where a byte of a file sector is on the disk. */
    lemma SectorByte(k: nat, d: Disk)
      requires Valid() && Inside(k / 512) && |d| == g.total
      ensures InChain(g, chain, k) && d[Sect(k / 512)][k % 512] == DiskByte(g, d, chain, k)
    {
      ByteCluster(k, g.csize);
      hide ByteIndex, ClusterIndex, PlaceIn;
      ClustersTile(g, chain[ByteIndex(k, g.csize)]);
    }

    /** The bytes of the file are `content`. */
    ghost predicate Holds(content: seq<Byte>)
      requires Valid()
    {
      forall k :: 0 <= k < |content| ==> Inside(k / 512) && SectorAt(k / 512)[k % 512] == content[k]
    }

    /** Same bytes in both stores, sector by sector. */
    ghost predicate SameAs(that: Store)
      requires Valid() && that.Valid()
    {
      forall si :: Inside(si) ==> that.Inside(si) && SectorAt(si) == that.SectorAt(si)
    }

    lemma SameHolds(that: Store, content: seq<Byte>)
      requires Valid() && that.Valid() && SameAs(that) && Holds(content)
      ensures that.Holds(content)
    {
    }

    // ---------- elementary steps ----------

    function WrittenBack(): Store
      requires Valid()
    {
      if dirty then this.(disk := disk[Sect(cached) := buf], dirty := false) else this
    }

    lemma WriteBackKeeps()
      requires Valid()
      ensures WrittenBack().Valid() && SameAs(WrittenBack())
    {
      var that := WrittenBack();
      forall si | Inside(si) ensures that.Inside(si) && that.disk[Sect(si)] == SectorAt(si) {
        if dirty && Sect(si) == Sect(cached) {
          SectInjective(si, cached);
        }
      }
    }

    function Loaded(si: int): Store
      requires Valid() && Inside(si)
    {
      this.(cached := si, buf := disk[Sect(si)])
    }

    lemma LoadKeeps(si: int)
      requires Valid() && !dirty && Inside(si)
      ensures Loaded(si).Valid() && SameAs(Loaded(si))
    {
    }

    /** Adopting sector `si` without reading it: the buffer's bytes replace the sector's. */
    function Adopted(si: int, b: Sector): Store {
      this.(cached := si, buf := b, dirty := true)
    }

    /** The buffered sector takes the bytes `b`; every other sector stays. */
    lemma AdoptChangesOne(si: int, b: Sector)
      requires Valid() && Inside(si) && (!dirty || cached == si)
      ensures Adopted(si, b).Valid()
      ensures forall sj :: Inside(sj) ==>
        Adopted(si, b).Inside(sj) && Adopted(si, b).SectorAt(sj) == if sj == si then b else SectorAt(sj)
    {
    }

    /** Direct transfer of the sectors `w` to the file sectors from `si` on; a buffered one is refreshed. */
    function Transferred(si: int, w: seq<Sector>): Store
      requires Valid() && Inside(si) && Sect(si) + |w| <= g.total
    {
      var d := disk[..Sect(si)] + w + disk[Sect(si) + |w|..];
      if si <= cached < si + |w| then this.(disk := d, buf := w[cached - si]) else this.(disk := d)
    }

    lemma SectRun(si: int, j: nat)
      requires Valid() && Inside(si) && PlaceIn(si, g.csize) + j < g.csize
      ensures Inside(si + j) && Sect(si + j) == Sect(si) + j
    {
      InCluster(si, g.csize, j);
    }

    /** Which file sectors lie in a run of disk sectors inside one cluster. */
    lemma RunCovers(si: int, n: nat, sj: int)
      requires Valid() && Inside(si) && Inside(sj) && PlaceIn(si, g.csize) + n <= g.csize
      ensures si <= sj < si + n <==> Sect(si) <= Sect(sj) < Sect(si) + n
      ensures si <= sj < si + n ==> Sect(sj) == Sect(si) + (sj - si)
    {
      if si <= sj < si + n {
        SectRun(si, sj - si);
      } else if Sect(si) <= Sect(sj) < Sect(si) + n {
        SectRun(si, Sect(sj) - Sect(si));
        SectInjective(sj, si + (Sect(sj) - Sect(si)));
      }
    }

    lemma TransferChangesRun(si: int, w: seq<Sector>)
      requires Valid() && Inside(si) && !dirty && PlaceIn(si, g.csize) + |w| <= g.csize && |w| > 0
      ensures Sect(si) + |w| <= g.total
      ensures Transferred(si, w).Valid()
      ensures forall sj :: Inside(sj) ==>
        && Transferred(si, w).Inside(sj)
        && Transferred(si, w).SectorAt(sj) == if si <= sj < si + |w| then w[sj - si] else SectorAt(sj)
    {
      hide Store.Sect, ClusterIndex, PlaceIn, DataArea;
      SectRun(si, |w| - 1);
      forall sj | Inside(sj)
        ensures Transferred(si, w).disk[Sect(sj)] == if si <= sj < si + |w| then w[sj - si] else disk[Sect(sj)]
      {
        RunCovers(si, |w|, sj);
      }
      forall sj | Inside(sj) ensures Transferred(si, w).Inside(sj) && Transferred(si, w).Sect(sj) == Sect(sj) {
        SectUnchanged(Transferred(si, w), sj);
      }
    }

    lemma SectUnchanged(that: Store, si: int)
      requires DataArea(g) && that.g == g && that.chain == chain && Inside(si)
      requires forall i :: 0 <= i < |chain| ==> 2 <= chain[i] < g.nFatent
      ensures that.Inside(si) && that.Sect(si) == Sect(si)
    {
    }

    /** One more cluster at the end of the chain. */
    lemma StretchKeeps(c: nat)
      requires Valid() && 2 <= c < g.nFatent && c !in chain
      requires !Inside(cached) ==> cached < 0
      ensures this.(chain := chain + [c]).Valid() && SameAs(this.(chain := chain + [c]))
    {
      var that := this.(chain := chain + [c]);
      forall si | Inside(si) ensures that.Inside(si) && that.Sect(si) == Sect(si) {
      }
    }
  }

  // ---------- the other files of the volume ----------

  /** A volume as one file sees it: the table, the file's own chain, and the disk. */
  datatype Scene = Scene(table: Table, chain: seq<nat>, disk: Disk)

  /** A cluster in use that is not the file's own. */
  ghost predicate Foreign(v: Scene, c: nat) {
    2 <= c < |v.table| && v.table[c] != 0 && c !in v.chain
  }

  /** The sectors of a cluster. */
  ghost function ClusterData(g: Geometry, d: Disk, c: nat): (r: seq<Sector>)
    requires DataArea(g) && |d| == g.total && 2 <= c < g.nFatent
    ensures |r| == g.csize && ClusterSector(g, c) + g.csize <= g.total
    ensures forall i :: 0 <= i < g.csize ==> r[i] == d[ClusterSector(g, c) + i]
  {
    ClusterSectors(g, c, g.csize - 1);
    d[ClusterSector(g, c)..ClusterSector(g, c) + g.csize]
  }

  /** Every foreign cluster has kept its entry and its sectors, and is still foreign. */
  ghost predicate OthersKept(g: Geometry, v: Scene, w: Scene) {
    && DataArea(g) && |v.table| == |w.table| == g.nFatent && |v.disk| == |w.disk| == g.total
    && forall c: nat :: Foreign(v, c) ==> Foreign(w, c) && w.table[c] == v.table[c] && ClusterData(g, v.disk, c) == ClusterData(g, w.disk, c)
  }

  /** So a chain that shares no cluster with the file is still a chain of the table, apart from the file, and holds what it held. */
  lemma OtherChainKept(g: Geometry, v: Scene, w: Scene, cs: seq<nat>)
    requires OthersKept(g, v, w) && IsChain(v.table, cs) && (forall i :: 0 <= i < |cs| ==> cs[i] !in v.chain)
    ensures IsChain(w.table, cs) && (forall i :: 0 <= i < |cs| ==> cs[i] !in w.chain)
    ensures forall i :: 0 <= i < |cs| ==> 2 <= cs[i] < g.nFatent && ClusterData(g, v.disk, cs[i]) == ClusterData(g, w.disk, cs[i])
  {
    hide ClusterData;
    forall i | 0 <= i < |cs| ensures Foreign(v, cs[i]) {
      if i < |cs| - 1 { assert v.table[cs[i]] == cs[i + 1]; }
    }
  }

  lemma OthersKeptAtFirst(g: Geometry, v: Scene)
    requires DataArea(g) && |v.table| == g.nFatent && |v.disk| == g.total
    ensures OthersKept(g, v, v)
  {
  }

  /** Writing sectors of one of the file's own clusters reaches no other cluster. */
  lemma OthersAfterTransfer(v: Scene, w: Scene, st: Store, si: int, n: nat, d: Disk)
    requires OthersKept(st.g, v, w) && st.Valid() && st.chain == w.chain && st.Inside(si)
    requires PlaceIn(si, st.g.csize) + n <= st.g.csize
    requires |d| == st.g.total && st.g.SameDataBut(d, w.disk, st.Sect(si), n)
    ensures OthersKept(st.g, v, w.(disk := d))
  {
    var g, own, p := st.g, st.chain[ClusterIndex(si, st.g.csize)], PlaceIn(si, st.g.csize);
    hide PlaceIn, ClusterIndex, ClusterData;
    forall c: nat | Foreign(v, c) ensures ClusterData(g, v.disk, c) == ClusterData(g, d, c) {
      assert Foreign(w, c) && c != own;
      SameClusterAfter(g, w.disk, d, c, own, p, n);
    }
  }

  lemma SameClusterAfter(g: Geometry, b: Disk, d: Disk, c: nat, own: nat, p: nat, n: nat)
    requires DataArea(g) && |b| == |d| == g.total && 2 <= c < g.nFatent && 2 <= own < g.nFatent && c != own
    requires p + n <= g.csize && g.SameDataBut(d, b, ClusterSector(g, own) + p, n)
    ensures ClusterData(g, b, c) == ClusterData(g, d, c)
  {
    hide ClusterSector, ClusterData;
    forall i | 0 <= i < g.csize ensures ClusterData(g, b, c)[i] == ClusterData(g, d, c)[i] {
      var x := ClusterSector(g, c) + i;
      ClusterSectors(g, c, i);
      if ClusterSector(g, own) + p <= x < ClusterSector(g, own) + p + n {
        SectorsDiffer(g, c, i, own, x - ClusterSector(g, own));
      }
    }
  }

  /** Nor does work on the table that changes only the file's own entries and free ones. */
  lemma OthersAfterFatWork(g: Geometry, v: Scene, w: Scene, t: Table, chain: seq<nat>, d: Disk)
    requires OthersKept(g, v, w) && |t| == g.nFatent && |d| == g.total && g.SameOutsideFat(d, w.disk)
    requires forall c: nat :: Foreign(w, c) ==> t[c] == w.table[c] && c !in chain
    ensures OthersKept(g, v, Scene(t, chain, d))
  {
    hide ClusterData, ClusterSector;
    forall c: nat | Foreign(v, c) ensures ClusterData(g, v.disk, c) == ClusterData(g, d, c) {
      assert Foreign(w, c);
      DataOutsideFat(g, w.disk, d, c);
    }
  }

  /** Stepping along the chain or appending a free cluster to it. */
  lemma OthersAfterExtend(g: Geometry, v: Scene, w: Scene, u: Table, chain: seq<nat>, d: Disk, prev: nat, r: nat, eoc: nat)
    requires OthersKept(g, v, w) && |u| == g.nFatent && |d| == g.total && g.SameOutsideFat(d, w.disk)
    requires
      || (u == w.table && chain == w.chain)
      || (2 <= r < |u| && w.table[r] == 0 && (prev == 0 || (prev in w.chain && 2 <= prev < |u|))
          && u == Linked(w.table, prev, r, eoc) && chain == w.chain + [r])
    ensures OthersKept(g, v, Scene(u, chain, d))
  {
    OthersAfterFatWork(g, v, w, u, chain, d);
  }

  lemma DataOutsideFat(g: Geometry, b: Disk, d: Disk, c: nat)
    requires DataArea(g) && |b| == |d| == g.total && 2 <= c < g.nFatent && g.SameOutsideFat(d, b)
    ensures ClusterData(g, b, c) == ClusterData(g, d, c)
  {
    hide ClusterSector, ClusterData;
    forall i | 0 <= i < g.csize ensures ClusterData(g, b, c)[i] == ClusterData(g, d, c)[i] {
      ClusterSectors(g, c, i);
    }
  }

  /** `c` with the bytes `w` laid over it from position `p` on; it grows if they reach past its end. */
  function Splice(c: seq<Byte>, p: nat, w: seq<Byte>): (r: seq<Byte>)
    requires p <= |c|
    ensures |r| == if p + |w| > |c| then p + |w| else |c|
  {
    c[..p] + w + (if p + |w| <= |c| then c[p + |w|..] else [])
  }

  lemma SpliceAt(c: seq<Byte>, p: nat, w: seq<Byte>)
    requires p <= |c|
    ensures forall k :: 0 <= k < |Splice(c, p, w)| ==>
      Splice(c, p, w)[k] == if p <= k < p + |w| then w[k - p] else c[k]
  {
  }

  lemma TakeTake(w: seq<Byte>, a: nat, b: nat)
    requires b <= a <= |w|
    ensures w[..a][..b] == w[..b]
  {
  }

  lemma SpliceTwice(c: seq<Byte>, p: nat, v: seq<Byte>, w: seq<Byte>)
    requires p <= |c|
    ensures Splice(Splice(c, p, v), p + |v|, w) == Splice(c, p, v + w)
  {
  }

  lemma SpliceNothing(c: seq<Byte>, p: nat)
    requires p <= |c|
    ensures Splice(c, p, []) == c
  {
  }

  /** Laying on the next piece `w[a..b][..n]` after `w[..a]`. */
  lemma SpliceNext(c: seq<Byte>, p: nat, w: seq<Byte>, a: nat, b: nat, n: nat)
    requires p <= |c| && a <= b <= |w| && n <= b - a
    ensures Splice(Splice(c, p, w[..a]), p + a, w[a..b][..n]) == Splice(c, p, w[..a + n])
  {
    assert w[..a] + w[a..b][..n] == w[..a + n];
    SpliceTwice(c, p, w[..a], w[a..b][..n]);
  }

  // ---------- an open file ----------

  /**
   An open file on a volume with allocation table `t` and the window at `winSect`: its chain
   is what the table links from `sclust`, the window shows none of its sectors, `sect` names
   the buffered one, and its bytes are `content`.
  */
  ghost predicate FileOk(t: Table, winSect: nat, st: Store, sclust: nat, sect: nat, content: seq<Byte>) {
    && st.Valid()
    && |t| == st.g.nFatent
    && ClearOf(st, winSect)
    && (if sclust == 0 then st.chain == [] else IsChain(t, st.chain) && st.chain[0] == sclust)
    && (if st.cached < 0 then sect == 0 else st.Inside(st.cached) && sect == st.Sect(st.cached))
    && |content| < 0x1_0000_0000
    && st.Holds(content)
  }

  ghost predicate ClearOf(st: Store, winSect: nat)
    requires st.Valid()
  {
    forall si :: st.Inside(si) ==> st.Sect(si) != winSect
  }

  /**
   The position is usable: the current cluster holds the byte before it, and a part-read
   sector is in the buffer.
   */
  ghost predicate Placed(csize: nat, chain: seq<nat>, size: nat, cached: int, fptr: nat, clust: nat)
    requires 0 < csize
  {
    && fptr <= size
    && (fptr > 0 ==> ClusterIndex((fptr - 1) / 512, csize) < |chain| && clust == chain[ClusterIndex((fptr - 1) / 512, csize)])
    && (fptr % 512 != 0 ==> cached == fptr / 512)
  }

  lemma SameLayout(st: Store, that: Store)
    requires st.Valid() && that.Valid() && that.g == st.g && that.chain == st.chain
    ensures forall si :: st.Inside(si) <==> that.Inside(si)
    ensures forall si :: st.Inside(si) ==> that.Sect(si) == st.Sect(si)
  {
    forall si | st.Inside(si) ensures that.Sect(si) == st.Sect(si) {
      st.SectUnchanged(that, si);
    }
  }

  lemma FileAfterWriteBack(t: Table, w: nat, st: Store, sclust: nat, sect: nat, content: seq<Byte>)
    requires FileOk(t, w, st, sclust, sect, content)
    ensures FileOk(t, w, st.WrittenBack(), sclust, sect, content)
  {
    hide Store.Sect, Store.SectorAt, DataArea, ClusterIndex, PlaceIn;
    st.WriteBackKeeps();
    SameLayout(st, st.WrittenBack());
    st.SameHolds(st.WrittenBack(), content);
  }

  lemma FileAfterLoad(t: Table, w: nat, st: Store, sclust: nat, sect: nat, content: seq<Byte>, si: int)
    requires FileOk(t, w, st, sclust, sect, content) && !st.dirty && st.Inside(si)
    ensures FileOk(t, w, st.Loaded(si), sclust, st.Sect(si), content)
  {
    hide Store.Sect, Store.SectorAt, DataArea, ClusterIndex, PlaceIn;
    st.LoadKeeps(si);
    SameLayout(st, st.Loaded(si));
    st.SameHolds(st.Loaded(si), content);
  }

  /** The window's work on the FAT: the file's sectors keep their bytes, only links past its end changed. */
  lemma FileAfterFatAccess(t: Table, w: nat, st: Store, sclust: nat, sect: nat, content: seq<Byte>,
                           u: Table, w': nat, disk: Disk)
    requires FileOk(t, w, st, sclust, sect, content)
    requires |disk| == |st.disk| && |u| == |t|
    requires forall si :: st.Inside(si) ==> disk[st.Sect(si)] == st.disk[st.Sect(si)]
    requires w' < st.g.database || w' == w
    requires sclust == 0 || IsChain(u, st.chain)
    ensures FileOk(u, w', st.(disk := disk), sclust, sect, content)
  {
    hide Store.SectorAt, DataArea, ClusterIndex, PlaceIn;
    var that := st.(disk := disk);
    forall si | st.Inside(si) ensures that.Sect(si) == st.Sect(si) {
      st.SectUnchanged(that, si);
    }
    SameLayout(st, that);
    forall si | st.Inside(si) ensures that.SectorAt(si) == st.SectorAt(si) {
      SameSector(st, that, si);
    }
    st.SameHolds(that, content);
  }

  lemma SameSector(st: Store, that: Store, si: int)
    requires st.Valid() && that.Valid() && st.Inside(si) && that.Inside(si)
    requires that.disk[that.Sect(si)] == st.disk[st.Sect(si)]
    requires that.buf == st.buf && that.dirty == st.dirty && that.cached == st.cached
    ensures that.SectorAt(si) == st.SectorAt(si)
  {
  }

  /** A free cluster appended to the chain (or starting it), the window being at the FAT. */
  lemma FileAfterStretch(t: Table, w: nat, st: Store, sclust: nat, sect: nat, content: seq<Byte>,
                         r: nat, eoc: nat)
    requires FileOk(t, w, st, sclust, sect, content) && w < st.g.database
    requires 2 <= r < |t| && t[r] == 0 && eoc >= |t|
    ensures var prev := if sclust == 0 then 0 else st.chain[|st.chain| - 1];
      && (prev == 0 || 2 <= prev < |t|)
      && FileOk(Linked(t, prev, r, eoc), w, st.(chain := st.chain + [r]),
                if sclust == 0 then r else sclust, sect, content)
  {
    hide Store.Sect, Store.SectorAt, DataArea, ClusterIndex, PlaceIn;
    var that := st.(chain := st.chain + [r]);
    if sclust != 0 {
      StretchChain(t, st.chain, r, eoc);
    }
    st.StretchKeeps(r);
    forall si | st.Inside(si) ensures that.Inside(si) && that.Sect(si) == st.Sect(si) {
      SectAfterStretch(st, r, si);
    }
    st.SameHolds(that, content);
    forall si | that.Inside(si) ensures that.Sect(si) != w {
    }
  }

  lemma SectAfterStretch(st: Store, r: nat, si: int)
    requires st.Valid() && st.Inside(si) && 2 <= r < st.g.nFatent
    ensures var that := st.(chain := st.chain + [r]); that.Inside(si) && that.Sect(si) == st.Sect(si)
  {
  }

  /** Bytes `b` put into the buffer of file sector `si` at offset `o`, where the file's position is. */
  lemma FileAfterPoke(t: Table, w: nat, st: Store, sclust: nat, sect: nat, content: seq<Byte>,
                      si: int, was: Sector, o: nat, b: seq<Byte>)
    requires FileOk(t, w, st, sclust, sect, content) && st.Inside(si) && (!st.dirty || st.cached == si)
    requires o + |b| <= 512 && si * 512 + o <= |content| && si * 512 + o + |b| < 0x1_0000_0000
    requires si * 512 < |content| ==> was == st.SectorAt(si)
    ensures var buf := was[..o] + b + was[o + |b|..];
      FileOk(t, w, st.Adopted(si, buf), sclust, st.Sect(si), Splice(content, si * 512 + o, b))
  {
    PokedHolds(st, content, si, was, o, b);
    SameLayout(st, st.Adopted(si, was[..o] + b + was[o + |b|..]));
    hide Store.Sect, Store.SectorAt, Store.Holds, DataArea, ClusterIndex, PlaceIn, Splice;
  }

  lemma PokedHolds(st: Store, content: seq<Byte>, si: int, was: Sector, o: nat, b: seq<Byte>)
    requires st.Valid() && st.Holds(content) && st.Inside(si) && (!st.dirty || st.cached == si)
    requires o + |b| <= 512 && si * 512 + o <= |content|
    requires si * 512 < |content| ==> was == st.SectorAt(si)
    ensures var that := st.Adopted(si, was[..o] + b + was[o + |b|..]);
      that.Valid() && that.Holds(Splice(content, si * 512 + o, b))
  {
    hide Store.Sect, Store.SectorAt, DataArea, ClusterIndex, PlaceIn;
    var buf: Sector := was[..o] + b + was[o + |b|..];
    var that := st.Adopted(si, buf);
    st.AdoptChangesOne(si, buf);
    var c := Splice(content, si * 512 + o, b);
    SpliceAt(content, si * 512 + o, b);
    hide Splice, Store.Valid;
    forall k | 0 <= k < |c| ensures that.Inside(k / 512) && that.SectorAt(k / 512)[k % 512] == c[k] {
      if k / 512 == si {
        assert k == si * 512 + k % 512;
      } else {
        assert k < |content|;
      }
    }
  }

  /** Whole sectors `v` transferred straight to the disk at a position on a sector boundary. */
  lemma FileAfterTransfer(t: Table, w: nat, st: Store, sclust: nat, sect: nat, content: seq<Byte>,
                          si: int, v: seq<Sector>, b: seq<Byte>)
    requires FileOk(t, w, st, sclust, sect, content) && st.Inside(si) && !st.dirty
    requires |v| > 0 && PlaceIn(si, st.g.csize) + |v| <= st.g.csize
    requires |b| == 512 * |v| && forall k :: 0 <= k < |b| ==> b[k] == v[k / 512][k % 512]
    requires si * 512 <= |content| && si * 512 + |b| < 0x1_0000_0000
    ensures st.Sect(si) + |v| <= st.g.total
    ensures FileOk(t, w, st.Transferred(si, v), sclust, sect, Splice(content, si * 512, b))
  {
    hide Store.Sect, Store.SectorAt, DataArea, ClusterIndex, PlaceIn;
    st.TransferChangesRun(si, v);
    var that := st.Transferred(si, v);
    SameLayout(st, that);
    var c := Splice(content, si * 512, b);
    SpliceAt(content, si * 512, b);
    forall k | 0 <= k < |c| ensures that.Inside(k / 512) && that.SectorAt(k / 512)[k % 512] == c[k] {
      if si <= k / 512 < si + |v| {
        var j := k - si * 512;
        assert j / 512 == k / 512 - si && j % 512 == k % 512;
        InsideRun(st, si, |v|, k / 512);
      } else {
        assert k < |content|;
      }
    }
  }

  lemma InsideRun(st: Store, si: int, n: nat, sj: int)
    requires st.Valid() && st.Inside(si) && PlaceIn(si, st.g.csize) + n <= st.g.csize && si <= sj < si + n
    ensures st.Inside(sj)
  {
    st.SectRun(si, sj - si);
  }

  /** A file that grows by seeking takes in whatever its chain holds there. */
  lemma FileAfterGrowth(t: Table, w: nat, st: Store, sclust: nat, sect: nat, content: seq<Byte>, more: seq<Byte>)
    requires FileOk(t, w, st, sclust, sect, content)
    requires content <= more && |more| < 0x1_0000_0000
    requires forall k :: |content| <= k < |more| ==> st.Inside(k / 512) && st.SectorAt(k / 512)[k % 512] == more[k]
    ensures FileOk(t, w, st, sclust, sect, more)
  {
  }

  // ---------- the position ----------

  /** A part of one sector passed over. */
  lemma PlacedAfterPart(csize: nat, chain: seq<nat>, size: nat, fptr: nat, n: nat, clust: nat)
    requires 0 < csize && ClusterIndex(fptr / 512, csize) < |chain| && clust == chain[ClusterIndex(fptr / 512, csize)]
    requires 0 < n && fptr % 512 + n <= 512 && fptr + n <= size
    ensures Placed(csize, chain, size, fptr / 512, fptr + n, clust)
  {
    assert (fptr + n - 1) / 512 == fptr / 512;
  }

  /** A run of whole sectors inside one cluster passed over. */
  lemma PlacedAfterRun(csize: nat, chain: seq<nat>, size: nat, cached: int, fptr: nat, n: nat, clust: nat)
    requires 0 < csize && ClusterIndex(fptr / 512, csize) < |chain| && clust == chain[ClusterIndex(fptr / 512, csize)]
    requires fptr % 512 == 0 && 0 < n && PlaceIn(fptr / 512, csize) + n <= csize && fptr + 512 * n <= size
    ensures Placed(csize, chain, size, cached, fptr + 512 * n, clust)
  {
    assert (fptr + 512 * n - 1) / 512 == fptr / 512 + (n - 1);
    InCluster(fptr / 512, csize, n - 1);
  }

  /** Away from a cluster boundary, the current cluster is the one that holds the position. */
  lemma CurrentCluster(csize: nat, chain: seq<nat>, size: nat, cached: int, fptr: nat, clust: nat)
    requires 0 < csize && Placed(csize, chain, size, cached, fptr, clust)
    requires fptr % 512 != 0 || PlaceIn(fptr / 512, csize) != 0
    ensures ClusterIndex(fptr / 512, csize) < |chain| && clust == chain[ClusterIndex(fptr / 512, csize)]
    ensures fptr % 512 != 0 ==> cached == fptr / 512
  {
    if fptr % 512 == 0 {
      assert (fptr - 1) / 512 == fptr / 512 - 1;
      SameClusterBefore(fptr / 512, csize);
    } else {
      assert (fptr - 1) / 512 == fptr / 512;
    }
  }

  /** At a cluster boundary, the place before it is in the cluster before. */
  lemma BoundaryCluster(csize: nat, fptr: nat)
    requires 0 < csize && fptr % 512 == 0 && PlaceIn(fptr / 512, csize) == 0
    ensures fptr > 0 ==> ClusterIndex(fptr / 512, csize) == ClusterIndex((fptr - 1) / 512, csize) + 1
    ensures fptr == 0 ==> ClusterIndex(fptr / 512, csize) == 0
  {
    if fptr > 0 {
      assert (fptr - 1) / 512 == fptr / 512 - 1;
      NextCluster(fptr / 512, csize);
    } else {
      Place(0, csize, 0, 0);
    }
  }

  /** The sector address computed from the current cluster. */
  lemma AddressOf(st: Store, si: nat, clust: nat)
    requires st.Valid() && st.Inside(si) && clust == st.chain[ClusterIndex(si, st.g.csize)]
    ensures ClusterSector(st.g, clust) != 0
    ensures ClusterSector(st.g, clust) + PlaceIn(si, st.g.csize) == st.Sect(si)
  {
    ClusterSectors(st.g, clust, 0);
  }

  /** Sectors read in one transfer, with the dirty buffer laid over its place among them, are current. */
  lemma RunIsCurrent(st: Store, si: nat, n: nat, sect: nat)
    requires st.Valid() && st.Inside(si) && PlaceIn(si, st.g.csize) + n <= st.g.csize && n > 0
    requires st.dirty ==> sect == st.Sect(st.cached)
    ensures st.Sect(si) + n <= st.g.total
    ensures var s := st.Sect(si);
      var run := st.disk[s..s + n];
      var now := if st.dirty && s <= sect < s + n then run[sect - s := st.buf] else run;
      forall sj :: si <= sj < si + n ==> st.Inside(sj) && now[sj - si] == st.SectorAt(sj)
  {
    hide Store.Sect, DataArea, ClusterIndex, PlaceIn;
    var s := st.Sect(si);
    st.SectRun(si, n - 1);
    forall sj | si <= sj < si + n ensures st.Inside(sj) && st.Sect(sj) == s + (sj - si) {
      st.SectRun(si, sj - si);
    }
    if st.dirty {
      st.RunCovers(si, n, st.cached);
    }
  }

  /** A run of sectors avoids the window, and holds the buffered sector exactly if its address is in it. */
  lemma RunInDisk(st: Store, winSect: nat, si: nat, n: nat)
    requires st.Valid() && ClearOf(st, winSect)
    requires st.Inside(si) && PlaceIn(si, st.g.csize) + n <= st.g.csize && n > 0
    ensures 0 < st.g.database <= st.Sect(si) && st.Sect(si) + n <= st.g.total < 0x1_0000_0000
    ensures !(st.Sect(si) <= winSect < st.Sect(si) + n)
    ensures st.Inside(st.cached) ==>
      (si <= st.cached < si + n <==> st.Sect(si) <= st.Sect(st.cached) < st.Sect(si) + n)
    ensures st.Inside(st.cached) && si <= st.cached < si + n ==> st.Sect(st.cached) - st.Sect(si) == st.cached - si
  {
    hide Store.Sect, ClusterIndex, PlaceIn;
    st.SectRun(si, n - 1);
    if st.Sect(si) <= winSect < st.Sect(si) + n {
      st.SectRun(si, winSect - st.Sect(si));
    }
    if st.Inside(st.cached) {
      st.RunCovers(si, n, st.cached);
    }
  }

  // ---------- seeking ----------

  lemma ClusterMonotone(a: nat, b: nat, csize: nat)
    requires 0 < csize && a <= b
    ensures ClusterIndex(a, csize) <= ClusterIndex(b, csize)
  {
    hide ClusterIndex, PlaceIn;
    Rebuild(a, csize);
    Rebuild(b, csize);
    if ClusterIndex(b, csize) < ClusterIndex(a, csize) {
      StrideGrows(csize, ClusterIndex(b, csize), ClusterIndex(a, csize));
    }
  }

  /** Byte `o` of cluster `i`, for clusters of `bcs` bytes: its sector. */
  lemma ByteInCluster(csize: nat, bcs: nat, i: nat, o: nat)
    requires 0 < csize && bcs == csize * 512 && o < bcs
    ensures (i * bcs + o) / 512 == i * csize + o / 512 && (i * bcs + o) % 512 == o % 512
    ensures ClusterIndex((i * bcs + o) / 512, csize) == i
    ensures PlaceIn((i * bcs + o) / 512, csize) == o / 512
  {
    var a := i * csize;
    assert i * bcs == a * 512 by { MulAssoc(i, csize); }
    Place(a + o / 512, csize, i, o / 512);
  }

  lemma MulAssoc(i: nat, csize: nat)
    ensures i * (csize * 512) == (i * csize) * 512
  {
  }

  /** The cluster of byte `p`, by bytes and by sectors. */
  lemma ClusterOfByte(csize: nat, bcs: nat, p: nat)
    requires 0 < csize && bcs == csize * 512
    ensures p / bcs == ClusterIndex(p / 512, csize)
    ensures p - p % bcs == ClusterIndex(p / 512, csize) * bcs
  {
    hide ClusterIndex;
    DivParts(p, bcs);
    ByteInCluster(csize, bcs, p / bcs, p % bcs);
  }

  /** The cluster of byte `p` starts before byte `o` if `o` is not in an earlier one. */
  lemma StartsBefore(csize: nat, bcs: nat, p: nat, o: nat)
    requires 0 < csize && bcs == csize * 512 && p / bcs <= o / bcs
    ensures 0 <= p - p % bcs <= o && p - p % bcs == ClusterIndex(p / 512, csize) * bcs
  {
    hide ClusterIndex;
    ClusterOfByte(csize, bcs, p);
    DivParts(o, bcs);
    DivParts(p, bcs);
    MulMonotone(p / bcs, o / bcs, bcs);
  }

  lemma DivParts(p: nat, d: nat)
    requires 0 < d
    ensures p == p / d * d + p % d && p % d < d && p / d >= 0
  {
  }

  lemma MulMonotone(a: nat, b: nat, d: nat)
    requires a <= b
    ensures a * d <= b * d
  {
  }

  /** Where a seek lands, `rest` bytes into cluster `i`. */
  lemma Landing(csize: nat, bcs: nat, i: nat, rest: nat, p: nat)
    requires 0 < csize && bcs == csize * 512 && p == i * bcs + rest && 0 < rest <= bcs
    ensures ClusterIndex((p - 1) / 512, csize) == i && p % 512 == rest % 512
    ensures rest % 512 != 0 ==> ClusterIndex(p / 512, csize) == i && PlaceIn(p / 512, csize) == rest / 512
  {
    hide ClusterIndex, PlaceIn;
    ByteInCluster(csize, bcs, i, rest - 1);
    assert p - 1 == i * bcs + (rest - 1);
    if rest < bcs {
      ByteInCluster(csize, bcs, i, rest);
    } else {
      assert p == (i * csize + csize) * 512 by { MulAssoc(i, csize); }
    }
  }
}
