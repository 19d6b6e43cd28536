/**
 File access of `fatfs/src/ff.c`: `f_read`, `f_write` and `f_lseek` on one open file.
 Each is proved to act on the pair (`content`, `fptr`) the way reading, overwriting
 and seeking act on a byte sequence with a position.
 */
module FatFile {
  import opened FatTable
  import opened FatVolume
  import opened FatStore

  /** The bytes of a run of sectors. */
  function Bytes(ss: seq<Sector>): (r: seq<Byte>)
    ensures |r| == 512 * |ss|
    ensures forall k :: 0 <= k < |r| ==> r[k] == ss[k / 512][k % 512]
  {
    seq(512 * |ss|, k requires 0 <= k < 512 * |ss| => ss[k / 512][k % 512])
  }

  /** The sectors of a run of bytes. */
  function Sectors(b: seq<Byte>, n: nat): (r: seq<Sector>)
    requires 512 * n <= |b|
    ensures |r| == n
    ensures forall k :: 0 <= k < 512 * n ==> b[k] == r[k / 512][k % 512]
  {
    seq(n, i requires 0 <= i < n => b[512 * i..512 * i + 512])
  }

  class FIL {
    const fs: FATFS
    const buf: array<Byte>
    const readable: bool
    const writable: bool
    var dirty: bool
    var modified: bool
    var err: FResult
    var sclust: nat
    var objsize: nat
    var fptr: nat
    var clust: nat
    var sect: nat
    /** The clusters of the file in order. */
    ghost var chain: seq<nat>
    /** Which file sector `buf` shows, or -1. */
    ghost var cached: int
    /** The bytes of the file. */
    ghost var content: seq<Byte>
    /** The volume as it was when the file was opened. */
    ghost const atOpen: Scene

    ghost function St(): Store
      reads this`chain, this`cached, this`dirty, buf, fs`disk
      requires buf.Length == 512
    {
      Store(fs.g, chain, fs.disk, cached, dirty, buf[..])
    }

    /** The volume as this file sees it now. */
    ghost function Here(): Scene
      requires fs.Valid()
      reads this`chain, fs`disk, fs`wFlag, fs`winSect, fs.win
    {
      Scene(fs.Fat(), chain, fs.Logical())
    }

    /** Everything but the position; the other files of the volume are as they were when this one was opened. */
    ghost predicate Base()
      reads this`dirty, this`sclust, this`objsize, this`sect, this`chain, this`cached, this`content
      reads buf, fs`disk, fs`wFlag, fs`winSect, fs.win
    {
      && fs.Valid() && buf.Length == 512 && buf != fs.win && 0 < fs.g.csize
      && |content| == objsize
      && FileOk(fs.Fat(), fs.winSect, St(), sclust, sect, content)
      && OthersKept(fs.g, atOpen, Here())
    }

    /** The file can be read and written at its position. */
    ghost predicate Ready()
      reads this`dirty, this`sclust, this`objsize, this`sect, this`chain, this`cached, this`content, this`fptr, this`clust
      reads buf, fs`disk, fs`wFlag, fs`winSect, fs.win
    {
      && Base()
      && Placed(fs.g.csize, chain, objsize, cached, fptr, clust)
      && fptr <= |content| < 0x1_0000_0000
    }

    /** After an abort (`err`) only the position is lost. */
    ghost predicate Valid()
      reads this, buf, fs`disk, fs`wFlag, fs`winSect, fs.win
    {
      if err == Ok then Ready() else Base()
    }

    /** No entry of the volume's table is damaged. */
    ghost predicate SoundTable()
      reads fs`disk, fs`wFlag, fs`winSect, fs.win
    {
      fs.Valid() && Sound(fs.Fat())
    }

    /** The volume has no free cluster. */
    ghost predicate FullTable()
      reads fs`disk, fs`wFlag, fs`winSect, fs.win
    {
      fs.Valid() && Full(fs.Fat())
    }

    /** The store of a file just opened: nothing buffered. */
    static ghost function Opened(vol: FATFS, cs: seq<nat>): Store
      reads vol`disk
    {
      Store(vol.g, cs, vol.disk, -1, false, seq(512, _ => 0))
    }

    /** Opening a file: the directory entry names its first cluster and its size. */
    constructor (vol: FATFS, r: bool, w: bool, start: nat, size: nat, ghost cs: seq<nat>, ghost bytes: seq<Byte>)
      requires vol.Valid() && |bytes| == size
      requires FileOk(vol.Fat(), vol.winSect, Opened(vol, cs), start, 0, bytes)
      ensures Valid() && fresh(buf) && fs == vol && readable == r && writable == w
      ensures content == bytes && fptr == 0 && err == Ok && atOpen == Here()
    {
      fs, readable, writable := vol, r, w;
      dirty, modified, err := false, false, Ok;
      sclust, objsize, fptr, clust, sect := start, size, 0, 0, 0;
      chain, cached, content := cs, -1, bytes;
      buf := new Byte[512](_ => 0);
      atOpen := Scene(vol.Fat(), cs, vol.Logical());
      new;
      assert buf[..] == seq(512, _ => 0);
      assert St() == Opened(vol, cs);
      OthersKeptAtFirst(fs.g, atOpen);
    }

    /** A file can be opened on every chain of the table, with the bytes that its clusters hold in their order. */
    static lemma Opens(vol: FATFS, cs: seq<nat>, start: nat, bytes: seq<Byte>)
      requires vol.Valid() && DataArea(vol.g) && |bytes| < 0x1_0000_0000
      requires if start == 0 then cs == [] else IsChain(vol.Fat(), cs) && cs[0] == start
      requires Opened(vol, cs).Valid() ==> ClearOf(Opened(vol, cs), vol.winSect)
      requires forall k :: 0 <= k < |bytes| ==> InChain(vol.g, cs, k) && bytes[k] == DiskByte(vol.g, vol.Logical(), cs, k)
      ensures FileOk(vol.Fat(), vol.winSect, Opened(vol, cs), start, 0, bytes)
    {
      var st := Opened(vol, cs);
      hide FATFS.Logical, FATFS.Fat, ClusterIndex, PlaceIn, DiskByte, Store.Sect;
      if start != 0 { ChainIsAcyclic(vol.Fat(), cs); }
      vol.Bounds();
      assert st.Valid();
      hide DataArea, Store.Valid;
      forall k | 0 <= k < |bytes| ensures st.Inside(k / 512) && st.SectorAt(k / 512)[k % 512] == bytes[k] {
        assert InChain(vol.g, cs, k);
        ByteCluster(k, vol.g.csize);
        st.SectorByte(k, vol.Logical());
        vol.DiskIsLogical(st.Sect(k / 512));
      }
    }

    // ---------- the private buffer ----------

    /** What `Base` says about the numbers that the methods compute with. */
    lemma Facts()
      requires Base()
      ensures fs.g.Valid() && St().Valid() && |fs.disk| == fs.g.total && |fs.Fat()| == fs.g.nFatent
      ensures cached >= 0 ==> St().Inside(cached) && sect == St().Sect(cached)
      ensures cached < 0 ==> sect == 0 && !dirty
      ensures ClearOf(St(), fs.winSect)
      ensures |fs.Logical()| == fs.g.total && |content| < 0x1_0000_0000
      ensures if sclust == 0 then chain == [] else IsChain(fs.Fat(), chain) && chain[0] == sclust
    {
    }

    /** A chain that shared no cluster with the file when it was opened is still a chain, and its clusters hold what they held. */
    lemma OthersStay(cs: seq<nat>)
      requires Base() && IsChain(atOpen.table, cs) && (forall i :: 0 <= i < |cs| ==> cs[i] !in atOpen.chain)
      ensures IsChain(fs.Fat(), cs) && (forall i :: 0 <= i < |cs| ==> cs[i] !in chain)
      ensures forall i :: 0 <= i < |cs| ==>
        2 <= cs[i] < fs.g.nFatent && ClusterData(fs.g, atOpen.disk, cs[i]) == ClusterData(fs.g, fs.Logical(), cs[i])
    {
      OtherChainKept(fs.g, atOpen, Here(), cs);
    }

    /** `disk_write` of sectors within one of the file's clusters: no other cluster changes. */
    method PutSectors(s: nat, v: seq<Sector>, ghost si: nat)
      requires fs.Valid() && buf.Length == 512 && buf != fs.win && 0 < fs.g.csize && St().Valid()
      requires OthersKept(fs.g, atOpen, Here())
      requires St().Inside(si) && s == St().Sect(si) && PlaceIn(si, fs.g.csize) + |v| <= fs.g.csize && s + |v| <= fs.g.total
      requires !(s <= fs.winSect < s + |v|)
      modifies fs`disk
      ensures fs.Valid() && fs.Fat() == old(fs.Fat()) && OthersKept(fs.g, atOpen, Here())
      ensures fs.disk == old(fs.disk)[..s] + v + old(fs.disk)[s + |v|..]
    {
      ghost var st, was := St(), Here();
      hide OthersKept, FATFS.Valid, FATFS.Logical, FATFS.Fat, Store.Valid, DataArea, ClusterIndex, PlaceIn, Geometry.Valid, Geometry.SameDataBut;
      fs.Bounds();
      fs.DiskWrite(s, v);
      fs.Bounds();
      OthersAfterTransfer(atOpen, was, st, si, |v|, fs.Logical());
      assert Here() == was.(disk := fs.Logical());
    }

    /** Writing the dirty buffer back. */
    method WriteBack()
      requires Base()
      modifies this`dirty, fs`disk
      ensures Base() && !dirty && fs.Fat() == old(fs.Fat())
      ensures St() == old(St()).WrittenBack()
    {
      hide OthersKept, Sound, Full, Geometry.Valid, FATFS.Valid, FATFS.Logical, FATFS.Fat, FileOk, Store.Valid, Store.Sect, Store.Inside, DataArea, ClusterIndex, PlaceIn;
      if dirty {
        Facts();
        ghost var st := St();
        PutSectors(sect, [buf[..]], cached);
        dirty := false;
        assert fs.disk == st.disk[sect := buf[..]];
        assert St() == st.WrittenBack();
        FileAfterWriteBack(fs.Fat(), fs.winSect, st, sclust, sect, content);
      }
    }

    /** Filling the buffer with file sector `si`, found at disk sector `s`, unless it is there already. */
    method LoadSector(s: nat, ghost si: nat)
      requires Base() && St().Inside(si) && s == St().Sect(si)
      modifies this`dirty, this`sect, this`cached, fs`disk, buf
      ensures Base() && cached == si && sect == s && fs.Fat() == old(fs.Fat())
    {
      hide OthersKept, Sound, Full, Geometry.Valid, FATFS.Valid, FATFS.Logical, FATFS.Fat, FileOk, Store.Valid, Store.Sect, Store.Inside, DataArea, ClusterIndex, PlaceIn;
      Facts();
      if sect != s {
        ghost var st0 := St();
        WriteBack();
        Facts();
        ghost var st, sect0 := St(), sect;
        SameLayout(st0, st);
        forall i | 0 <= i < 512 { buf[i] := fs.disk[s][i]; }
        assert buf[..] == fs.disk[s];
        sect, cached := s, si;
        assert St() == st.Loaded(si);
        FileAfterLoad(fs.Fat(), fs.winSect, st, sclust, sect0, content, si);
      } else {
        assert s >= fs.g.database;
        St().SectInjective(si, cached);
      }
    }

    // ---------- the chain, seen from the file ----------

    /** The file's sectors are data sectors outside the window: the disk holds their logical bytes. */
    lemma DataIsLogical()
      requires Base()
      ensures forall si :: St().Inside(si) ==> fs.disk[St().Sect(si)] == fs.Logical()[St().Sect(si)]
    {
      forall si | St().Inside(si) ensures fs.disk[St().Sect(si)] == fs.Logical()[St().Sect(si)] {
        fs.DiskIsLogical(St().Sect(si));
      }
    }

    /** Work on the FAT through the window left the disk sectors of the file alone. */
    lemma DataStayed(was: Store, logical: Disk, winSect: nat)
      requires fs.Valid() && was.Valid() && was.g == fs.g
      requires |logical| == fs.g.total && fs.g.SameOutsideFat(fs.Logical(), logical)
      requires forall si :: was.Inside(si) ==> was.Sect(si) != winSect && was.disk[was.Sect(si)] == logical[was.Sect(si)]
      requires fs.g.InFat(fs.winSect) || fs.winSect == winSect
      ensures |fs.disk| == fs.g.total
      ensures fs.winSect < fs.g.database || fs.winSect == winSect
      ensures forall si :: was.Inside(si) ==> fs.disk[was.Sect(si)] == was.disk[was.Sect(si)]
    {
      hide FATFS.Logical, FATFS.Fat, Store.Sect, Store.Inside;
      fs.Bounds();
      forall si | was.Inside(si) ensures fs.disk[was.Sect(si)] == was.disk[was.Sect(si)] {
        fs.DiskIsLogical(was.Sect(si));
      }
    }

    /** `get_fat` on a cluster of the file. */
    method NextOf(c: nat) returns (next: nat)
      requires Base()
      modifies fs`disk, fs`wFlag, fs`winSect, fs.win
      ensures Base() && fs.Fat() == old(fs.Fat())
      ensures St().disk == fs.disk && St() == old(St()).(disk := fs.disk)
      ensures next == Lookup(fs.Fat(), c)
    {
      hide OthersKept, Sound, Full, Geometry.Valid, FATFS.Valid, FATFS.Logical, FATFS.Fat, FileOk, Store.Valid, Store.Sect, Store.Inside, DataArea, ClusterIndex, PlaceIn;
      ghost var st, logical, winSect, was := St(), fs.Logical(), fs.winSect, Here();
      Facts();
      DataIsLogical();
      fs.Bounds();
      next := fs.GetFat(c);
      fs.Bounds();
      DataStayed(st, logical, winSect);
      assert Here() == was;
      assert St() == st.(disk := fs.disk);
      FileAfterFatAccess(fs.Fat(), winSect, st, sclust, sect, content, fs.Fat(), fs.winSect, fs.disk);
    }

    /**
     `create_chain` on the cluster at place `idx` of the file's chain (-1: the file has none yet):
     the next cluster, which is appended if the chain ended there.
     */
    method Extend(c: nat, ghost idx: int) returns (r: nat)
      requires Base()
      requires if idx < 0 then c == 0 && sclust == 0 && idx == -1 else idx < |chain| && c == chain[idx]
      modifies this`chain, this`sclust, fs, fs.win
      ensures Base()
      ensures old(SoundTable()) ==> SoundTable() && r != 1
      ensures old(FullTable()) ==> FullTable()
      ensures r == 0 ==> FullTable()
      ensures old(chain) <= chain && (r < 2 ==> chain == old(chain))
      ensures r >= 2 ==> idx + 1 < |chain| && chain[idx + 1] == r && 2 <= r < fs.g.nFatent
    {
      hide OthersKept, Sound, Full, Geometry.Valid, FATFS.Valid, FATFS.Logical, FATFS.Fat, FileOk, Store.Valid, Store.Sect, Store.Inside, DataArea, ClusterIndex, PlaceIn;
      hide Stretched, IsChain, Linked, Geometry.SameOutsideFat;
      ghost var st, logical, winSect, t, was := St(), fs.Logical(), fs.winSect, fs.Fat(), Here();
      ghost var eoc := fs.g.fsType.EndOfChain();
      Facts();
      DataIsLogical();
      fs.Bounds();
      fs.g.fsType.MaskFits(0);
      r := fs.CreateChain(c);
      fs.Bounds();
      StretchSteps(t, st.chain, idx, old(fs.lastClst), eoc, r, fs.Fat());
      DataStayed(st, logical, winSect);
      FileAfterFatAccess(t, winSect, st, sclust, sect, content, t, fs.winSect, fs.disk);
      if fs.Fat() != t {
        FileAfterStretch(t, fs.winSect, st.(disk := fs.disk), sclust, sect, content, r, eoc);
        chain := chain + [r];
        assert St() == st.(disk := fs.disk, chain := st.chain + [r]);
      }
      OthersAfterExtend(fs.g, atOpen, was, fs.Fat(), chain, fs.Logical(), c, r, eoc);
      if sclust == 0 && r >= 2 { sclust := r; }
    }

    // ---------- f_read ----------

    lemma Holding()
      requires Base()
      ensures forall k :: 0 <= k < objsize ==>
        St().Inside(k / 512) && St().SectorAt(k / 512)[k % 512] == content[k]
      ensures St().Valid() && St().g == fs.g && St().chain == chain && objsize < 0x1_0000_0000
    {
    }

    /** Byte `k` of the file, on the volume or in the dirty buffer. */
    ghost function VolumeByte(k: nat): Byte
      requires Base() && k < objsize
      reads this`dirty, this`sclust, this`objsize, this`sect, this`chain, this`cached, this`content
      reads buf, fs`disk, fs`wFlag, fs`winSect, fs.win
    {
      InTheChain(k);
      if dirty && cached == k / 512 then buf[k % 512] else DiskByte(fs.g, fs.Logical(), chain, k)
    }

    lemma InTheChain(k: nat)
      requires Base() && k < objsize
      ensures DataArea(fs.g) && |fs.Logical()| == fs.g.total && InChain(fs.g, chain, k)
    {
      hide OthersKept, Sound, Full, Geometry.Valid, FATFS.Valid, FATFS.Logical, FATFS.Fat, FileOk, Store.Sect, Store.Inside, ClusterIndex, PlaceIn;
      Facts();
      Holding();
      St().SectorByte(k, fs.Logical());
    }

    /** The content is what the clusters of the chain hold, in their order, under the dirty buffer. */
    lemma ContentOnVolume(k: nat)
      requires Base() && k < objsize
      ensures content[k] == VolumeByte(k)
    {
      hide OthersKept, Sound, Full, Geometry.Valid, FATFS.Valid, FATFS.Logical, FATFS.Fat, FileOk, Store.Valid, Store.Sect, Store.Inside, DataArea, ClusterIndex, PlaceIn, DiskByte;
      InTheChain(k);
      Facts();
      Holding();
      DataIsLogical();
      St().SectorByte(k, fs.Logical());
    }

    /** The cluster that holds the position becomes the current one. */
    method FollowChain()
      requires Ready() && fptr < objsize
      requires fptr % 512 == 0
      modifies this`clust, fs`disk, fs`wFlag, fs`winSect, fs.win
      ensures Base() && fs.Fat() == old(fs.Fat())
      ensures ClusterIndex(fptr / 512, fs.g.csize) < |chain| && clust == chain[ClusterIndex(fptr / 512, fs.g.csize)]
    {
      hide OthersKept, Sound, Full, Geometry.Valid, FATFS.Valid, FATFS.Logical, FATFS.Fat, FileOk, Store.Valid, Store.Sect, DataArea, ClusterIndex, PlaceIn;
      Holding();
      Facts();
      assert St().Inside(fptr / 512);
      var csect := PlaceIn(fptr / 512, fs.g.csize);
      if csect == 0 {
        BoundaryCluster(fs.g.csize, fptr);
        var clst: nat;
        if fptr == 0 {
          clst := sclust;
        } else {
          clst := NextOf(clust);
        }
        clust := clst;
      } else {
        CurrentCluster(fs.g.csize, chain, objsize, cached, fptr, clust);
      }
    }

    /** Reading `cc` sectors directly, the dirty buffer standing in for its sector. */
    method ReadRun(s: nat, cc: nat, ghost si: nat) returns (chunk: seq<Byte>)
      requires Base() && St().Inside(si) && s == St().Sect(si)
      requires 0 < cc && PlaceIn(si, fs.g.csize) + cc <= fs.g.csize && 512 * (si + cc) <= objsize
      ensures chunk == content[512 * si..512 * (si + cc)]
    {
      hide OthersKept, Sound, Full, Geometry.Valid, FATFS.Valid, FATFS.Logical, FATFS.Fat, FileOk, Store.Valid, Store.Sect, DataArea, ClusterIndex, PlaceIn;
      Facts();
      Holding();
      RunIsCurrent(St(), si, cc, sect);
      var run := fs.disk[s..s + cc];
      if dirty && Sub32(sect, s) < cc { run := run[Sub32(sect, s) := buf[..]]; }
      assert forall i :: 0 <= i < cc ==> run[i] == St().SectorAt(si + i) by {
        assert forall sj :: si <= sj < si + cc ==> run[sj - si] == St().SectorAt(sj);
      }
      chunk := Bytes(run);
      forall k | 0 <= k < |chunk| ensures chunk[k] == content[512 * si + k] {
        assert (512 * si + k) / 512 == si + k / 512 && (512 * si + k) % 512 == k % 512;
      }
    }

    /** Taking bytes of the buffered sector. */
    method ReadPart(btr: nat) returns (chunk: seq<Byte>)
      requires Base() && 0 < btr <= objsize - fptr && cached == fptr / 512
      ensures 0 < |chunk| <= btr && fptr % 512 + |chunk| <= 512
      ensures chunk == content[fptr..fptr + |chunk|]
    {
      hide OthersKept, Sound, Full, Geometry.Valid, FATFS.Valid, FATFS.Logical, FATFS.Fat, FileOk, Store.Valid, Store.Sect, DataArea, ClusterIndex, PlaceIn;
      Facts();
      Holding();
      var rcnt := 512 - fptr % 512;
      if rcnt > btr { rcnt := btr; }
      chunk := buf[fptr % 512..fptr % 512 + rcnt];
      assert St().SectorAt(cached) == buf[..];
      forall k | 0 <= k < rcnt ensures chunk[k] == content[fptr + k] {
        assert (fptr + k) / 512 == cached && (fptr + k) % 512 == fptr % 512 + k;
      }
    }

    /** One pass of the read loop: up to a sector's worth from the buffer, or up to a cluster's worth directly. */
    method ReadStep(btr: nat) returns (chunk: seq<Byte>)
      requires Ready() && 0 < btr <= objsize - fptr && |content| == objsize
      modifies this`dirty, this`sect, this`cached, this`clust, this`fptr
      modifies fs`disk, fs`wFlag, fs`winSect, fs.win, buf
      ensures Ready() && SoundTable() == old(SoundTable()) && FullTable() == old(FullTable())
      ensures 0 < |chunk| <= btr && fptr == old(fptr) + |chunk|
      ensures chunk == content[old(fptr)..fptr]
    {
      hide OthersKept, Sound, Full, Geometry.Valid, FATFS.Valid, FATFS.Logical, FATFS.Fat, FileOk, Store.Valid, Store.Sect, DataArea, ClusterIndex, PlaceIn;
      hide Placed, Store.SectorAt, Store.Inside;
      if fptr % 512 == 0 {
        var whole;
        chunk, whole := ReadAligned(btr);
        if whole { return; }
      } else {
        CurrentCluster(fs.g.csize, chain, objsize, cached, fptr, clust);
      }
      chunk := ReadPart(btr);
      PlacedAfterPart(fs.g.csize, chain, objsize, fptr, |chunk|, clust);
      fptr := fptr + |chunk|;
    }

    /** The pass on a sector boundary: whole sectors directly, or else the sector goes into the buffer. */
    method ReadAligned(btr: nat) returns (chunk: seq<Byte>, whole: bool)
      requires Ready() && 0 < btr <= objsize - fptr && |content| == objsize && fptr % 512 == 0
      modifies this`dirty, this`sect, this`cached, this`clust, this`fptr
      modifies fs`disk, fs`wFlag, fs`winSect, fs.win, buf
      ensures Base() && SoundTable() == old(SoundTable()) && FullTable() == old(FullTable())
      ensures whole ==> Ready() && 0 < |chunk| <= btr && fptr == old(fptr) + |chunk| && chunk == content[old(fptr)..fptr]
      ensures !whole ==> fptr == old(fptr) && cached == fptr / 512 && ClusterIndex(fptr / 512, fs.g.csize) < |chain|
      ensures !whole ==> clust == chain[ClusterIndex(fptr / 512, fs.g.csize)]
    {
      hide OthersKept, Sound, Full, Geometry.Valid, FATFS.Valid, FATFS.Logical, FATFS.Fat, FileOk, Store.Valid, Store.Sect, DataArea, ClusterIndex, PlaceIn;
      hide Placed, Store.SectorAt;
      FollowChain();
      Facts();
      var csect := PlaceIn(fptr / 512, fs.g.csize);
      AddressOf(St(), fptr / 512, clust);
      var s := ClusterSector(fs.g, clust) + csect;
      var cc := btr / 512;
      if cc > 0 {
        if csect + cc > fs.g.csize { cc := fs.g.csize - csect; }
        chunk := ReadRun(s, cc, fptr / 512);
        PlacedAfterRun(fs.g.csize, chain, objsize, cached, fptr, cc, clust);
        fptr := fptr + 512 * cc;
        whole := true;
      } else {
        LoadSector(s, fptr / 512);
        chunk, whole := [], false;
      }
    }

    /** `f_read`: the next bytes of the content, as many as were asked for and are there. */
    method Read(btr: nat) returns (res: FResult, data: seq<Byte>)
      requires Valid()
      modifies this`dirty, this`sect, this`cached, this`clust, this`fptr
      modifies fs`disk, fs`wFlag, fs`winSect, fs.win, buf
      ensures Valid() && SoundTable() == old(SoundTable()) && FullTable() == old(FullTable())
      ensures content == old(content)
      ensures res == if err != Ok then err else if !readable then Denied else Ok
      ensures res != Ok ==> data == [] && fptr == old(fptr)
      ensures res == Ok ==> fptr == (if old(fptr) + btr < objsize then old(fptr) + btr else objsize)
      ensures res == Ok ==> data == content[old(fptr)..fptr]
      ensures res == Ok ==> forall k :: old(fptr) <= k < fptr ==> data[k - old(fptr)] == old(VolumeByte(k))
    {
      hide FIL.Ready, FIL.Base, FIL.SoundTable, FIL.FullTable, FIL.VolumeByte;
      ValidIsBase();
      forall k: nat | k < objsize ensures content[k] == VolumeByte(k) {
        ContentOnVolume(k);
      }
      data := [];
      if err != Ok {
        res := err;
      } else if !readable {
        res := Denied;
      } else {
        ReadyIsBase();
        data := ReadLoop(if btr > objsize - fptr then objsize - fptr else btr);
        res := Ok;
      }
    }

    method ReadLoop(n: nat) returns (data: seq<Byte>)
      requires Ready() && n <= objsize - fptr && |content| == objsize
      modifies this`dirty, this`sect, this`cached, this`clust, this`fptr
      modifies fs`disk, fs`wFlag, fs`winSect, fs.win, buf
      ensures Ready() && SoundTable() == old(SoundTable()) && FullTable() == old(FullTable())
      ensures fptr == old(fptr) + n && data == content[old(fptr)..fptr]
    {
      hide FIL.Ready, FIL.Base, FIL.SoundTable, FIL.FullTable;
      data := [];
      var rest := n;
      ghost var p0 := fptr;
      while rest > 0
        invariant Ready() && SoundTable() == old(SoundTable()) && FullTable() == old(FullTable())
        invariant 0 <= rest <= n && fptr == p0 + (n - rest) && data == content[p0..fptr]
        decreases rest
      {
        ghost var here := fptr;
        var chunk := ReadStep(rest);
        assert content[p0..here] + content[here..fptr] == content[p0..fptr];
        data := data + chunk;
        rest := rest - |chunk|;
      }
    }

    // ---------- f_write ----------

    /**
     At a sector boundary: the cluster to write to, newly allocated if the chain ends here.
     `found` is false when the disk is full (`res == Ok`) or the table is damaged.
     */
    method LocateForWrite() returns (res: FResult, found: bool)
      requires Ready()
      requires fptr % 512 == 0
      modifies this`clust, this`chain, this`sclust, fs, fs.win
      ensures Base() && old(chain) <= chain
      ensures old(SoundTable()) ==> SoundTable() && res == Ok
      ensures old(FullTable()) ==> FullTable()
      ensures found ==> res == Ok && ClusterIndex(fptr / 512, fs.g.csize) < |chain|
      ensures found ==> clust == chain[ClusterIndex(fptr / 512, fs.g.csize)]
      ensures !found ==> chain == old(chain) && clust == old(clust)
      ensures !found && res == Ok ==> FullTable()
      ensures !found && res != Ok ==> res == IntErr
    {
      hide OthersKept, Sound, Full, Geometry.Valid, FATFS.Valid, FATFS.Logical, FATFS.Fat, FileOk, Store.Valid, Store.Sect, DataArea, ClusterIndex, PlaceIn;
      Facts();
      var csect := PlaceIn(fptr / 512, fs.g.csize);
      if csect != 0 {
        CurrentCluster(fs.g.csize, chain, objsize, cached, fptr, clust);
        return Ok, true;
      }
      BoundaryCluster(fs.g.csize, fptr);
      var clst: nat;
      if fptr == 0 {
        clst := sclust;
        if clst == 0 {
          clst := Extend(0, -1);
        }
      } else {
        clst := Extend(clust, ClusterIndex((fptr - 1) / 512, fs.g.csize));
      }
      if clst == 0 { return Ok, false; }
      if clst == 1 { return IntErr, false; }
      clust := clst;
      Facts();
      return Ok, true;
    }

    /** Refreshing the buffer if its sector is among those just written from `s` on. */
    method Refresh(v: seq<Sector>, s: nat)
      requires buf.Length == 512 && sect < 0x1_0000_0000 && s < 0x1_0000_0000
      modifies this`dirty, buf
      ensures Sub32(sect, s) < |v| ==> !dirty && buf[..] == v[Sub32(sect, s)]
      ensures Sub32(sect, s) >= |v| ==> dirty == old(dirty) && buf[..] == old(buf[..])
    {
      var j := Sub32(sect, s);
      if j < |v| {
        forall i | 0 <= i < 512 { buf[i] := v[j][i]; }
        dirty := false;
        assert buf[..] == v[j];
      }
    }

    /** The sectors on the disk, and the buffer if it shows one of them. */
    method Transfer(v: seq<Sector>, s: nat, ghost si: nat)
      requires Base() && !dirty && St().Inside(si) && s == St().Sect(si) && |v| > 0 && PlaceIn(si, fs.g.csize) + |v| <= fs.g.csize
      requires s + |v| <= fs.g.total && !(s <= fs.winSect < s + |v|)
      requires Sub32(sect, s) < |v| <==> si <= cached < si + |v|
      requires si <= cached < si + |v| ==> Sub32(sect, s) == cached - si
      modifies this`dirty, fs`disk, buf
      ensures fs.Valid() && fs.Fat() == old(fs.Fat()) && OthersKept(fs.g, atOpen, Here())
      ensures St() == old(St()).Transferred(si, v)
    {
      hide OthersKept, Sound, Full, Geometry.Valid, FATFS.Valid, FATFS.Logical, FATFS.Fat, FileOk, Store.Valid, Store.Sect, DataArea, ClusterIndex, PlaceIn;
      hide Store.Inside;
      Facts();
      PutSectors(s, v, si);
      Refresh(v, s);
    }

    /** Writing whole sectors directly; a buffered one among them is refreshed. */
    method WriteRun(w: seq<Byte>, cc: nat, s: nat, ghost si: nat)
      requires fptr == 512 * si
      requires Base() && !dirty && St().Inside(si) && s == St().Sect(si)
      requires 0 < cc && 512 * cc <= |w| && PlaceIn(si, fs.g.csize) + cc <= fs.g.csize
      requires fptr <= objsize && fptr + 512 * cc < 0x1_0000_0000
      modifies this`content, this`objsize, this`dirty, fs`disk, buf
      ensures Base() && fs.Fat() == old(fs.Fat())
      ensures content == Splice(old(content), fptr, w[..512 * cc])
    {
      hide OthersKept, Sound, Full, Geometry.Valid, FATFS.Valid, FATFS.Logical, FATFS.Fat, FileOk, Store.Valid, Store.Sect, DataArea, ClusterIndex, PlaceIn;
      hide Store.Inside, Store.SectorAt, Store.Transferred, Splice, ClearOf, IsChain;
      Facts();
      ghost var st := St();
      var v := Sectors(w, cc);
      RunInDisk(st, fs.winSect, si, cc);
      FileAfterTransfer(fs.Fat(), fs.winSect, st, sclust, sect, content, si, v, w[..512 * cc]);
      Transfer(v, s, si);
      objsize := if fptr + 512 * cc > objsize then fptr + 512 * cc else objsize;
      content := Splice(content, 512 * si, w[..512 * cc]);
    }

    /** `mem_cpy` into the buffer. */
    method CopyIn(o: nat, b: seq<Byte>)
      requires o + |b| <= buf.Length
      modifies buf
      ensures buf[..] == old(buf[..o]) + b + old(buf[o + |b|..])
    {
      forall i | 0 <= i < |b| { buf[o + i] := b[i]; }
    }

    /** Bytes into the buffer, which is then that of file sector `si`, at disk sector `s`, and dirty. */
    method Poke(o: nat, b: seq<Byte>, s: nat, ghost si: nat)
      requires buf.Length == 512 && o + |b| <= 512
      modifies this`dirty, this`sect, this`cached, buf
      ensures St() == old(St()).Adopted(si, old(buf[..o]) + b + old(buf[o + |b|..])) && sect == s && cached == si
    {
      sect, cached := s, si;
      CopyIn(o, b);
      dirty := true;
    }

    /**
     Putting the first `n` bytes of `w` at the position into the buffer, which shows the position's
     sector, or, where the file grows at a sector boundary, takes it over without reading it.
     */
    method WritePart(w: seq<Byte>, n: nat, s: nat, ghost si: nat)
      requires Base() && St().Inside(si) && s == St().Sect(si) && si == fptr / 512
      requires fptr % 512 + n <= 512 && n <= |w| && fptr <= objsize && fptr + n < 0x1_0000_0000
      requires cached == si || (!dirty && fptr % 512 == 0 && fptr == objsize)
      modifies this`content, this`objsize, this`dirty, this`sect, this`cached, buf
      ensures Base() && fs.Fat() == old(fs.Fat()) && cached == si
      ensures content == Splice(old(content), fptr, w[..n])
    {
      hide OthersKept, Sound, Full, Geometry.Valid, FATFS.Valid, FATFS.Logical, FATFS.Fat, FileOk, Store.Valid, Store.Sect, DataArea, ClusterIndex, PlaceIn;
      hide Store.Inside, Store.SectorAt, Store.Adopted, Splice, ClearOf, IsChain;
      Facts();
      ghost var st, was := St(), buf[..];
      BufferIsSector(si);
      var o := fptr % 512;
      FileAfterPoke(fs.Fat(), fs.winSect, st, sclust, sect, content, si, was, o, w[..n]);
      Poke(o, w[..n], s, si);
      objsize := if fptr + n > objsize then fptr + n else objsize;
      content := Splice(content, si * 512 + o, w[..n]);
    }

    lemma BufferIsSector(si: nat)
      requires Base() && St().Inside(si)
      ensures cached == si ==> buf[..] == St().SectorAt(si)
    {
    }

    /** One pass of the write loop: into the buffer, or up to a cluster's worth directly. */
    method WriteStep(w: seq<Byte>) returns (res: FResult, wcnt: nat)
      requires Ready()
      requires |w| > 0 && fptr + |w| < 0x1_0000_0000
      modifies this`clust, this`chain, this`sclust, this`content, this`objsize, this`dirty, this`sect, this`cached, this`fptr
      modifies fs, fs.win, buf
      ensures Ready()
      ensures wcnt <= |w| && fptr == old(fptr) + wcnt
      ensures content == Splice(old(content), old(fptr), w[..wcnt])
      ensures old(SoundTable()) ==> SoundTable() && res == Ok
      ensures old(FullTable()) ==> FullTable()
      ensures res == Ok && wcnt == 0 ==> FullTable()
      ensures res != Ok ==> res == IntErr && wcnt == 0
    {
      hide OthersKept, Sound, Full, Geometry.Valid, FATFS.Valid, FATFS.Logical, FATFS.Fat, FileOk, Store.Valid, Store.Sect, DataArea, ClusterIndex, PlaceIn;
      hide Store.Inside, Store.SectorAt, Placed;
      ReadyIsBase();
      res, wcnt := Ok, 0;
      if fptr % 512 == 0 {
        var found;
        res, found := LocateForWrite();
        if found {
          wcnt := WriteHere(w);
        } else {
          SpliceNothing(content, fptr);
        }
      } else {
        CurrentCluster(fs.g.csize, chain, objsize, cached, fptr, clust);
        Facts();
        InsideBySize(fptr / 512);
        wcnt := PutPart(w, sect, fptr / 512);
      }
    }

    /** Writing at a sector boundary, the cluster being known. */
    method WriteHere(w: seq<Byte>) returns (wcnt: nat)
      requires Base() && |w| > 0 && fptr <= |content| && fptr + |w| < 0x1_0000_0000
      requires fptr % 512 == 0 && ClusterIndex(fptr / 512, fs.g.csize) < |chain|
      requires clust == chain[ClusterIndex(fptr / 512, fs.g.csize)]
      modifies this`content, this`objsize, this`dirty, this`sect, this`cached, this`fptr, fs`disk, buf
      ensures Ready() && fs.Fat() == old(fs.Fat())
      ensures SoundTable() == old(SoundTable()) && FullTable() == old(FullTable())
      ensures 0 < wcnt <= |w| && fptr == old(fptr) + wcnt
      ensures content == Splice(old(content), old(fptr), w[..wcnt])
    {
      hide OthersKept, Sound, Full, Geometry.Valid, FATFS.Valid, FATFS.Logical, FATFS.Fat, FileOk, Store.Valid, Store.Sect, DataArea, ClusterIndex, PlaceIn;
      hide Store.Inside, Store.SectorAt, Placed;
      ghost var si := fptr / 512;
      WriteBack();
      Facts();
      InsideBySize(si);
      AddressOf(St(), si, clust);
      var csect := PlaceIn(fptr / 512, fs.g.csize);
      var s := ClusterSector(fs.g, clust) + csect;
      if |w| / 512 > 0 {
        wcnt := WriteWhole(w, csect, s, si);
      } else {
        if fptr < objsize {
          LoadSector(s, si);
          InsideBySize(si);
          Facts();
          AddressOf(St(), si, clust);
        }
        wcnt := PutPart(w, s, si);
      }
    }

    /** The pass with whole sectors: as many as there are and the cluster holds. */
    method WriteWhole(w: seq<Byte>, csect: nat, s: nat, ghost si: nat) returns (wcnt: nat)
      requires Base() && !dirty && |w| >= 512 && fptr <= |content| && fptr + |w| < 0x1_0000_0000 && fptr % 512 == 0 && si == fptr / 512
      requires ClusterIndex(si, fs.g.csize) < |chain| && clust == chain[ClusterIndex(si, fs.g.csize)]
      requires St().Inside(si) && s == St().Sect(si) && csect == PlaceIn(si, fs.g.csize)
      modifies this`content, this`objsize, this`dirty, this`fptr, fs`disk, buf
      ensures Ready() && fs.Fat() == old(fs.Fat())
      ensures SoundTable() == old(SoundTable()) && FullTable() == old(FullTable())
      ensures 0 < wcnt <= |w| && fptr == old(fptr) + wcnt
      ensures content == Splice(old(content), old(fptr), w[..wcnt])
    {
      hide OthersKept, Sound, Full, Geometry.Valid, FATFS.Valid, FATFS.Logical, FATFS.Fat, FileOk, Store.Valid, Store.Sect, DataArea, ClusterIndex, PlaceIn;
      hide Store.Inside, Store.SectorAt, Placed;
      var cc := |w| / 512;
      if csect + cc > fs.g.csize { cc := fs.g.csize - csect; }
      WriteRun(w, cc, s, si);
      PlacedAfterRun(fs.g.csize, chain, objsize, cached, fptr, cc, clust);
      fptr := fptr + 512 * cc;
      wcnt := 512 * cc;
      Facts();
    }

    /** The end of the pass: as much as fits the sector goes into the buffer, and the position moves on. */
    method PutPart(w: seq<Byte>, s: nat, ghost si: nat) returns (wcnt: nat)
      requires Base() && St().Inside(si) && s == St().Sect(si) && si == fptr / 512 && clust == chain[ClusterIndex(si, fs.g.csize)]
      requires |w| > 0 && fptr <= objsize && fptr + |w| < 0x1_0000_0000
      requires cached == si || (!dirty && fptr % 512 == 0 && fptr == objsize)
      modifies this`content, this`objsize, this`dirty, this`sect, this`cached, this`fptr, buf
      ensures Ready() && fs.Fat() == old(fs.Fat())
      ensures SoundTable() == old(SoundTable()) && FullTable() == old(FullTable())
      ensures 0 < wcnt <= |w| && fptr == old(fptr) + wcnt
      ensures content == Splice(old(content), old(fptr), w[..wcnt])
    {
      hide OthersKept, Sound, Full, Geometry.Valid, FATFS.Valid, FATFS.Logical, FATFS.Fat, FileOk, Store.Valid, Store.Sect, DataArea, ClusterIndex, PlaceIn;
      hide Store.SectorAt, Placed;
      wcnt := 512 - fptr % 512;
      if wcnt > |w| { wcnt := |w|; }
      WritePart(w, wcnt, s, si);
      Facts();
      PlacedAfterPart(fs.g.csize, chain, objsize, fptr, wcnt, clust);
      fptr := fptr + wcnt;
    }

    lemma InsideBySize(si: nat)
      requires Base() && ClusterIndex(si, fs.g.csize) < |chain|
      ensures St().Inside(si) && St().chain == chain && St().g == fs.g
    {
    }

    /** How many bytes `f_write` will try to write: the position must stay below 2^32. */
    function Room(btw: nat): nat
      reads this`fptr
      requires fptr < 0x1_0000_0000
    {
      if (fptr + btw) % 0x1_0000_0000 < fptr then 0xFFFF_FFFF - fptr else btw
    }

    /** The loop of `f_write`: passes until all is written, a cluster is missing, or the table is damaged. */
    method WriteLoop(w: seq<Byte>) returns (res: FResult, bw: nat)
      requires Ready() && fptr <= |content| && fptr + |w| < 0x1_0000_0000
      modifies this`clust, this`chain, this`sclust, this`content, this`objsize, this`dirty, this`sect, this`cached, this`fptr
      modifies fs, fs.win, buf
      ensures Ready()
      ensures bw <= |w| && fptr == old(fptr) + bw
      ensures content == Splice(old(content), old(fptr), w[..bw])
      ensures old(SoundTable()) ==> SoundTable() && res == Ok
      ensures old(FullTable()) ==> FullTable()
      ensures res == Ok ==> bw == |w| || FullTable()
      ensures res == Ok || res == IntErr
    {
      hide FIL.Ready, FIL.SoundTable, FIL.FullTable, Splice;
      ghost var c0, p0 := content, fptr;
      bw := 0;
      SpliceNothing(c0, p0);
      while bw < |w|
        invariant Ready()
        invariant bw <= |w| && fptr == p0 + bw
        invariant content == Splice(c0, p0, w[..bw])
        invariant old(SoundTable()) ==> SoundTable()
        invariant old(FullTable()) ==> FullTable()
        decreases |w| - bw
      {
        ghost var done := bw;
        var wcnt;
        res, wcnt := WriteStep(w[bw..|w|]);
        SpliceNext(c0, p0, w, done, |w|, wcnt);
        bw := bw + wcnt;
        if res != Ok || wcnt == 0 { return res, bw; }
      }
      res := Ok;
    }

    /**
     `f_write`: the bytes are laid over the content at the position, as far as there is room.
     On a sound table it never fails, and it stops short only when no cluster is free.
     */
    method Write(w: seq<Byte>) returns (res: FResult, bw: nat)
      requires Valid() && |w| < 0x1_0000_0000
      modifies this, fs, fs.win, buf
      ensures Valid()
      ensures old(err) != Ok || !writable ==>
        && res == (if old(err) != Ok then old(err) else Denied) && err == old(err)
        && bw == 0 && content == old(content) && fptr == old(fptr)
      ensures old(err) == Ok && writable ==>
        && old(fptr) <= |old(content)| && bw <= |w| && fptr == old(fptr) + bw
        && content == Splice(old(content), old(fptr), w[..bw])
        && res == err && (res == Ok || res == IntErr)
        && (res == Ok ==> bw == old(Room(|w|)) || FullTable())
        && (old(SoundTable()) ==> res == Ok)
      ensures old(SoundTable()) ==> SoundTable()
      ensures old(FullTable()) ==> FullTable()
    {
      hide FIL.Ready, FIL.Base, FIL.SoundTable, FIL.FullTable, Splice;
      bw := 0;
      if err != Ok {
        res := err;
      } else if !writable {
        res := Denied;
      } else {
        ReadyIsBase();
        var btw := |w|;
        WrapTest(fptr, btw);
        if (fptr + btw) % 0x1_0000_0000 < fptr { btw := 0xFFFF_FFFF - fptr; }
        res, bw := WriteLoop(w[..btw]);
        TakeTake(w, btw, bw);
        ReadyIsBase();
        if res != Ok {
          err := res;
        } else {
          modified := true;
        }
      }
    }

    lemma WrapTest(a: nat, b: nat)
      requires a < 0x1_0000_0000 && b < 0x1_0000_0000
      ensures (a + b) % 0x1_0000_0000 < a <==> a + b >= 0x1_0000_0000
    {
    }

    lemma ValidIsBase()
      requires Valid()
      ensures Base() && |content| == objsize
    {
    }

    lemma ReadyIsBase()
      requires Ready()
      ensures Base() && Placed(fs.g.csize, chain, objsize, cached, fptr, clust)
      ensures fptr <= |content| < 0x1_0000_0000 && |content| == objsize
    {
    }

    // ---------- f_lseek ----------

    /** The walk stands at the start of cluster `i` of the file, `rest` bytes before its goal. */
    ghost predicate AtCluster(i: int, rest: nat, goal: nat)
      reads this`chain, this`clust, this`fptr
    {
      0 <= i < |chain| && clust == chain[i] && fptr == i * (fs.g.csize * 512) && fptr + rest == goal && rest > 0
    }

    /** Where the walk starts: at the current cluster when seeking forward of its start, else at the file's first. */
    method SeekStart(ofs: nat) returns (res: FResult, rest: nat, ghost i: int)
      requires Ready() && ofs > 0
      modifies this`fptr, this`clust, this`chain, this`sclust, fs, fs.win
      ensures Base() && old(chain) <= chain
      ensures old(SoundTable()) ==> SoundTable() && res == Ok
      ensures old(FullTable()) ==> FullTable()
      ensures res == Ok || res == IntErr
      ensures res == Ok ==> if rest > 0 then AtCluster(i, rest, ofs) else fptr == 0 && FullTable()
    {
      hide OthersKept, Sound, Full, Geometry.Valid, FATFS.Valid, FATFS.Logical, FATFS.Fat, FileOk, Store.Valid, Store.Sect, Store.SectorAt, DataArea, ClusterIndex, PlaceIn;
      Facts();
      var bcs := fs.g.csize * 512;
      var ifptr := fptr;
      fptr, i, res, rest := 0, 0, Ok, ofs;
      if ifptr > 0 && (ofs - 1) / bcs >= (ifptr - 1) / bcs {
        StartsBefore(fs.g.csize, bcs, ifptr - 1, ofs - 1);
        i := ClusterIndex((ifptr - 1) / 512, fs.g.csize);
        fptr := (ifptr - 1) - (ifptr - 1) % bcs;
        rest := ofs - fptr;
      } else {
        var clst := sclust;
        if clst == 0 {
          clst := Extend(0, -1);
          if clst == 1 { return IntErr, 0, 0; }
          if clst == 0 { rest := 0; }
        }
        clust := clst;
        Facts();
      }
    }

    /** The cluster-following loop: in write mode it stretches the chain, and stops at a full disk. */
    method SeekWalk(ofs: nat, ghost i0: int, ghost goal: nat) returns (res: FResult, rest: nat, ghost i: int)
      requires Base() && AtCluster(i0, ofs, goal) && (writable || goal <= objsize)
      modifies this`fptr, this`clust, this`chain, this`sclust, fs, fs.win
      ensures Base() && old(chain) <= chain
      ensures old(SoundTable()) ==> SoundTable() && res == Ok
      ensures old(FullTable()) ==> FullTable()
      ensures res == Ok || res == IntErr
      ensures res == Ok ==> rest <= fs.g.csize * 512 && fptr + rest <= goal && AtCluster(i, rest, fptr + rest)
      ensures res == Ok ==> fptr + rest == goal || FullTable()
    {
      hide OthersKept, Sound, Full, Geometry.Valid, FATFS.Valid, FATFS.Logical, FATFS.Fat, FileOk, Store.Valid, Store.Sect, Store.SectorAt, DataArea, ClusterIndex, PlaceIn;
      hide FIL.SoundTable, FIL.FullTable;
      var bcs := fs.g.csize * 512;
      rest, i, res := ofs, i0, Ok;
      while rest > bcs
        invariant Base() && AtCluster(i, rest, goal) && old(chain) <= chain
        invariant old(SoundTable()) ==> SoundTable()
        invariant old(FullTable()) ==> FullTable()
        decreases rest
      {
        var clst: nat;
        if writable {
          clst := Extend(clust, i);
          if clst == 0 {
            rest := bcs;
            return;
          }
          if clst <= 1 { return IntErr, rest, i; }
        } else {
          clst := FollowInside(clust, i);
        }
        clust := clst;
        fptr := fptr + bcs;
        rest := rest - bcs;
        i := i + 1;
      }
    }

    /** Following the chain without stretching it, where the size says there is a next cluster. */
    method FollowInside(c: nat, ghost i: nat) returns (next: nat)
      requires Base() && i < |chain| && c == chain[i] && (i + 1) * (fs.g.csize * 512) < objsize
      modifies fs`disk, fs`wFlag, fs`winSect, fs.win
      ensures Base() && SoundTable() == old(SoundTable()) && FullTable() == old(FullTable())
      ensures i + 1 < |chain| && next == chain[i + 1]
    {
      hide OthersKept, Sound, Full, Geometry.Valid, FATFS.Valid, FATFS.Logical, FATFS.Fat, FileOk, Store.Valid, Store.Sect, Store.SectorAt, DataArea, ClusterIndex, PlaceIn;
      Facts();
      Holding();
      ghost var bcs := fs.g.csize * 512;
      ByteInCluster(fs.g.csize, bcs, i + 1, 0);
      assert St().Inside(((i + 1) * bcs + 0) / 512);
      next := NextOf(c);
      Facts();
    }

    /** Landing: the position, the buffer if it is inside a sector, and the size if it grew. */
    method SeekLand(rest: nat, ghost i: int)
      requires Base() && AtCluster(i, rest, fptr + rest) && rest <= fs.g.csize * 512 && fptr + rest < 0x1_0000_0000
      modifies this`fptr, this`dirty, this`sect, this`cached, this`objsize, this`content, this`modified, fs`disk, buf
      ensures Ready() && fptr == old(fptr) + rest
      ensures SoundTable() == old(SoundTable()) && FullTable() == old(FullTable())
      ensures old(content) <= content && |content| == if fptr > |old(content)| then fptr else |old(content)|
    {
      hide OthersKept, Sound, Full, Geometry.Valid, FATFS.Valid, FATFS.Logical, FATFS.Fat, FileOk, Store.Valid, Store.Sect, Store.SectorAt, DataArea, ClusterIndex, PlaceIn;
      Facts();
      hide FIL.AtCluster, Placed;
      LandingHere(i, rest);
      fptr := fptr + rest;
      if rest % 512 != 0 {
        var nsect := ClusterSector(fs.g, clust);
        AddressOf(St(), fptr / 512, clust);
        nsect := nsect + rest / 512;
        LoadSector(nsect, fptr / 512);
      }
      GrowTo(i);
      ReadyWhereSeeked(i);
    }

    lemma LandingHere(i: int, rest: nat)
      requires 0 < fs.g.csize && AtCluster(i, rest, fptr + rest) && rest <= fs.g.csize * 512
      ensures 0 <= i < |chain| && clust == chain[i] && rest > 0
      ensures ClusterIndex((fptr + rest - 1) / 512, fs.g.csize) == i && (fptr + rest) % 512 == rest % 512
      ensures rest % 512 != 0 ==>
        ClusterIndex((fptr + rest) / 512, fs.g.csize) == i && PlaceIn((fptr + rest) / 512, fs.g.csize) == rest / 512
    {
      Landing(fs.g.csize, fs.g.csize * 512, i, rest, fptr + rest);
    }

    lemma ReadyWhereSeeked(i: int)
      requires Base() && 0 < fptr <= |content| && 0 <= i < |chain| && clust == chain[i]
      requires ClusterIndex((fptr - 1) / 512, fs.g.csize) == i
      requires fptr % 512 != 0 ==> cached == fptr / 512
      ensures Ready()
    {
    }

    /** The size follows the position; the bytes in between are what the clusters hold. */
    method GrowTo(ghost i: int)
      requires Base() && 0 <= i < |chain| && fptr < 0x1_0000_0000
      requires fptr > 0 ==> ClusterIndex((fptr - 1) / 512, fs.g.csize) == i
      modifies this`objsize, this`content, this`modified
      ensures Base() && fs.Fat() == old(fs.Fat())
      ensures old(content) <= content && |content| == if fptr > |old(content)| then fptr else |old(content)|
    {
      hide OthersKept, Sound, Full, Geometry.Valid, FATFS.Valid, FATFS.Logical, FATFS.Fat, FileOk, Store.Valid, Store.Sect, Store.SectorAt, DataArea, ClusterIndex, PlaceIn;
      if fptr > objsize {
        Facts();
        Holding();
        ghost var st := St();
        forall k | 0 <= k < fptr ensures st.Inside(k / 512) {
          ClusterMonotone(k / 512, (fptr - 1) / 512, fs.g.csize);
        }
        ghost var c, n := content, fptr;
        ghost var more := seq(n, k requires 0 <= k < n =>
          if k < |c| then c[k] else st.SectorAt(k / 512)[k % 512]);
        assert c <= more;
        FileAfterGrowth(fs.Fat(), fs.winSect, st, sclust, sect, content, more);
        objsize := fptr;
        modified := true;
        content := more;
      }
    }

    /**
     `f_lseek`: the position asked for, clipped to the size of a file that may not grow and, where
     the disk fills up, to the clusters there are.  Seeking past the end extends the content.
     */
    method Seek(offset: nat) returns (res: FResult)
      requires Valid() && offset < 0x1_0000_0000
      modifies this, fs, fs.win, buf
      ensures Valid() && res == err
      ensures old(err) != Ok ==> err == old(err) && content == old(content) && fptr == old(fptr)
      ensures old(err) == Ok ==> err == Ok || err == IntErr
      ensures old(content) <= content
      ensures old(err) == Ok && res == Ok ==>
        && fptr <= old(Goal(offset)) && (fptr == old(Goal(offset)) || FullTable())
        && |content| == if fptr > |old(content)| then fptr else |old(content)|
      ensures old(err) == Ok && res != Ok ==> content == old(content)
      ensures old(SoundTable()) ==> SoundTable() && (old(err) == Ok ==> res == Ok)
      ensures old(FullTable()) ==> FullTable()
    {
      hide FIL.Ready, FIL.Base, FIL.SoundTable, FIL.FullTable, FIL.AtCluster;
      res := err;
      if err == Ok {
        ReadyIsBase();
        var ofs := if offset > objsize && !writable then objsize else offset;
        assert ofs == Goal(offset);
        if ofs == 0 {
          fptr := 0;
          ReadyAtZero();
        } else {
          var rest: nat;
          ghost var i: int;
          res, rest, i := SeekStart(ofs);
          if res == Ok {
            if rest == 0 {
              ReadyAtZero();
            } else {
              res, rest, i := SeekWalk(rest, i, ofs);
              if res == Ok {
                SeekLand(rest, i);
              }
            }
          }
          err := res;
        }
      }
    }

    /** The offset `f_lseek` aims at. */
    function Goal(offset: nat): nat
      reads this`objsize
    {
      if offset > objsize && !writable then objsize else offset
    }

    lemma ReadyAtZero()
      requires Base() && fptr == 0
      ensures Ready()
    {
    }
  }

  // ---------- runs ----------

  datatype Op = DoRead(btr: nat) | DoWrite(w: seq<Byte>) | DoSeek(offset: nat)

  datatype Outcome = Outcome(res: FResult, data: seq<Byte>, count: nat)

  /** A byte sequence with a position: what an open file is meant to be; and whether the volume is full. */
  datatype Tape = Tape(bytes: seq<Byte>, pos: nat, full: bool)

  /** What one operation may do to the tape; only if it leaves the volume full may it do less than was asked. */
  ghost predicate Allowed(r: bool, w: bool, a: Tape, op: Op, out: Outcome, b: Tape) {
    && a.pos <= |a.bytes| && b.pos <= |b.bytes| && (a.full ==> b.full)
    && match op
       case DoRead(n) =>
         && b.bytes == a.bytes && b.full == a.full
         && if !r then out.res == Denied && b == a
            else
              && out.res == Ok
              && b.pos == (if a.pos + n < |a.bytes| then a.pos + n else |a.bytes|)
              && out.data == a.bytes[a.pos..b.pos]
       case DoWrite(v) =>
         if !w then out.res == Denied && b.bytes == a.bytes && b.pos == a.pos
         else
           && out.res == Ok && out.count <= |v|
           && b.bytes == Splice(a.bytes, a.pos, v[..out.count]) && b.pos == a.pos + out.count
           && (b.full || out.count == if a.pos + |v| < 0x1_0000_0000 then |v| else 0xFFFF_FFFF - a.pos)
       case DoSeek(o) =>
         var goal := if o > |a.bytes| && !w then |a.bytes| else o;
         && out.res == Ok && a.bytes <= b.bytes
         && b.pos <= goal && (b.full || b.pos == goal)
         && |b.bytes| == if b.pos > |a.bytes| then b.pos else |a.bytes|
  }

  /** A run of operations with the tapes it goes through, one more than operations. */
  ghost predicate Run(r: bool, w: bool, tapes: seq<Tape>, ops: seq<Op>, outs: seq<Outcome>) {
    && |tapes| == |ops| + 1 && |outs| == |ops|
    && forall i :: 0 <= i < |ops| ==> Allowed(r, w, tapes[i], ops[i], outs[i], tapes[i + 1])
  }

  /** Operand ranges: buffers and offsets are 32-bit. */
  ghost predicate OpOk(op: Op) {
    match op
    case DoRead(_) => true
    case DoWrite(v) => |v| < 0x1_0000_0000
    case DoSeek(o) => o < 0x1_0000_0000
  }

  /** The tape that an open file stands for. */
  ghost function TapeOf(f: FIL): Tape
    requires f.Valid()
    reads f, f.buf, f.fs`disk, f.fs`wFlag, f.fs`winSect, f.fs.win
  {
    Tape(f.content, f.fptr, f.FullTable())
  }

  method Perform(f: FIL, op: Op) returns (out: Outcome)
    requires f.Valid() && f.err == Ok && f.SoundTable() && OpOk(op)
    modifies f, f.fs, f.fs.win, f.buf
    ensures f.Valid() && f.err == Ok && f.SoundTable()
    ensures old(f.FullTable()) ==> f.FullTable()
    ensures Allowed(f.readable, f.writable, old(TapeOf(f)), op, out, TapeOf(f))
  {
    hide FIL.Ready, FIL.Base, FIL.SoundTable, FIL.FullTable, Splice;
    f.ReadyIsBase();
    match op
    case DoRead(n) =>
      var res, data := f.Read(n);
      out := Outcome(res, data, |data|);
      f.ReadyIsBase();
    case DoWrite(v) =>
      var res, bw := f.Write(v);
      out := Outcome(res, [], bw);
      f.ReadyIsBase();
    case DoSeek(o) =>
      var res := f.Seek(o);
      out := Outcome(res, [], 0);
      f.ReadyIsBase();
  }

  /**
   Every run of reads, writes and seeks on one open file of a sound volume behaves as a byte
   sequence with a position; an operation that left a cluster free did not fall short.
   */
  method Session(f: FIL, ops: seq<Op>) returns (outs: seq<Outcome>, ghost tapes: seq<Tape>)
    requires f.Valid() && f.err == Ok && f.SoundTable()
    requires forall i :: 0 <= i < |ops| ==> OpOk(ops[i])
    modifies f, f.fs, f.fs.win, f.buf
    ensures f.Valid() && f.err == Ok && f.SoundTable()
    ensures Run(f.readable, f.writable, tapes, ops, outs)
    ensures tapes[0] == old(TapeOf(f)) && tapes[|ops|] == TapeOf(f)
  {
    hide FIL.Valid, FIL.SoundTable, FIL.FullTable, Allowed;
    outs, tapes := [], [TapeOf(f)];
    var i := 0;
    while i < |ops|
      invariant i <= |ops| && f.Valid() && f.err == Ok && f.SoundTable()
      invariant Run(f.readable, f.writable, tapes, ops[..i], outs)
      invariant tapes[0] == old(TapeOf(f)) && tapes[i] == TapeOf(f)
    {
      var out := Perform(f, ops[i]);
      outs, tapes := outs + [out], tapes + [TapeOf(f)];
      i := i + 1;
    }
    assert ops[..|ops|] == ops;
  }

  /** Did operation `i` of the run write the byte at offset `k`? */
  predicate Wrote(tapes: seq<Tape>, ops: seq<Op>, outs: seq<Outcome>, i: nat, k: nat)
    requires i < |ops| && i < |outs| && i < |tapes|
  {
    ops[i].DoWrite? && tapes[i].pos <= k < tapes[i].pos + outs[i].count
  }

  /** A byte of the file that nothing writes to keeps its value through the run. */
  lemma {:induction false} Untouched(r: bool, w: bool, tapes: seq<Tape>, ops: seq<Op>, outs: seq<Outcome>,
                                     i: nat, j: nat, k: nat)
    requires Run(r, w, tapes, ops, outs) && i <= j <= |ops| && k < |tapes[i].bytes|
    requires forall m :: i <= m < j ==> !Wrote(tapes, ops, outs, m, k)
    ensures k < |tapes[j].bytes| && tapes[j].bytes[k] == tapes[i].bytes[k]
    decreases j - i
  {
    if i < j {
      var a, b := tapes[i], tapes[i + 1];
      assert Allowed(r, w, a, ops[i], outs[i], b);
      if ops[i].DoWrite? && w {
        SpliceAt(a.bytes, a.pos, ops[i].w[..outs[i].count]);
      }
      assert !Wrote(tapes, ops, outs, i, k);
      assert k < |b.bytes| && b.bytes[k] == a.bytes[k];
      Untouched(r, w, tapes, ops, outs, i + 1, j, k);
    }
  }

  /** A read returns, at every offset it covers, the byte that was written there last. */
  lemma ReadsLastWritten(tapes: seq<Tape>, ops: seq<Op>, outs: seq<Outcome>, i: nat, j: nat, k: nat)
    requires Run(true, true, tapes, ops, outs) && i < j < |ops|
    requires Wrote(tapes, ops, outs, i, k)
    requires forall m :: i < m < j ==> !Wrote(tapes, ops, outs, m, k)
    requires ops[j].DoRead? && tapes[j].pos <= k < tapes[j + 1].pos
    ensures k - tapes[i].pos < |ops[i].w|
    ensures k - tapes[j].pos < |outs[j].data|
    ensures outs[j].data[k - tapes[j].pos] == ops[i].w[k - tapes[i].pos]
  {
    var a := tapes[i];
    assert Allowed(true, true, a, ops[i], outs[i], tapes[i + 1]);
    SpliceAt(a.bytes, a.pos, ops[i].w[..outs[i].count]);
    Untouched(true, true, tapes, ops, outs, i + 1, j, k);
    assert Allowed(true, true, tapes[j], ops[j], outs[j], tapes[j + 1]);
  }
}
