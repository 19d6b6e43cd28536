/**
 Making and mounting a volume: `f_mkfs` and `find_volume` of `fatfs/src/ff.c`, over a disk driver that
 reports an erase block of one sector (`fatfs/src/diskio.c`).  What the one writes in the boot sector
 the other has to read back.
 */
module FatMake {
  import opened FatVolume
  import opened FatStore

  // ---------- little-endian fields of a sector ----------

  function LdDword(s: Sector, k: nat): nat
    requires k + 4 <= 512
  {
    FatType.Word(s, k) + FatType.Word(s, k + 2) * 65536
  }

  function StWord(s: Sector, k: nat, v: nat): (r: Sector)
    requires k + 2 <= 512
    ensures r[k] == v % 256 && r[k + 1] == v / 256 % 256
    ensures forall i :: 0 <= i < 512 && i != k && i != k + 1 ==> r[i] == s[i]
  {
    s[k := v % 256][k + 1 := v / 256 % 256]
  }

  function StDword(s: Sector, k: nat, v: nat): (r: Sector)
    requires k + 4 <= 512
    ensures r[k] == v % 65536 % 256 && r[k + 1] == v % 65536 / 256 % 256
    ensures r[k + 2] == v / 65536 % 256 && r[k + 3] == v / 65536 / 256 % 256
    ensures forall i :: 0 <= i < 512 && !(k <= i < k + 4) ==> r[i] == s[i]
  {
    StWord(StWord(s, k, v % 65536), k + 2, v / 65536)
  }

  function Copied(s: Sector, k: nat, b: seq<Byte>): (r: Sector)
    requires k + |b| <= 512
    ensures forall i :: 0 <= i < |b| ==> r[k + i] == b[i]
    ensures forall i :: 0 <= i < 512 && !(k <= i < k + |b|) ==> r[i] == s[i]
  {
    s[..k] + b + s[k + |b|..]
  }

  function Blank(): (r: Sector)
    ensures forall i :: 0 <= i < 512 ==> r[i] == 0
  {
    seq(512, _ => 0)
  }

  lemma WordBytes(v: nat)
    requires v < 65536
    ensures v % 256 + v / 256 % 256 * 256 == v
  {
  }

  // ---------- the plan of a volume ----------

  datatype Option<T> = None | Some(value: T)

  datatype Layout = Layout(fmt: FatType, bVol: nat, nVol: nat, au: nat, nRsv: nat, nFat: nat, nDir: nat, nClst: nat)
  {
    /** Reserved sectors, table and root directory. */
    function System(): nat {
      nRsv + nFat + nDir
    }

    function Fat(): nat { bVol + nRsv }
    function Data(): nat { bVol + System() }
  }

  /** At most one bit is set: `x & (x - 1)` is zero. */
  predicate OneBit(x: nat) {
    x <= 1 || (x % 2 == 0 && OneBit(x / 2))
  }

  function Wrap(x: nat): DWord {
    x % 0x1_0000_0000
  }

  /** The type that goes with a number of clusters. */
  function TypeOf(nClst: nat): FatType {
    if nClst >= 65526 then Fat32 else if nClst >= 4086 then Fat16 else Fat12
  }

  /** It is the narrowest in which the numbers of all the clusters stay below the marks for bad and last ones. */
  lemma TypeIsNarrowest(n: nat, fmt: FatType)
    requires n + 2 <= 0x0FFF_FFF7
    ensures n + 2 <= TypeOf(n).MaxEntries()
    ensures n + 2 <= fmt.MaxEntries() ==> TypeOf(n).MaxEntries() <= fmt.MaxEntries()
  {
  }

  /** The sizes that `f_mkfs` computes for `nVol` sectors and `au` sectors a cluster; none if it gives up. */
  function Plan(bVol: nat, nVol: DWord, au: nat): Option<Layout>
    requires au > 0
  {
    var n0: nat := nVol / au;
    var fmt := TypeOf(n0);
    var nFat := FatSectors(fmt, n0);
    var nRsv := if fmt.Fat32? then 32 else 1;
    var nDir := if fmt.Fat32? then 0 else 32;
    if nVol < nRsv + nFat + nDir + au then None
    else
      var nClst := (nVol - nRsv - nFat - nDir) / au;
      if (fmt.Fat16? && nClst < 4086) || (fmt.Fat32? && nClst < 65526) then None
      else Some(Layout(fmt, bVol, nVol, au, nRsv, nFat, nDir, nClst))
  }

  lemma DivMonotone(a: nat, b: nat, d: nat)
    requires d > 0 && a <= b
    ensures a / d <= b / d
  {
    assert a == a / d * d + a % d && b == b / d * d + b % d;
    StrictTimes(b / d, a / d, d);
  }

  lemma StrictTimes(x: nat, y: nat, d: nat)
    ensures x < y ==> x * d + d <= y * d
  {
    if x < y {
      MulMonotone(x + 1, y, d);
      assert (x + 1) * d == x * d + d;
    }
  }

  lemma DivStep(a: nat, d: nat)
    requires d > 0
    ensures (a + d) / d == a / d + 1
  {
    DivModUnique(a + d, d, a / d + 1, a % d);
  }

  /** Sectors for the table of `n0` clusters. */
  function FatSectors(fmt: FatType, n0: nat): nat {
    match fmt
    case Fat32 => Wrap(n0 * 4 + 8 + 512 - 1) / 512
    case Fat12 => ((n0 * 3 + 1) / 2 + 3 + 512 - 1) / 512
    case Fat16 => (n0 * 2 + 4 + 512 - 1) / 512
  }

  lemma RoomForEntries(fmt: FatType, n0: nat, n: nat)
    requires n <= n0 < 65526 && !fmt.Fat32?
    ensures 1 <= FatSectors(fmt, n0) < 65536 && fmt.Size(n + 2) <= FatSectors(fmt, n0) * 512
  {
  }

  /** What a plan holds: the table has room for every cluster, and the type goes with the number of clusters. */
  lemma PlanFits(bVol: nat, nVol: DWord, au: nat)
    requires 0 < au && Plan(bVol, nVol, au).Some?
    ensures var l := Plan(bVol, nVol, au).value;
      && l.nVol == nVol && l.au == au && l.bVol == bVol
      && l.System() + au <= nVol && l.nClst == (nVol - l.System()) / au
      && 1 <= l.nClst && TypeOf(l.nClst) == l.fmt
      && (l.fmt.Fat32? ==> nVol >= 65536)
      && 1 <= l.nRsv <= 32 && l.nDir == (if l.fmt.Fat32? then 0 else 32)
      && (!l.fmt.Fat32? ==> l.nRsv == 1 && 1 <= l.nFat < 65536 && l.fmt.Size(l.nClst + 2) <= l.nFat * 512)
  {
    var l := Plan(bVol, nVol, au).value;
    DivMonotone(nVol - l.System(), nVol, au);
    DivMonotone(au, nVol - l.System(), au);
    DivStep(0, au);
    hide FatSectors;
    if l.fmt.Fat32? {
      Divided(nVol, au);
      Divided(nVol - l.System(), au);
    } else {
      RoomForEntries(l.fmt, nVol / au, l.nClst);
    }
  }

  /** The table is as short as it can be for the entries of the first count of clusters. */
  ghost predicate LeastTable(fmt: FatType, n0: nat, nFat: nat) {
    nFat > 0 && fmt.Size(n0 + 2) <= 512 * nFat && 512 * (nFat - 1) < fmt.Size(n0 + 2)
  }

  lemma FatSectorsLeast(fmt: FatType, n0: nat, nFat: nat)
    requires LeastTable(fmt, n0, nFat) && n0 * 4 + 519 < 0x1_0000_0000
    ensures FatSectors(fmt, n0) == nFat
  {
    match fmt
    case Fat12 => assert (n0 * 3 + 1) / 2 + 3 == fmt.Size(n0 + 2);
    case Fat16 =>
    case Fat32 => WrapSmall(n0 * 4 + 519);
  }

  /**
   When `f_mkfs` makes a volume, and how: with the shortest table for `nVol / au` clusters, and the reserved and root
   sectors that go with their type, there is room for one cluster, and the clusters that fit are still of that type.
   */
  lemma PlanIff(bVol: nat, nVol: DWord, au: nat, nFat: nat)
    requires 0 < au && nVol / au * 4 + 519 < 0x1_0000_0000
    requires LeastTable(TypeOf(nVol / au), nVol / au, nFat)
    ensures var fmt := TypeOf(nVol / au);
      var sys := nFat + if fmt == Fat32 then 32 else 33;
      && (Plan(bVol, nVol, au).Some? <==> sys + au <= nVol && TypeOf((nVol - sys) / au) == fmt)
      && (Plan(bVol, nVol, au).Some? ==>
            var l := Plan(bVol, nVol, au).value;
            && l.fmt == fmt && l.nFat == nFat && l.System() == sys && l.nClst == (nVol - sys) / au
            && l.bVol == bVol && l.nVol == nVol && l.au == au && l.nRsv == if fmt == Fat32 then 32 else 1)
  {
    var fmt, n0: nat := TypeOf(nVol / au), nVol / au;
    FatSectorsLeast(fmt, n0, nFat);
    var sys := nFat + if fmt == Fat32 then 32 else 33;
    if sys + au <= nVol {
      DivMonotone(nVol - sys, nVol, au);
    }
    hide FatSectors, LeastTable;
  }

  lemma Divided(a: nat, d: nat)
    requires d > 0
    ensures a / d <= a
  {
    MulMonotone(1, d, a / d);
    assert a == a / d * d + a % d;
    assert d * (a / d) == a / d * d;
  }

  // ---------- the unit of allocation ----------

  const VST: seq<nat> := [1024, 512, 256, 128, 64, 32, 16, 8, 4, 2, 0]
  const CST: seq<nat> := [32768, 16384, 8192, 4096, 2048, 16384, 8192, 4096, 2048, 1024, 512]

  /** The first place from `i` on whose size the volume reaches. */
  function Slot(vs: nat, i: nat): (r: nat)
    requires i <= 10
    ensures i <= r <= 10 && vs >= VST[r] && forall j :: i <= j < r ==> vs < VST[j]
    decreases 10 - i
  {
    if vs < VST[i] then Slot(vs, i + 1) else i
  }

  /** Sectors to a cluster, from the unit asked for in bytes or sectors; 0 asks for a choice by size. */
  function Unit(au: nat, nVol: nat): nat {
    var a := if OneBit(au) then au else 0;
    var b := if a == 0 then CST[Slot(nVol / 2000, 0)] else a;
    var c := if b >= 512 then b / 512 else b;
    if c == 0 then 1 else if c > 128 then 128 else c
  }

  lemma Power128()
    ensures OneBit(128) && OneBit(64) && OneBit(32) && OneBit(16) && OneBit(8) && OneBit(4) && OneBit(2) && OneBit(1)
  {
    assert OneBit(4) && OneBit(8);
    assert OneBit(16) && OneBit(32);
    assert OneBit(64) && OneBit(128);
  }

  lemma OneBit8(x: nat)
    requires OneBit(x)
    ensures OneBit(x / 8)
  {
    if x > 1 {
      assert OneBit(x / 2);
      if x / 2 > 1 {
        assert OneBit(x / 2 / 2);
        if x / 2 / 2 > 1 {
          assert OneBit(x / 2 / 2 / 2);
        }
      }
    }
  }

  lemma UnitFits(au: nat, nVol: nat)
    ensures 1 <= Unit(au, nVol) <= 128 && OneBit(Unit(au, nVol))
  {
    Power128();
    var a := if OneBit(au) then au else 0;
    var b := if a == 0 then CST[Slot(nVol / 2000, 0)] else a;
    if a != 0 {
      OneBit8(b);
      OneBit8(b / 8);
      OneBit8(b / 8 / 8);
      assert b / 8 / 8 / 8 == b / 512;
    }
  }

  /** Two to the power `k`. */
  function Power(k: nat): nat {
    if k == 0 then 1 else 2 * Power(k - 1)
  }

  ghost predicate IsPower(x: nat) {
    exists k: nat :: x == Power(k)
  }

  /** The test on single bits finds the powers of two, and 0. */
  lemma {:induction false} OneBitIff(x: nat)
    ensures OneBit(x) <==> x == 0 || IsPower(x)
  {
    if x == 0 {
    } else if x == 1 {
      assert x == Power(0);
    } else {
      OneBitIff(x / 2);
      if x % 2 == 0 && IsPower(x / 2) {
        var k: nat :| x / 2 == Power(k);
        assert x == Power(k + 1);
      }
      if IsPower(x) {
        var k: nat :| x == Power(k);
        assert x / 2 == Power(k - 1);
      }
    }
  }

  /** The bytes of a cluster that `f_mkfs` chooses by itself for a volume of `nVol` sectors. */
  ghost predicate ChosenBySize(nVol: nat, bytes: nat) {
    && (2_048_000 <= nVol ==> bytes == 32768)
    && (1_024_000 <= nVol < 2_048_000 ==> bytes == 16384)
    && (512_000 <= nVol < 1_024_000 ==> bytes == 8192)
    && (256_000 <= nVol < 512_000 ==> bytes == 4096)
    && (128_000 <= nVol < 256_000 ==> bytes == 2048)
    && (64_000 <= nVol < 128_000 ==> bytes == 16384)
    && (32_000 <= nVol < 64_000 ==> bytes == 8192)
    && (16_000 <= nVol < 32_000 ==> bytes == 4096)
    && (8_000 <= nVol < 16_000 ==> bytes == 2048)
    && (4_000 <= nVol < 8_000 ==> bytes == 1024)
    && (nVol < 4_000 ==> bytes == 512)
  }

  /**
   What becomes of a request for clusters: a power of two is taken as sectors up to 128 and as bytes from 512 to
   65536, what is above or between gives the largest cluster, and anything else leaves the choice to the size.
   */
  ghost predicate AsAsked(request: nat, nVol: nat, unit: nat) {
    && (IsPower(request) && request <= 128 ==> unit == request)
    && (IsPower(request) && 512 <= request <= 65536 ==> 512 * unit == request)
    && (IsPower(request) && (128 < request < 512 || 65536 < request) ==> unit == 128)
    && (!IsPower(request) ==> ChosenBySize(nVol, 512 * unit))
  }

  lemma UnitAsAsked(au: nat, nVol: nat)
    ensures AsAsked(au, nVol, Unit(au, nVol))
  {
    OneBitIff(au);
    assert !IsPower(0) by { PowerPositive(); }
    if OneBit(au) && au > 0 {
      hide OneBit, Slot;
      Multiple512(au);
    } else {
      SlotBySize(nVol);
    }
  }

  lemma {:induction false} PowerAtLeast(k: nat)
    ensures Power(k) >= 1
  {
    if k > 0 { PowerAtLeast(k - 1); }
  }

  lemma PowerPositive()
    ensures !IsPower(0)
  {
    forall k: nat ensures Power(k) != 0 {
      PowerAtLeast(k);
    }
  }

  lemma Multiple8(x: nat)
    requires OneBit(x) && x >= 8
    ensures x == 8 * (x / 8) && OneBit(x / 8)
  {
    assert OneBit(x / 2) && OneBit(x / 2 / 2);
    assert OneBit(x / 2 / 2 / 2);
  }

  lemma Multiple512(x: nat)
    requires OneBit(x)
    ensures x >= 512 ==> x == 512 * (x / 512)
  {
    hide OneBit;
    if x >= 512 {
      Multiple8(x);
      Multiple8(x / 8);
      Multiple8(x / 8 / 8);
      EightCubed(x, x / 8, x / 8 / 8, x / 8 / 8 / 8);
    }
  }

  lemma EightCubed(x: nat, a: nat, b: nat, c: nat)
    requires x == 8 * a && a == 8 * b && b == 8 * c
    ensures x == 512 * (x / 512)
  {
    DivModUnique(x, 512, c, 0);
  }

  lemma SlotBySize(nVol: nat)
    ensures var bytes := CST[Slot(nVol / 2000, 0)]; ChosenBySize(nVol, bytes) && bytes % 512 == 0 && 512 <= bytes <= 32768
  {
    var i := Slot(nVol / 2000, 0);
    hide Slot, ChosenBySize;
    if i <= 4 { LargeSlot(nVol, i); } else { SmallSlot(nVol, i); }
  }

  lemma LargeSlot(nVol: nat, i: nat)
    requires i <= 4 && nVol / 2000 >= VST[i] && (i > 0 ==> nVol / 2000 < VST[i - 1])
    ensures ChosenBySize(nVol, CST[i]) && CST[i] in {32768, 16384, 8192, 4096, 2048}
  {
    if i == 0 { assert ChosenBySize(nVol, 32768); }
    else if i == 1 { assert ChosenBySize(nVol, 16384); }
    else if i == 2 { assert ChosenBySize(nVol, 8192); }
  }

  lemma SmallSlot(nVol: nat, i: nat)
    requires 5 <= i <= 10 && nVol / 2000 >= VST[i] && nVol / 2000 < VST[i - 1]
    ensures ChosenBySize(nVol, CST[i]) && CST[i] in {16384, 8192, 4096, 2048, 1024, 512}
  {
    if i == 5 { assert ChosenBySize(nVol, 16384); }
    else if i == 6 { assert ChosenBySize(nVol, 8192); }
    else if i == 7 { assert ChosenBySize(nVol, 4096); }
  }

  // ---------- the sectors it writes ----------

  const BOOT_CODE: seq<Byte> := [0xEB, 0xFE, 0x90, 77, 83, 68, 79, 83, 53, 46, 48]
  const NO_NAME: seq<Byte> := [78, 79, 32, 78, 65, 77, 69, 32, 32, 32, 32]
  const FAT_NAME: seq<Byte> := [70, 65, 84, 32, 32, 32, 32, 32]
  const FAT32_NAME: seq<Byte> := [70, 65, 84, 51, 50, 32, 32, 32]

  /** The common part of the boot sector. */
  function BootHead(l: Layout, md: Byte): Sector {
    var s := Copied(Blank(), 0, BOOT_CODE);
    var s := StWord(s, 11, 512);
    var s: Sector := s[13 := l.au % 256];
    var s := StWord(s, 14, l.nRsv);
    var s: Sector := s[16 := 1];
    var s := StWord(s, 17, if l.fmt.Fat32? then 0 else 512);
    var s := if l.nVol < 0x1_0000 then StWord(s, 19, l.nVol) else StDword(s, 32, l.nVol % 0x1_0000);
    var s: Sector := s[21 := md];
    var s := StWord(s, 24, 63);
    var s := StWord(s, 26, 255);
    StDword(s, 28, l.bVol)
  }

  function BootSector(l: Layout, md: Byte, time: DWord): Sector {
    var s := BootHead(l, md);
    var s := if l.fmt.Fat32? then BootTail32(s, l.nFat, time) else BootTail(s, l.nFat, time);
    StWord(s, 510, 0xAA55)
  }

  function BootTail32(s: Sector, nFat: nat, time: DWord): Sector {
    var s := StDword(s, 67, time);
    var s := StDword(s, 36, nFat);
    var s := StDword(s, 44, 2);
    var s := StWord(s, 48, 1);
    var s := StWord(s, 50, 6);
    var s: Sector := s[64 := 0x80];
    var s: Sector := s[66 := 0x29];
    Copied(s, 71, NO_NAME + FAT32_NAME)
  }

  function BootTail(s: Sector, nFat: nat, time: DWord): Sector {
    var s := StDword(s, 39, time);
    var s := StWord(s, 22, nFat);
    var s: Sector := s[36 := 0x80];
    var s: Sector := s[38 := 0x29];
    Copied(s, 43, NO_NAME + FAT_NAME)
  }

  /** The partition table, with one partition from sector 63 on. */
  function PartitionTable(l: Layout): Sector {
    var n := (l.bVol + l.nVol) / 63 / 255;
    var sys := if l.fmt.Fat32? then 0x0C else if l.nVol >= 0x1_0000 then 0x06 else if l.fmt.Fat12? then 0x01 else 0x04;
    var s: Sector := Blank()[447 := 1][448 := 1][449 := 0][450 := sys][451 := 254];
    var s: Sector := s[452 := (n / 4 / 64 * 64 + 63) % 256][453 := n % 256];
    var s := StDword(s, 454, 63);
    var s := StDword(s, 458, l.nVol);
    StWord(s, 510, 0xAA55)
  }

  /** The first sector of the table: the entries that stand for no cluster, and on FAT32 the root directory. */
  function FatHead(fmt: FatType, md: Byte): Sector {
    match fmt
    case Fat12 => StDword(Blank(), 0, 0x00FF_FF00 + md)
    case Fat16 => StDword(Blank(), 0, 0xFFFF_FF00 + md)
    case Fat32 => StDword(StDword(StDword(Blank(), 0, 0xFFFF_FF00 + md), 4, 0xFFFF_FFFF), 8, 0x0FFF_FFFF)
  }

  /** The free counts of FAT32. */
  function InfoSector(l: Layout): Sector
    requires l.nClst > 0
  {
    var s := StDword(Blank(), 0, 0x41615252);
    var s := StDword(s, 484, 0x61417272);
    var s := StDword(s, 488, l.nClst - 1);
    var s := StDword(s, 492, 2);
    StWord(s, 510, 0xAA55)
  }

  /** The fields of the boot sector, read back. */
  ghost predicate Describes(b: Sector, l: Layout) {
    && FatType.Word(b, 11) == 512 && b[13] == l.au && FatType.Word(b, 14) == l.nRsv && b[16] == 1
    && FatType.Word(b, 17) == (if l.fmt.Fat32? then 0 else 512)
    && FatType.Word(b, 19) == (if l.nVol < 65536 then l.nVol else 0)
    && (l.nVol >= 65536 ==> LdDword(b, 32) == l.nVol % 65536)
    && FatType.Word(b, 22) == (if l.fmt.Fat32? then 0 else l.nFat)
    && (l.fmt.Fat32? ==> LdDword(b, 36) == l.nFat && FatType.Word(b, 42) == 0)
    && FatType.Word(b, 510) == 0xAA55
    && (LdDword(b, 54) % 0x100_0000 == 0x54_4146 || LdDword(b, 82) % 0x100_0000 == 0x54_4146)
  }

  ghost predicate Storable(l: Layout) {
    && l.nVol < 0x1_0000_0000 && 1 <= l.au < 256 && l.nRsv < 65536
    && (if l.fmt.Fat32? then l.nFat < 0x1_0000_0000 else l.nFat < 65536)
  }

  /** The fields that the second half of the boot sector leaves alone. */
  ghost predicate SameFields(b: Sector, s: Sector) {
    && FatType.Word(b, 11) == FatType.Word(s, 11) && b[13] == s[13] && FatType.Word(b, 14) == FatType.Word(s, 14) && b[16] == s[16]
    && FatType.Word(b, 17) == FatType.Word(s, 17) && FatType.Word(b, 19) == FatType.Word(s, 19) && LdDword(b, 32) == LdDword(s, 32)
  }

  lemma BootReadsBack(l: Layout, md: Byte, time: DWord)
    requires Storable(l)
    ensures Describes(BootSector(l, md, time), l)
  {
    hide BootHead, BootTail, BootTail32, StWord, LdDword, FatType.Word;
    var h := BootHead(l, md);
    HeadReadsBack(l, md);
    if l.fmt.Fat32? {
      Tail32ReadsBack(h, l.nFat, time);
      SignedReadsBack(BootTail32(h, l.nFat, time));
    } else {
      TailReadsBack(h, l.nFat, time);
      SignedReadsBack(BootTail(h, l.nFat, time));
    }
  }

  /** The signature at the end leaves every other field alone. */
  lemma SignedReadsBack(s: Sector)
    ensures var b := StWord(s, 510, 0xAA55);
      && SameFields(b, s) && FatType.Word(b, 510) == 0xAA55 && FatType.Word(b, 22) == FatType.Word(s, 22)
      && FatType.Word(b, 42) == FatType.Word(s, 42) && LdDword(b, 36) == LdDword(s, 36)
      && LdDword(b, 54) == LdDword(s, 54) && LdDword(b, 82) == LdDword(s, 82)
  {
    hide StWord;
    WordBytes(0xAA55);
  }

  lemma HeadReadsBack(l: Layout, md: Byte)
    requires Storable(l)
    ensures var b := BootHead(l, md);
      && FatType.Word(b, 11) == 512 && b[13] == l.au && FatType.Word(b, 14) == l.nRsv && b[16] == 1
      && FatType.Word(b, 17) == (if l.fmt.Fat32? then 0 else 512)
      && FatType.Word(b, 19) == (if l.nVol < 65536 then l.nVol else 0)
      && (l.nVol >= 65536 ==> LdDword(b, 32) == l.nVol % 65536)
      && FatType.Word(b, 22) == 0 && FatType.Word(b, 36) == 0 && FatType.Word(b, 42) == 0
  {
    hide StWord, StDword, Copied, Blank;
    WordBytes(512);
    WordBytes(l.nRsv);
    WordBytes(l.nVol % 65536);
  }

  lemma TailReadsBack(s: Sector, nFat: nat, time: DWord)
    requires nFat < 65536
    ensures var b := BootTail(s, nFat, time);
      && SameFields(b, s) && FatType.Word(b, 22) == nFat
      && LdDword(b, 54) % 0x100_0000 == 0x54_4146
  {
    hide StWord, StDword, Copied;
    WordBytes(nFat);
    var b := BootTail(s, nFat, time);
    var n := NO_NAME + FAT_NAME;
    assert n[11] == 70 && n[12] == 65 && n[13] == 84 && n[14] == 32;
    assert b[43 + 11] == n[11] && b[43 + 12] == n[12] && b[43 + 13] == n[13] && b[43 + 14] == n[14];
  }

  lemma Tail32ReadsBack(s: Sector, nFat: nat, time: DWord)
    requires nFat < 0x1_0000_0000
    ensures var b := BootTail32(s, nFat, time);
      && SameFields(b, s) && FatType.Word(b, 22) == FatType.Word(s, 22) && FatType.Word(b, 42) == FatType.Word(s, 42) && LdDword(b, 36) == nFat
      && LdDword(b, 82) % 0x100_0000 == 0x54_4146
  {
    hide StWord, StDword, Copied;
    WordBytes(nFat % 65536);
    WordBytes(nFat / 65536);
    var b := BootTail32(s, nFat, time);
    var n := NO_NAME + FAT32_NAME;
    assert n[11] == 70 && n[12] == 65 && n[13] == 84 && n[14] == 51;
    assert b[71 + 11] == n[11] && b[71 + 12] == n[12] && b[71 + 13] == n[13] && b[71 + 14] == n[14];
  }

  /** The bytes of a text. */
  function Ascii(t: string): (b: seq<nat>)
    ensures |b| == |t| && forall i :: 0 <= i < |b| ==> b[i] == t[i] as nat
  {
    seq(|t|, i requires 0 <= i < |t| => t[i] as nat)
  }

  ghost predicate Reads(b: Sector, k: nat, t: string) {
    k + |t| <= 512 && forall i :: 0 <= i < |t| ==> b[k + i] == t[i] as nat
  }

  /** What a mount does not look at in the common part: names, media, drive geometry, and the place of the volume. */
  ghost predicate Labelled(b: Sector, bVol: nat, md: Byte) {
    && b[0] == 0xEB && b[1] == 0xFE && b[2] == 0x90 && Reads(b, 3, "MSDOS5.0")
    && b[21] == md && FatType.Word(b, 24) == 63 && FatType.Word(b, 26) == 255 && LdDword(b, 28) == bVol
  }

  /** And in the rest: the root's cluster and the places of the sectors of FAT32, drive number, serial number, and names. */
  ghost predicate Numbered(b: Sector, time: DWord) {
    b[36] == 0x80 && b[38] == 0x29 && LdDword(b, 39) == time && Reads(b, 43, "NO NAME    FAT     ")
  }

  ghost predicate Numbered32(b: Sector, time: DWord) {
    && LdDword(b, 44) == 2 && FatType.Word(b, 48) == 1 && FatType.Word(b, 50) == 6
    && b[64] == 0x80 && b[66] == 0x29 && LdDword(b, 67) == time && Reads(b, 71, "NO NAME    FAT32   ")
  }

  ghost predicate SameTo(a: Sector, b: Sector, lo: nat, hi: nat) {
    hi <= 512 && forall i :: lo <= i < hi ==> a[i] == b[i]
  }

  lemma BootIsLabelled(l: Layout, md: Byte, time: DWord)
    requires l.bVol <= 63
    ensures var b := BootSector(l, md, time);
      Labelled(b, l.bVol, md) && if l.fmt.Fat32? then Numbered32(b, time) else Numbered(b, time)
  {
    hide BootHead, BootTail, BootTail32, Labelled, Numbered, Numbered32;
    HeadLabelled(l, md);
    var h := BootHead(l, md);
    var t := if l.fmt.Fat32? then BootTail32(h, l.nFat, time) else BootTail(h, l.nFat, time);
    if l.fmt.Fat32? { Tail32Numbered(h, l.nFat, time); } else { TailNumbered(h, l.nFat, time); }
    Signed(t);
    StillLabelled(h, t, l.bVol, md);
    StillLabelled(t, StWord(t, 510, 0xAA55), l.bVol, md);
    StillNumbered(t, StWord(t, 510, 0xAA55), time);
  }

  lemma HeadLabelled(l: Layout, md: Byte)
    requires l.bVol <= 63
    ensures Labelled(BootHead(l, md), l.bVol, md)
  {
    hide StWord, StDword, Copied, Blank;
    DwordBytes(l.bVol);
    WordBytes(63);
    WordBytes(255);
    forall i | 0 <= i < 11 ensures BootHead(l, md)[i] == BOOT_CODE[i] {
    }
  }

  lemma TailNumbered(s: Sector, nFat: nat, time: DWord)
    ensures Numbered(BootTail(s, nFat, time), time) && SameTo(s, BootTail(s, nFat, time), 0, 22) && SameTo(s, BootTail(s, nFat, time), 24, 36)
  {
    hide StWord, StDword, Copied, NO_NAME, FAT_NAME;
    DwordBytes(time);
    NamesAre();
    var b, n := BootTail(s, nFat, time), NO_NAME + FAT_NAME;
    forall i | 0 <= i < 19 ensures b[43 + i] == n[i] {
    }
  }

  lemma NamesAre()
    ensures NO_NAME == Ascii("NO NAME    ") && FAT_NAME == Ascii("FAT     ") && FAT32_NAME == Ascii("FAT32   ")
    ensures NO_NAME + FAT_NAME == Ascii("NO NAME    FAT     ") && NO_NAME + FAT32_NAME == Ascii("NO NAME    FAT32   ")
  {
  }

  lemma Tail32Numbered(s: Sector, nFat: nat, time: DWord)
    ensures Numbered32(BootTail32(s, nFat, time), time) && SameTo(s, BootTail32(s, nFat, time), 0, 36)
  {
    hide StWord, StDword, Copied, NO_NAME, FAT32_NAME;
    DwordBytes(time);
    DwordBytes(2);
    WordBytes(1);
    WordBytes(6);
    NamesAre();
    var b, n := BootTail32(s, nFat, time), NO_NAME + FAT32_NAME;
    forall i | 0 <= i < 19 ensures b[71 + i] == n[i] {
    }
  }

  lemma Signed(s: Sector)
    ensures SameTo(s, StWord(s, 510, 0xAA55), 0, 510)
  {
  }

  lemma StillLabelled(a: Sector, b: Sector, bVol: nat, md: Byte)
    requires Labelled(a, bVol, md) && SameTo(a, b, 0, 22) && SameTo(a, b, 24, 36)
    ensures Labelled(b, bVol, md)
  {
  }

  lemma StillNumbered(a: Sector, b: Sector, time: DWord)
    requires SameTo(a, b, 0, 510)
    ensures (Numbered(a, time) ==> Numbered(b, time)) && (Numbered32(a, time) ==> Numbered32(b, time))
  {
  }

  lemma DwordBytes(v: DWord)
    ensures v % 65536 % 256 + v % 65536 / 256 % 256 * 256 + (v / 65536 % 256 + v / 65536 / 256 % 256 * 256) * 65536 == v
  {
    WordBytes(v % 65536);
    WordBytes(v / 65536);
  }

  /** The first partition is the whole volume, with the system number that goes with its type and size. */
  lemma PartitionIs(l: Layout)
    requires l.nVol < 0x1_0000_0000
    ensures var s := PartitionTable(l);
      && LdDword(s, 454) == 63 && LdDword(s, 458) == l.nVol && FatType.Word(s, 510) == 0xAA55 && s[446] == 0
      && s[450] == (match l.fmt case Fat32 => 0x0C case Fat16 => if l.nVol < 65536 then 0x04 else 0x06
                    case Fat12 => if l.nVol < 65536 then 0x01 else 0x06)
  {
    hide StWord, StDword, Blank;
    DwordBytes(63);
    DwordBytes(l.nVol);
  }

  /** The first and the last sector of the partition, by head, sector and the ten bits of the cylinder. */
  lemma PartitionEnds(l: Layout)
    ensures var s := PartitionTable(l);
      && s[447] == 1 && s[448] == 1 && s[449] == 0 && s[451] == 254
      && s[453] == (l.bVol + l.nVol) / (63 * 255) % 256 && s[452] % 64 == 63
      && s[452] / 64 == (l.bVol + l.nVol) / (63 * 255) / 256 % 4
  {
    hide StWord, StDword, Blank, LdDword;
    Cylinder((l.bVol + l.nVol) / 63 / 255);
  }

  lemma Cylinder(n: nat)
    ensures (n / 4 / 64 * 64 + 63) % 256 % 64 == 63 && (n / 4 / 64 * 64 + 63) % 256 / 64 == n / 256 % 4
  {
  }

  /** The information sector: its two marks, all clusters but the root's free, and the last one taken. */
  lemma InfoReadsBack(l: Layout)
    requires 0 < l.nClst < 0x1_0000_0000
    ensures var s := InfoSector(l);
      && Reads(s, 0, "RRaA") && Reads(s, 484, "rrAa") && LdDword(s, 488) == l.nClst - 1 && LdDword(s, 492) == 2
      && FatType.Word(s, 510) == 0xAA55
  {
    hide StWord, StDword, Blank;
    DwordBytes(l.nClst - 1);
    DwordBytes(2);
  }

  // ---------- mounting ----------

  datatype Mount = NoFilesystem | DiskFailed | Mounted(g: Geometry, nRootdir: nat, dirbase: nat)

  /** The fields of a boot sector that a mount looks at. */
  datatype Bpb = Bpb(bytsPerSec: nat, secPerClus: nat, rsvdSec: nat, numFats: nat, rootEnt: nat, totSec: nat,
    fatSz: nat, fsVer: nat, rootClus: nat)

  function Fields(boot: Sector): Bpb {
    Bpb(FatType.Word(boot, 11), boot[13], FatType.Word(boot, 14), boot[16], FatType.Word(boot, 17),
        if FatType.Word(boot, 19) == 0 then LdDword(boot, 32) else FatType.Word(boot, 19),
        if FatType.Word(boot, 22) == 0 then LdDword(boot, 36) else FatType.Word(boot, 22),
        FatType.Word(boot, 42), LdDword(boot, 44))
  }

  function Clusters(tsect: nat, sysect: nat, csize: nat): nat
    requires csize > 0
  {
    if tsect < sysect then 0 else (tsect - sysect) / csize
  }

  /** What `find_volume` makes of the boot sector at `bsect`; the geometry's total is the size of the drive. */
  function ReadBpb(b: Bpb, bsect: nat, total: nat): Mount {
    var fasize := if b.numFats == 2 then Wrap(2 * b.fatSz) else b.fatSz;
    var sysect := Wrap(b.rsvdSec + fasize + b.rootEnt / 16);
    if b.bytsPerSec != 512 || (b.numFats != 1 && b.numFats != 2) then NoFilesystem
    else if b.secPerClus == 0 || !OneBit(b.secPerClus) then NoFilesystem
    else if b.rootEnt % 16 != 0 || b.rsvdSec == 0 then NoFilesystem
    else
      var nclst := Clusters(b.totSec, sysect, b.secPerClus);
      if nclst == 0 then NoFilesystem
      else
        var fmt := TypeOf(nclst);
        var nFatent: nat := Wrap(nclst + 2);
        var fatbase, database := Wrap(bsect + b.rsvdSec), Wrap(bsect + sysect);
        var szbfat: nat := if fmt.Fat32? then Wrap(nFatent * 4) else fmt.Size(nFatent);
        if fmt.Fat32? && (b.fsVer != 0 || b.rootEnt != 0) then NoFilesystem
        else if !fmt.Fat32? && b.rootEnt == 0 then NoFilesystem
        else if b.fatSz < Wrap(szbfat + 511) / 512 then NoFilesystem
        else
          var dirbase := if fmt.Fat32? then b.rootClus else Wrap(fatbase + fasize);
          Mounted(Geometry(fmt, b.numFats, b.secPerClus, nFatent, b.fatSz, fatbase, database, total), b.rootEnt, dirbase)
  }

  /** What a mount asks of the fields, where no sum leaves 32 bits: `sys` sectors before the data, and `n` clusters. */
  ghost predicate Mountable(b: Bpb, sys: nat, n: nat) {
    && b.bytsPerSec == 512 && b.numFats in {1, 2} && IsPower(b.secPerClus) && b.rootEnt % 16 == 0 && b.rsvdSec > 0 && n > 0
    && (if TypeOf(n) == Fat32 then b.fsVer == 0 && b.rootEnt == 0 else b.rootEnt > 0)
    && TypeOf(n).Size(n + 2) <= 512 * b.fatSz
  }

  /**
   A volume mounts if and only if its fields are sensible, and then reserved sectors, table copies, root directory and
   as many whole clusters as fit follow each other from the start of the volume on.
   */
  lemma MountIff(b: Bpb, bsect: nat, total: nat, sys: nat, n: nat)
    requires b.secPerClus < 256 && sys == b.rsvdSec + b.numFats * b.fatSz + b.rootEnt / 16 && bsect + sys < 0x1_0000_0000
    requires b.secPerClus > 0 ==> n == (if b.totSec < sys then 0 else (b.totSec - sys) / b.secPerClus)
    requires 4 * n + 519 < 0x1_0000_0000
    ensures var m := ReadBpb(b, bsect, total);
      && (m.Mounted? <==> Mountable(b, sys, n))
      && (m.Mounted? ==>
            && m.g.fatbase == bsect + b.rsvdSec && m.g.database == bsect + sys && m.g.fsize == b.fatSz && m.g.nFats == b.numFats
            && m.g.csize == b.secPerClus && m.g.nFatent == n + 2 && m.g.fsType == TypeOf(n) && m.nRootdir == b.rootEnt
            && m.g.database + n * m.g.csize <= bsect + b.totSec < m.g.database + (n + 1) * m.g.csize
            && m.dirbase == if TypeOf(n) == Fat32 then b.rootClus else m.g.fatbase + m.g.nFats * m.g.fsize)
  {
    hide OneBit, Wrap, Clusters, FatType.Size, TypeOf, IsPower;
    OneBitIff(b.secPerClus);
    if b.secPerClus == 0 {
      PowerPositive();
    } else if b.numFats in {1, 2} {
      SumsSmall(b, bsect, sys, n);
      RoomIff(TypeOf(n), n, b.fatSz);
      MostClusters(b.totSec, sys, b.secPerClus);
    }
  }

  /** No sum leaves 32 bits. */
  lemma SumsSmall(b: Bpb, bsect: nat, sys: nat, n: nat)
    requires b.numFats in {1, 2} && sys == b.rsvdSec + b.numFats * b.fatSz + b.rootEnt / 16 && bsect + sys < 0x1_0000_0000
    requires 4 * n + 519 < 0x1_0000_0000
    ensures Wrap(2 * b.fatSz) == 2 * b.fatSz || b.numFats == 1
    ensures Wrap(sys) == sys && Wrap(n + 2) == n + 2 && Wrap((n + 2) * 4) == (n + 2) * 4
    ensures Wrap(bsect + b.rsvdSec) == bsect + b.rsvdSec && Wrap(bsect + sys) == bsect + sys
    ensures Wrap(bsect + b.rsvdSec + b.numFats * b.fatSz) == bsect + b.rsvdSec + b.numFats * b.fatSz
  {
  }

  lemma RoomIff(fmt: FatType, n: nat, fatSz: nat)
    requires 4 * n + 519 < 0x1_0000_0000
    ensures fmt.Fat32? ==> fmt.Size(n + 2) == (n + 2) * 4
    ensures fatSz < Wrap(fmt.Size(n + 2) + 511) / 512 <==> 512 * fatSz < fmt.Size(n + 2)
  {
  }

  lemma MostClusters(tsect: nat, sysect: nat, csize: nat)
    requires csize > 0
    ensures var n := Clusters(tsect, sysect, csize);
      && n == (if tsect < sysect then 0 else (tsect - sysect) / csize)
      && (n > 0 ==> sysect + n * csize <= tsect < sysect + (n + 1) * csize)
  {
    if tsect >= sysect {
      var q := (tsect - sysect) / csize;
      DivParts(tsect - sysect, csize);
      assert (q + 1) * csize == q * csize + csize;
    }
  }

  datatype BootKind = Fat | NotFat | NotBoot | Failed

  /** `check_fs`. */
  function CheckFs(d: Disk, sect: nat): BootKind {
    if sect >= |d| then Failed
    else if FatType.Word(d[sect], 510) != 0xAA55 then NotBoot
    else if LdDword(d[sect], 54) % 0x100_0000 == 0x54_4146 || LdDword(d[sect], 82) % 0x100_0000 == 0x54_4146 then Fat
    else NotFat
  }

  /** The start of partition `i` of a partition table, or 0. */
  function PartitionStart(s: Sector, i: nat): nat
    requires i < 4
  {
    if s[446 + 16 * i + 4] != 0 then LdDword(s, 446 + 16 * i + 8) else 0
  }

  function CheckPartition(d: Disk, i: nat): BootKind
    requires |d| > 0 && i < 4
  {
    if PartitionStart(d[0], i) != 0 then CheckFs(d, PartitionStart(d[0], i)) else NotBoot
  }

  /** The first partition from `i` on that has a boot sector. */
  function FirstFrom(d: Disk, i: nat): (r: Option<nat>)
    requires |d| > 0 && i <= 4
    ensures r.Some? ==> r.value < |d|
    decreases 4 - i
  {
    if i == 4 then None
    else if CheckPartition(d, i) == Fat then Some(PartitionStart(d[0], i))
    else FirstFrom(d, i + 1)
  }

  /** Where the volume starts: at sector 0, or else at the first partition that has a boot sector. */
  function VolumeAt(d: Disk): (r: Option<nat>)
    requires |d| > 0
    ensures r.Some? ==> r.value < |d|
  {
    match CheckFs(d, 0)
    case Fat => Some(0)
    case NotFat => FirstFrom(d, 0)
    case _ => None
  }

  /** A boot sector of the FAT family: its signature, and the name in one of its two places. */
  ghost predicate IsFatBoot(b: Sector) {
    b[510] == 0x55 && b[511] == 0xAA && (Reads(b, 54, "FAT") || Reads(b, 82, "FAT"))
  }

  lemma CheckIs(d: Disk, s: nat)
    ensures CheckFs(d, s) == Fat <==> s < |d| && IsFatBoot(d[s])
    ensures CheckFs(d, s) == NotFat <==> s < |d| && d[s][510] == 0x55 && d[s][511] == 0xAA && !IsFatBoot(d[s])
  {
    if s < |d| {
      NameIs(d[s], 54);
      NameIs(d[s], 82);
      hide LdDword;
    }
  }

  lemma NameIs(b: Sector, k: nat)
    requires k + 4 <= 512
    ensures LdDword(b, k) % 0x100_0000 == 0x54_4146 <==> Reads(b, k, "FAT")
  {
    LowThree(b[k], b[k + 1], b[k + 2], b[k + 3]);
    ReadsFat(b, k);
    hide Reads;
  }

  lemma LowThree(a: Byte, b: Byte, c: Byte, d: Byte)
    ensures (a as nat + b as nat * 256 + (c as nat + d as nat * 256) * 65536) % 0x100_0000 == 0x54_4146 <==> a == 0x46 && b == 0x41 && c == 0x54
  {
    FatType.LowPart(d as nat, a as nat + 256 * b as nat + 65536 * c as nat, 0x100_0000);
  }

  lemma ReadsFat(b: Sector, k: nat)
    requires k + 4 <= 512
    ensures Reads(b, k, "FAT") <==> b[k] == 0x46 && b[k + 1] == 0x41 && b[k + 2] == 0x54
  {
    var t := "FAT";
    assert t[0] == 70 as char && t[1] == 65 as char && t[2] == 84 as char;
    assert Reads(b, k, t) <==> b[k + 0] as nat == t[0] as nat && b[k + 1] as nat == t[1] as nat && b[k + 2] as nat == t[2] as nat;
  }

  /** Partition `i` of the table in sector 0 has a type and a start, and holds a boot sector there. */
  ghost predicate Bootable(d: Disk, i: nat)
    requires |d| > 0 && i < 4
  {
    var t := 446 + 16 * i;
    var start := FatType.Number(d[0][t + 8..t + 12]);
    d[0][t + 4] != 0 && 0 < start < |d| && IsFatBoot(d[start])
  }

  lemma BootableIs(d: Disk, i: nat)
    requires |d| > 0 && i < 4
    ensures CheckPartition(d, i) == Fat <==> Bootable(d, i)
    ensures Bootable(d, i) ==> PartitionStart(d[0], i) == FatType.Number(d[0][446 + 16 * i + 8..446 + 16 * i + 12])
  {
    var t := 446 + 16 * i;
    FatType.FourBytes(d[0][t + 8..t + 12]);
    assert LdDword(d[0], t + 8) == FatType.Number(d[0][t + 8..t + 12]);
    CheckIs(d, LdDword(d[0], t + 8));
    hide CheckFs, IsFatBoot, LdDword, FatType.Number;
  }

  /** The partitions before `i` hold no boot sector. */
  ghost predicate NoneBefore(d: Disk, lo: nat, i: nat)
    requires |d| > 0 && i <= 4
  {
    forall j :: lo <= j < i ==> !Bootable(d, j)
  }

  lemma {:induction false} FirstIs(d: Disk, i: nat)
    requires |d| > 0 && i <= 4
    ensures match FirstFrom(d, i)
      case None => NoneBefore(d, i, 4)
      case Some(s) => exists j :: i <= j < 4 && NoneBefore(d, i, j) && Bootable(d, j) && s == PartitionStart(d[0], j)
    decreases 4 - i
  {
    hide CheckPartition, Bootable, PartitionStart;
    if i < 4 {
      BootableIs(d, i);
      if !Bootable(d, i) {
        FirstIs(d, i + 1);
        if FirstFrom(d, i).Some? {
          var j :| i + 1 <= j < 4 && NoneBefore(d, i + 1, j) && Bootable(d, j) && FirstFrom(d, i) == Some(PartitionStart(d[0], j));
          assert NoneBefore(d, i, j);
        }
      } else {
        assert NoneBefore(d, i, i);
      }
    }
  }

  /**
   Where a volume is found: in sector 0 if that is a FAT boot sector itself, or else, if it is at least signed, at the
   start of the first of its four partitions that holds one.
   */
  lemma VolumeIs(d: Disk)
    requires |d| > 0
    ensures match VolumeAt(d)
      case Some(s) =>
        || (s == 0 && IsFatBoot(d[0]))
        || (!IsFatBoot(d[0]) && d[0][510] == 0x55 && d[0][511] == 0xAA
            && exists j :: 0 <= j < 4 && NoneBefore(d, 0, j) && Bootable(d, j) && s == PartitionStart(d[0], j))
      case None => !IsFatBoot(d[0]) && (d[0][510] == 0x55 && d[0][511] == 0xAA ==> NoneBefore(d, 0, 4))
  {
    CheckIs(d, 0);
    FirstIs(d, 0);
    hide CheckFs, IsFatBoot, FirstFrom, Bootable, PartitionStart;
  }

  /** `find_volume` on a drive that is not mounted yet. */
  method FindVolume(d: Disk) returns (m: Mount)
    requires |d| > 0
    ensures match VolumeAt(d)
      case Some(bsect) => m == ReadBpb(Fields(d[bsect]), bsect, |d|)
      case None => m == (if CheckFs(d, 0) == NotFat && CheckPartition(d, 3) == Failed then DiskFailed else NoFilesystem)
  {
    hide Fields, ReadBpb, CheckFs, PartitionStart;
    var bsect := 0;
    var fmt := CheckFs(d, bsect);
    InDrive(d, 0);
    if fmt == NotFat {
      var br := d[0];
      var i := 0;
      bsect := PartitionStart(br, i);
      fmt := if bsect != 0 then CheckFs(d, bsect) else NotBoot;
      while fmt != Fat && i < 3
        invariant 0 <= i < 4 && bsect == PartitionStart(br, i) && fmt == CheckPartition(d, i)
        invariant FirstFrom(d, i) == FirstFrom(d, 0)
        decreases 3 - i
      {
        i := i + 1;
        bsect := PartitionStart(br, i);
        fmt := if bsect != 0 then CheckFs(d, bsect) else NotBoot;
      }
    }
    if fmt == Failed { return DiskFailed; }
    if fmt != Fat { return NoFilesystem; }
    InDrive(d, bsect);
    m := ReadBpb(Fields(d[bsect]), bsect, |d|);
  }

  lemma InDrive(d: Disk, s: nat)
    ensures CheckFs(d, s) == Failed <==> s >= |d|
  {
  }

  // ---------- a new volume ----------

  /** The disk holds a new volume of layout `l`. */
  ghost predicate Formatted(d: Disk, l: Layout, md: Byte, time: DWord) {
    && l.bVol + l.nVol == |d| && l.System() + l.au <= l.nVol && l.nRsv > 0 && l.au > 0
    && d[l.bVol] == BootSector(l, md, time)
    && (l.bVol == 63 ==> d[0] == PartitionTable(l))
    && d[l.Fat()] == FatHead(l.fmt, md)
    && (l.fmt.Fat32? ==> l.nRsv == 32 && l.nClst > 0 && d[l.bVol + 6] == BootSector(l, md, time) && d[l.bVol + 1] == d[l.bVol + 7] == InfoSector(l))
    && forall s :: l.Fat() < s < l.Data() + (if l.fmt.Fat32? then l.au else 0) ==> d[s] == Blank()
  }

  /** The geometry of a layout. */
  function GeometryOf(l: Layout): Geometry {
    Geometry(l.fmt, 1, l.au, l.nClst + 2, l.nFat, l.Fat(), l.Data(), l.bVol + l.nVol)
  }

  /** What a mount sees of layout `l`. */
  function Written(l: Layout, fsVer: nat, rootClus: nat): Bpb {
    Bpb(512, l.au, l.nRsv, 1, if l.fmt.Fat32? then 0 else 512, l.nVol % 65536, l.nFat, fsVer, rootClus)
  }

  lemma FieldsAre(l: Layout, b: Sector)
    requires Planned(l) && Describes(b, l)
    ensures Fields(b) == Written(l, FatType.Word(b, 42), LdDword(b, 44))
  {
    hide OneBit, TypeOf, FatType.Word, LdDword;
  }

  /** A layout as `f_mkfs` plans it. */
  ghost predicate Planned(l: Layout) {
    && l.bVol <= 63 && l.bVol + l.nVol < 0x1_0000_0000 && 1 <= l.au <= 128 && OneBit(l.au)
    && l.System() + l.au <= l.nVol && 1 <= l.nClst == (l.nVol - l.System()) / l.au && TypeOf(l.nClst) == l.fmt
    && (l.fmt.Fat32? ==> l.nVol >= 65536) && l.nFat < 0x100_0000
    && 1 <= l.nRsv <= 32 && l.nDir == (if l.fmt.Fat32? then 0 else 32)
    && (!l.fmt.Fat32? ==> l.nRsv == 1 && 1 <= l.nFat < 65536 && l.fmt.Size(l.nClst + 2) <= l.nFat * 512)
  }

  lemma PlanIsPlanned(bVol: nat, nVol: DWord, au: nat)
    requires bVol <= 63 && bVol + nVol < 0x1_0000_0000 && 1 <= au <= 128 && OneBit(au) && Plan(bVol, nVol, au).Some?
    ensures Planned(Plan(bVol, nVol, au).value)
    ensures Plan(bVol, nVol, au).value.bVol == bVol && Plan(bVol, nVol, au).value.nVol == nVol
    ensures Plan(bVol, nVol, au).value.au == au
  {
    hide Plan, OneBit, FatSectors;
    var l := Plan(bVol, nVol, au).value;
    PlanFits(bVol, nVol, au);
    PlanTable(bVol, nVol, au);
    Divided(nVol, au);
    FatSectorsSmall(l.fmt, nVol / au);
  }

  lemma PlanTable(bVol: nat, nVol: DWord, au: nat)
    requires 0 < au && Plan(bVol, nVol, au).Some?
    ensures var l := Plan(bVol, nVol, au).value; l.nFat == FatSectors(l.fmt, nVol / au) && TypeOf(nVol / au) == l.fmt
  {
    hide FatSectors, TypeOf;
  }

  lemma FatSectorsSmall(fmt: FatType, n0: nat)
    requires n0 < 0x1_0000_0000 && (!fmt.Fat32? ==> n0 < 65526)
    ensures FatSectors(fmt, n0) < 0x100_0000
  {
  }

  lemma WrapSmall(x: nat)
    ensures x < 0x1_0000_0000 ==> Wrap(x) == x
  {
  }

  /** Below 65536 sectors a mount of a planned volume gives exactly the planned geometry. */
  lemma MountedAsPlanned(l: Layout, fsVer: nat, rootClus: nat)
    requires Planned(l) && l.nVol < 65536
    ensures ReadBpb(Written(l, fsVer, rootClus), l.bVol, l.bVol + l.nVol) == Mounted(GeometryOf(l), 512, l.Fat() + l.nFat)
  {
    hide OneBit, Clusters, ReadBpb, FatType.Size, TypeOf, Planned;
    WrittenFits(l);
    ReadsAs(Written(l, fsVer, rootClus), l.bVol, l.bVol + l.nVol, l.fmt, l.nClst);
  }

  lemma WrittenFits(l: Layout)
    requires Planned(l) && l.nVol < 65536
    ensures !l.fmt.Fat32? && l.nRsv == 1 && l.nDir == 32 && l.nFat < 65536 && l.bVol <= 63 && l.au >= 1 && OneBit(l.au)
    ensures TypeOf(l.nClst) == l.fmt && l.nClst > 0 && l.fmt.Size(l.nClst + 2) <= l.nFat * 512
    ensures Clusters(l.nVol, 33 + l.nFat, l.au) == l.nClst
  {
    hide OneBit, Clusters, FatType.Size, TypeOf;
    Clusterwise(l);
    assert l.System() == 33 + l.nFat;
  }

  /** A boot sector of one FAT16 or FAT12 table that is long enough. */
  lemma ReadsAs(b: Bpb, bsect: nat, total: nat, fmt: FatType, nclst: nat)
    requires b.bytsPerSec == 512 && b.numFats == 1 && b.secPerClus >= 1 && OneBit(b.secPerClus)
    requires b.rootEnt == 512 && b.rsvdSec == 1 && b.fatSz < 65536 && bsect < 65536 && fmt.Size(nclst + 2) <= b.fatSz * 512
    requires TypeOf(nclst) == fmt && !fmt.Fat32? && nclst > 0 && Clusters(b.totSec, 33 + b.fatSz, b.secPerClus) == nclst
    ensures ReadBpb(b, bsect, total) ==
      Mounted(Geometry(fmt, 1, b.secPerClus, nclst + 2, b.fatSz, bsect + 1, bsect + 33 + b.fatSz, total), 512, bsect + 1 + b.fatSz)
  {
    WrapSmall(33 + b.fatSz);
    WrapSmall(nclst + 2);
    WrapSmall(bsect + 1);
    WrapSmall(bsect + 33 + b.fatSz);
    WrapSmall(bsect + 1 + b.fatSz);
    WrapSmall(fmt.Size(nclst + 2) + 511);
    RoundUp(fmt.Size(nclst + 2), b.fatSz);
    assert nclst < 65526;
    hide OneBit, Wrap, Clusters, FatType.Size, TypeOf;
  }

  lemma Clusterwise(l: Layout)
    requires Planned(l)
    ensures Clusters(l.nVol, l.System(), l.au) == l.nClst <= l.nVol
  {
    Divided(l.nVol - l.System(), l.au);
  }

  lemma RoundUp(size: nat, n: nat)
    requires size <= n * 512
    ensures (size + 511) / 512 <= n
  {
  }

  /**
   From 65536 sectors on the total has lost its high half: a mount fails, or sees fewer clusters
   than were planned.
   */
  lemma MountedSmaller(l: Layout, fsVer: nat, rootClus: nat)
    requires Planned(l) && l.nVol >= 65536
    ensures var m := ReadBpb(Written(l, fsVer, rootClus), l.bVol, l.bVol + l.nVol);
      m == NoFilesystem || (m.Mounted? && m.g.nFatent < l.nClst + 2)
  {
    WrapSmall(l.nFat);
    WrapSmall(l.System());
    var tsect := l.nVol % 65536;
    var seen := Clusters(tsect, l.System(), l.au);
    FewerSeen(l);
    Divided(tsect, l.au);
    SeenSmall(l);
    WrapSmall(seen + 2);
    hide OneBit, Wrap, Clusters;
  }

  /** For example 70000 sectors in clusters of 32: 2186 clusters are planned, and 138 are seen. */
  lemma LargeVolumeShrinks()
    ensures var p := Plan(0, 70000, 32);
      && p == Some(Layout(Fat12, 0, 70000, 32, 1, 7, 32, 2186))
      && ReadBpb(Written(p.value, 0, 0), 0, 70000) == Mounted(Geometry(Fat12, 1, 32, 140, 7, 1, 40, 70000), 512, 8)
  {
    LargePlan();
    hide Plan, ReadBpb;
    LargeMount();
  }

  lemma LargePlan()
    ensures Plan(0, 70000, 32) == Some(Layout(Fat12, 0, 70000, 32, 1, 7, 32, 2186))
  {
    assert 70000 / 32 == 2187 && FatSectors(Fat12, 2187) == 7;
    assert (70000 - 40) / 32 == 2186;
  }

  lemma LargeMount()
    ensures ReadBpb(Bpb(512, 32, 1, 1, 512, 4464, 7, 0, 0), 0, 70000) == Mounted(Geometry(Fat12, 1, 32, 140, 7, 1, 40, 70000), 512, 8)
  {
    Power128();
    assert Clusters(4464, 40, 32) == 138;
    ReadsAs(Bpb(512, 32, 1, 1, 512, 4464, 7, 0, 0), 0, 70000, Fat12, 138);
  }

  lemma SeenSmall(l: Layout)
    requires Planned(l)
    ensures Clusters(l.nVol % 65536, l.System(), l.au) < 65536
  {
    var tsect := l.nVol % 65536;
    if tsect >= l.System() { Divided(tsect - l.System(), l.au); }
  }

  lemma FewerSeen(l: Layout)
    requires Planned(l) && l.nVol >= 65536
    ensures Clusters(l.nVol % 65536, l.System(), l.au) < l.nClst
  {
    hide OneBit;
    var tsect := l.nVol % 65536;
    assert tsect + 65536 <= l.nVol;
    if tsect >= l.System() {
      DivMonotone(tsect - l.System() + l.au, l.nVol - l.System(), l.au);
      DivStep(tsect - l.System(), l.au);
    }
  }

  // ---------- a new volume, mounted ----------

  lemma BootFound(d: Disk, l: Layout, md: Byte, time: DWord)
    requires Planned(l) && l.bVol in {0, 63} && Formatted(d, l, md, time)
    ensures VolumeAt(d) == Some(l.bVol) && Describes(d[l.bVol], l)
  {
    hide OneBit, TypeOf, CheckFs, PartitionStart, BootSector, PartitionTable, Describes, VolumeAt, Blank, FatHead;
    BootReadsBack(l, md, time);
    DescribedIsFat(d, l.bVol, l);
    if l.bVol == 63 {
      TableReadsBack(l);
      TableIsNotFat(d);
      FoundByTable(d, 63);
    } else {
      FoundAtOnce(d);
    }
  }

  lemma FoundAtOnce(d: Disk)
    requires |d| > 0 && CheckFs(d, 0) == Fat
    ensures VolumeAt(d) == Some(0)
  {
    hide CheckFs;
  }

  lemma FoundByTable(d: Disk, bsect: nat)
    requires 0 < bsect < |d| && CheckFs(d, 0) == NotFat && PartitionStart(d[0], 0) == bsect && CheckFs(d, bsect) == Fat
    ensures VolumeAt(d) == Some(bsect)
  {
    hide CheckFs, PartitionStart;
  }

  lemma DescribedIsFat(d: Disk, s: nat, l: Layout)
    requires s < |d| && Describes(d[s], l)
    ensures CheckFs(d, s) == Fat
  {
    hide FatType.Word, LdDword;
  }

  lemma TableIsNotFat(d: Disk)
    requires |d| > 0 && FatType.Word(d[0], 510) == 0xAA55
    requires LdDword(d[0], 54) % 0x100_0000 != 0x54_4146 && LdDword(d[0], 82) % 0x100_0000 != 0x54_4146
    ensures CheckFs(d, 0) == NotFat
  {
    hide FatType.Word, LdDword;
  }

  lemma TableReadsBack(l: Layout)
    ensures var s := PartitionTable(l);
      && FatType.Word(s, 510) == 0xAA55 && PartitionStart(s, 0) == 63
      && LdDword(s, 54) % 0x100_0000 != 0x54_4146 && LdDword(s, 82) % 0x100_0000 != 0x54_4146
  {
    hide StWord, StDword, Blank;
  }

  /** A well-formed volume on which every cluster is free. */
  ghost predicate AllFree(d: Disk, g: Geometry) {
    && DataArea(g) && |d| == g.total && g.Mirrored(d)
    && forall c :: 2 <= c < g.nFatent ==> g.Table(d)[c] == 0
  }

  /** The table of a new volume: every cluster is free, and the copies and areas are laid out as a file system needs them. */
  lemma NewTableIsFree(d: Disk, l: Layout, md: Byte, time: DWord)
    requires Planned(l) && l.nVol < 65536 && Formatted(d, l, md, time)
    ensures AllFree(d, GeometryOf(l))
  {
    var g := GeometryOf(l);
    LayoutIsGeometry(l);
    forall c | 2 <= c < g.nFatent ensures g.Table(d)[c] == 0 {
      g.fsType.PosFits(c, g.nFatent);
      forall k | g.fsType.Pos(c) <= k < g.fsType.Pos(c) + g.fsType.Width() ensures g.Image(d)[k] == 0 {
        ImageIsBlank(d, l, md, time, k);
      }
      BlankEntry(g.fsType, g.Image(d), c);
    }
  }

  lemma BlankEntry(fmt: FatType, f: seq<Byte>, c: nat)
    requires fmt.Pos(c) + fmt.Width() <= |f|
    requires forall k :: fmt.Pos(c) <= k < fmt.Pos(c) + fmt.Width() ==> f[k] == 0
    ensures fmt.Entry(f, c) == 0
  {
    var k := fmt.Pos(c);
    assert f[k] == 0 && f[k + 1] == 0;
  }

  lemma ImageIsBlank(d: Disk, l: Layout, md: Byte, time: DWord, k: nat)
    requires Planned(l) && l.nVol < 65536 && Formatted(d, l, md, time)
    requires (if l.fmt.Fat12? then 3 else 4) <= k < l.nFat * 512 && DataArea(GeometryOf(l))
    ensures GeometryOf(l).Image(d)[k] == 0
  {
    hide Blank, FatHead, BootSector, PartitionTable, OneBit, TypeOf;
    assert GeometryOf(l).Image(d)[k] == d[l.Fat() + k / 512][k % 512];
    if k < 512 {
      HeadIsBlank(l, md, k);
    } else {
      assert l.Fat() < l.Fat() + k / 512 < l.Data();
    }
  }

  /** The first entries of a new table: the media byte under ones, an end mark, and on FAT32 the root's cluster. */
  lemma NewTableStarts(fmt: FatType, md: Byte)
    ensures fmt.Pos(2) + fmt.Width() <= 512
    ensures fmt.Entry(FatHead(fmt, md), 0) == fmt.EndOfChain() - 255 + md && fmt.Entry(FatHead(fmt, md), 1) == fmt.EndOfChain()
    ensures fmt.Entry(FatHead(fmt, md), 2) == if fmt.Fat32? then fmt.EndOfChain() else 0
  {
    HeadBytes(fmt, md);
    hide FatHead;
  }

  lemma HeadBytes(fmt: FatType, md: Byte)
    ensures var h := FatHead(fmt, md);
      && h[0] == md && h[1] == 255 && h[2] == 255 && h[3] == (if fmt.Fat12? then 0 else 255)
      && (fmt.Fat32? ==> h[4] == h[5] == h[6] == h[7] == h[8] == h[9] == h[10] == 255 && h[11] == 15)
      && (!fmt.Fat32? ==> h[4] == h[5] == 0)
  {
    hide StDword, Blank;
  }

  lemma HeadIsBlank(l: Layout, md: Byte, k: nat)
    requires !l.fmt.Fat32? && (if l.fmt.Fat12? then 3 else 4) <= k < 512
    ensures FatHead(l.fmt, md)[k] == 0
  {
    hide StWord, StDword, Blank;
  }

  lemma SmallUnit(x: nat)
    requires 1 <= x <= 128 && OneBit(x)
    ensures x in {1, 2, 4, 8, 16, 32, 64, 128}
  {
    if x > 1 { SmallUnit(x / 2); }
  }

  lemma LayoutIsGeometry(l: Layout)
    requires Planned(l) && l.nVol < 65536
    ensures DataArea(GeometryOf(l))
  {
    SmallUnit(l.au);
    TimesFits(l.nVol - l.System(), l.au);
    LimitsFit(l);
    hide OneBit, TypeOf, FatType.Size, FatType.MaxEntries;
  }

  lemma LimitsFit(l: Layout)
    requires Planned(l) && l.nVol < 65536
    ensures l.nClst + 2 <= l.fmt.MaxEntries()
  {
    hide OneBit;
  }

  lemma TimesFits(x: nat, d: nat)
    requires d > 0
    ensures x / d * d <= x
  {
    assert x == x / d * d + x % d;
  }

  /** A layout whose parts lie inside the volume. */
  predicate Roomy(l: Layout) {
    && l.System() + l.au <= l.nVol && l.nRsv > 0 && l.nClst > 0 && l.au > 0
    && (if l.fmt.Fat32? then l.nRsv == 32 && l.nDir == 0 && l.System() + l.au < l.nVol else l.nDir == 32 && l.nFat > 0)
  }

  lemma PlanIsRoomy(bVol: nat, nVol: DWord, au: nat)
    requires 1 <= au <= 128 && Plan(bVol, nVol, au).Some?
    ensures Roomy(Plan(bVol, nVol, au).value)
  {
    var l := Plan(bVol, nVol, au).value;
    PlanFits(bVol, nVol, au);
    assert l.fmt.Fat32? ==> l.nRsv == 32;
    hide Plan, FatSectors;
    Divided(nVol - l.System(), au);
  }

  datatype Made = Done | InvalidParameter | DriveTooSmall | Aborted

  /** A drive, and the sector buffer in which the volume's sectors are made up. */
  class Drive {
    const win: array<Byte>
    var disk: Disk

    ghost predicate Valid()
      reads this
    {
      win.Length == 512 && |disk| < 0x1_0000_0000
    }

    constructor (disk: Disk)
      requires |disk| < 0x1_0000_0000
      ensures Valid() && this.disk == disk && fresh(win)
    {
      this.disk := disk;
      win := new Byte[512](_ => 0);
    }

    method PutByte(k: nat, v: Byte)
      requires win.Length == 512 && k < 512
      modifies win
      ensures win[..] == old(win[..])[k := v]
    {
      win[k] := v;
    }

    method PutWord(k: nat, v: nat)
      requires win.Length == 512 && k + 2 <= 512
      modifies win
      ensures win[..] == StWord(old(win[..]), k, v)
    {
      win[k] := v % 256;
      win[k + 1] := v / 256 % 256;
    }

    method PutDword(k: nat, v: nat)
      requires win.Length == 512 && k + 4 <= 512
      modifies win
      ensures win[..] == StDword(old(win[..]), k, v)
    {
      PutWord(k, v % 65536);
      PutWord(k + 2, v / 65536);
    }

    method MemCpy(k: nat, b: seq<Byte>)
      requires win.Length == 512 && k + |b| <= 512
      modifies win
      ensures win[..] == Copied(old(win[..]), k, b)
    {
      forall i | 0 <= i < |b| { win[k + i] := b[i]; }
    }

    method Clear()
      requires win.Length == 512
      modifies win
      ensures win[..] == Blank()
    {
      forall i | 0 <= i < 512 { win[i] := 0; }
    }

    /** The sector of partition table and boot record. */
    method BuildTable(l: Layout)
      requires win.Length == 512
      modifies win
      ensures win[..] == PartitionTable(l)
    {
      hide StWord, StDword, Blank;
      var sys := if l.fmt.Fat32? then 0x0C else if l.fmt.Fat12? && l.nVol < 0x1_0000 then 0x01
                 else if l.nVol < 0x1_0000 then 0x04 else 0x06;
      Clear();
      PutByte(447, 1);
      PutByte(448, 1);
      PutByte(449, 0);
      PutByte(450, sys);
      PutByte(451, 254);
      var n := (l.bVol + l.nVol) / 63 / 255;
      PutByte(452, (n / 4 / 64 * 64 + 63) % 256);
      PutByte(453, n % 256);
      PutDword(454, 63);
      PutDword(458, l.nVol);
      PutWord(510, 0xAA55);
    }

    /** The first half of the boot sector. */
    method BuildHead(l: Layout, md: Byte)
      requires win.Length == 512
      modifies win
      ensures win[..] == BootHead(l, md)
    {
      hide StWord, StDword, Copied, Blank;
      Clear();
      MemCpy(0, BOOT_CODE);
      PutWord(11, 512);
      PutByte(13, l.au % 256);
      PutWord(14, l.nRsv);
      PutByte(16, 1);
      PutWord(17, if l.fmt.Fat32? then 0 else 512);
      if l.nVol < 0x1_0000 {
        PutWord(19, l.nVol);
      } else {
        PutDword(32, l.nVol % 0x1_0000);
      }
      PutByte(21, md);
      PutWord(24, 63);
      PutWord(26, 255);
      PutDword(28, l.bVol);
    }

    method BuildBoot(l: Layout, md: Byte, time: DWord)
      requires win.Length == 512
      modifies win
      ensures win[..] == BootSector(l, md, time)
    {
      hide StWord, StDword, Copied, BootHead;
      BuildHead(l, md);
      if l.fmt.Fat32? {
        PutDword(67, time);
        PutDword(36, l.nFat);
        PutDword(44, 2);
        PutWord(48, 1);
        PutWord(50, 6);
        PutByte(64, 0x80);
        PutByte(66, 0x29);
        MemCpy(71, NO_NAME + FAT32_NAME);
      } else {
        PutDword(39, time);
        PutWord(22, l.nFat);
        PutByte(36, 0x80);
        PutByte(38, 0x29);
        MemCpy(43, NO_NAME + FAT_NAME);
      }
      PutWord(510, 0xAA55);
    }

    method BuildFatHead(fmt: FatType, md: Byte)
      requires win.Length == 512
      modifies win
      ensures win[..] == FatHead(fmt, md)
    {
      hide StDword, Blank;
      Clear();
      if !fmt.Fat32? {
        PutDword(0, if fmt.Fat12? then 0x00FF_FF00 + md else 0xFFFF_FF00 + md);
      } else {
        PutDword(0, 0xFFFF_FF00 + md);
        PutDword(4, 0xFFFF_FFFF);
        PutDword(8, 0x0FFF_FFFF);
      }
    }

    /** `disk_write` of the buffer. */
    method WriteSector(sect: nat)
      requires win.Length == 512 && sect < |disk|
      modifies this`disk
      ensures disk == old(disk)[sect := win[..]]
    {
      disk := disk[sect := win[..]];
    }

    /** `f_mkfs` of the whole drive, with a partition table (`sfd` 0) or without (`sfd` 1). */
    method MakeFs(sfd: nat, au0: nat, time: DWord) returns (res: Made, ghost l: Layout)
      requires Valid()
      modifies this`disk, win
      ensures Valid() && |disk| == |old(disk)|
      ensures res == InvalidParameter <==> sfd > 1
      ensures res == DriveTooSmall <==> sfd <= 1 && |disk| < 128
      ensures res != Done ==> disk == old(disk)
      ensures sfd <= 1 && |disk| >= 128 ==>
        var bVol := if sfd == 1 then 0 else 63;
        var plan := Plan(bVol, |disk| - bVol, Unit(au0, |disk| - bVol));
        && (res == Done <==> plan.Some?)
        && (res == Done ==> l == plan.value && Planned(l) && Formatted(disk, l, if sfd == 1 then 0xF0 else 0xF8, time))
      ensures res == Done ==> l.nVol == |disk| - l.bVol && AsAsked(au0, l.nVol, l.au)
      ensures res == Done ==> forall s :: 0 < s < l.bVol || l.Data() + l.au < s < |disk| ==> disk[s] == old(disk)[s]
    {
      hide AsAsked, Unit, Plan, Planned, Formatted, Roomy;
      l := Layout(Fat12, 0, 0, 0, 0, 0, 0, 0);
      if sfd > 1 { return InvalidParameter, l; }
      if |disk| < 128 { return DriveTooSmall, l; }
      var bVol := if sfd == 1 then 0 else 63;
      var nVol := |disk| - bVol;
      var au := ChooseUnit(au0, nVol);
      UnitFits(au0, nVol);
      UnitAsAsked(au0, nVol);
      var plan := Plan(bVol, nVol, au);
      if plan.None? { return Aborted, l; }
      var lay := plan.value;
      PlanIsPlanned(bVol, nVol, au);
      PlanIsRoomy(bVol, nVol, au);
      l := lay;
      var md: Byte := if sfd == 1 then 0xF0 else 0xF8;
      WriteVolume(lay, md, time);
      res := Done;
    }

    /** The choice of the unit: the loop runs down the table of sizes. */
    method ChooseUnit(au0: nat, nVol: nat) returns (au: nat)
      ensures au == Unit(au0, nVol)
    {
      au := au0;
      if !OneBit(au) { au := 0; }
      if au == 0 {
        var vs := nVol / 2000;
        var i := 0;
        while vs < VST[i]
          invariant 0 <= i <= 10 && Slot(vs, i) == Slot(vs, 0)
          decreases 10 - i
        {
          i := i + 1;
        }
        au := CST[i];
      }
      if au >= 512 { au := au / 512; }
      if au == 0 { au := 1; }
      if au > 128 { au := 128; }
    }

    /** Blank sectors from `sect` on. */
    method WriteBlank(sect: nat, n: nat)
      requires win.Length == 512 && win[..] == Blank() && sect + n <= |disk|
      modifies this`disk
      ensures |disk| == |old(disk)|
      ensures forall s :: sect <= s < sect + n ==> disk[s] == Blank()
      ensures forall s :: 0 <= s < |disk| && !(sect <= s < sect + n) ==> disk[s] == old(disk)[s]
    {
      hide Blank;
      var i := 0;
      while i < n
        invariant i <= n && |disk| == |old(disk)|
        invariant forall s :: sect <= s < sect + i ==> disk[s] == Blank()
        invariant forall s :: 0 <= s < |disk| && !(sect <= s < sect + i) ==> disk[s] == old(disk)[s]
      {
        WriteSector(sect + i);
        i := i + 1;
      }
    }

    /** The table and the root directory. */
    method WriteArea(l: Layout, md: Byte)
      requires Valid() && Roomy(l) && l.bVol + l.nVol == |disk|
      modifies this`disk, win
      ensures Valid() && |disk| == |old(disk)| && win[..] == Blank()
      ensures disk[l.Fat()] == FatHead(l.fmt, md)
      ensures forall s :: l.Fat() < s < l.Data() + (if l.fmt.Fat32? then l.au else 0) ==> disk[s] == Blank()
      ensures forall s :: 0 <= s < l.Fat() || l.Data() + l.au < s < |disk| ==> disk[s] == old(disk)[s]
    {
      hide FatHead, Blank;
      BuildFatHead(l.fmt, md);
      WriteSector(l.Fat());
      Clear();
      var rest := if l.nFat > 1 then l.nFat - 1 else 0;
      WriteBlank(l.Fat() + 1, rest);
      WriteBlank(l.Fat() + 1 + rest, if l.fmt.Fat32? then l.au else l.nDir);
    }

    /** The partition table and the boot sector, with its copy on FAT32. */
    method WriteBoot(l: Layout, md: Byte, time: DWord)
      requires Valid() && l.bVol + 6 < |disk|
      modifies this`disk, win
      ensures Valid() && |disk| == |old(disk)|
      ensures disk[l.bVol] == BootSector(l, md, time) && (l.bVol == 63 ==> disk[0] == PartitionTable(l))
      ensures l.fmt.Fat32? ==> disk[l.bVol + 6] == disk[l.bVol]
      ensures forall s :: 0 < s < l.bVol || l.bVol + 6 < s < |disk| ==> disk[s] == old(disk)[s]
    {
      hide BootSector, PartitionTable;
      if l.bVol == 63 {
        BuildTable(l);
        WriteSector(0);
      }
      BuildBoot(l, md, time);
      WriteSector(l.bVol);
      if l.fmt.Fat32? {
        WriteSector(l.bVol + 6);
      }
    }

    /** Everything that is written to the disk. */
    method WriteVolume(l: Layout, md: Byte, time: DWord)
      requires Valid() && Roomy(l) && l.bVol in {0, 63} && l.bVol + l.nVol == |disk|
      modifies this`disk, win
      ensures Valid() && |disk| == |old(disk)| && Formatted(disk, l, md, time)
      ensures forall s :: 0 < s < l.bVol || l.Data() + l.au < s < |disk| ==> disk[s] == old(disk)[s]
    {
      hide BootSector, PartitionTable, FatHead, Blank, InfoSector;
      WriteBoot(l, md, time);
      WriteArea(l, md);
      if l.fmt.Fat32? {
        WriteInfo(l);
      }
    }

    /** The sector of free counts, and its backup. */
    method WriteInfo(l: Layout)
      requires Valid() && l.fmt.Fat32? && l.bVol + 7 < |disk| && l.nClst > 0 && win[..] == Blank()
      modifies this`disk, win
      ensures Valid() && |disk| == |old(disk)|
      ensures disk[l.bVol + 1] == disk[l.bVol + 7] == InfoSector(l)
      ensures forall s :: 0 <= s < |disk| && s != l.bVol + 1 && s != l.bVol + 7 ==> disk[s] == old(disk)[s]
    {
      hide StDword, StWord, Blank;
      PutDword(0, 0x41615252);
      PutDword(484, 0x61417272);
      PutDword(488, l.nClst - 1);
      PutDword(492, 2);
      PutWord(510, 0xAA55);
      WriteSector(l.bVol + 1);
      WriteSector(l.bVol + 7);
    }
  }

  /**
   A volume that `f_mkfs` made is found again, and mounts with the planned type and number of clusters if and only if
   it has fewer than 65536 sectors; and then it is a well-formed volume on which every cluster is free.
   */
  lemma MadeThenMounted(d: Disk, l: Layout, md: Byte, time: DWord)
    requires Planned(l) && l.bVol in {0, 63} && Formatted(d, l, md, time)
    ensures VolumeAt(d) == Some(l.bVol)
    ensures var m := ReadBpb(Fields(d[l.bVol]), l.bVol, |d|);
      && (m.Mounted? && m.g.fsType == l.fmt && m.g.nFatent == l.nClst + 2 <==> l.nVol < 65536)
      && (l.nVol < 65536 ==> m.g == GeometryOf(l) && AllFree(d, m.g))
  {
    BootFound(d, l, md, time);
    var b := d[l.bVol];
    FieldsAre(l, b);
    hide Formatted, ReadBpb, Fields, Written, Describes, OneBit, CheckFs, VolumeAt, TypeOf, FatType.Word, LdDword;
    hide AllFree, FatType.Size;
    if l.nVol < 65536 {
      MountedAsPlanned(l, FatType.Word(b, 42), LdDword(b, 44));
      NewTableIsFree(d, l, md, time);
    } else {
      MountedSmaller(l, FatType.Word(b, 42), LdDword(b, 44));
    }
  }
}
