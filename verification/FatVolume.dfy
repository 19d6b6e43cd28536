/**
 The lower half of the FAT file system module (`fatfs/src/ff.c`): the one-sector
 write-back window over the disk and the packed FAT12/16/32 entries behind it.

 A disk is a sequence of 512-byte sectors.  The functions say what the bytes of
 a disk mean as an allocation table; the methods of `FATFS` work on the window
 `win`, as the source does, and are proved to compute those functions on the
 logical disk, that is, on the disk as it would be after the window is flushed.
 */
module FatVolume {
  import opened FatTable

  type Byte = x: int | 0 <= x < 256
  type DWord = x: int | 0 <= x < 0x1_0000_0000
  type Sector = s: seq<Byte> | |s| == 512 witness seq(512, _ => 0)
  type Disk = seq<Sector>

  /** Unsigned 32-bit subtraction, which wraps around below zero. */
  function Sub32(a: DWord, b: DWord): DWord {
    if a < b then a - b + 0x1_0000_0000 else a - b
  }

  // ---------- division ----------

  lemma StrideGrows(d: nat, q: nat, q': nat)
    requires q < q'
    ensures d * q + d <= d * q'
  {
    var k := q' - q - 1;
    assert d * q' == d * (q + 1 + k) == d * q + d + d * k;
  }

  lemma QuotientUnique(d: nat, q: nat, r: nat, q': nat, r': nat)
    requires d * q + r == d * q' + r' && r < d && r' < d
    ensures q == q'
  {
    if q < q' {
      StrideGrows(d, q, q');
    } else if q' < q {
      StrideGrows(d, q', q);
    }
  }

  lemma DivModUnique(x: nat, d: nat, q: nat, r: nat)
    requires x == q * d + r && r < d
    ensures x / d == q && x % d == r
  {
    QuotientUnique(d, q, r, x / d, x % d);
  }

  // ---------- packed entries, on the bytes of one FAT copy ----------

  datatype FatType = Fat12 | Fat16 | Fat32
  {
    /** The first byte of entry `c`. */
    function Pos(c: nat): nat {
      match this case Fat12 => c + c / 2 case Fat16 => 2 * c case Fat32 => 4 * c
    }

    /** How many bytes an entry touches; FAT12 neighbours share one. */
    function Width(): nat {
      if Fat32? then 4 else 2
    }

    /** The end-of-chain mark 0xFFFFFFFF as it is stored in an entry. */
    function EndOfChain(): nat {
      match this case Fat12 => 0xFFF case Fat16 => 0xFFFF case Fat32 => 0x0FFF_FFFF
    }

    /** One more than the largest cluster number that is not a reserved mark. */
    function MaxEntries(): nat {
      match this case Fat12 => 0xFF7 case Fat16 => 0xFFF7 case Fat32 => 0x0FFF_FFF7
    }

    /** The part of a value that an entry keeps: its low 12, 16 or 28 bits. */
    function Mask(val: DWord): nat {
      match this
      case Fat12 => val % 0x1000
      case Fat16 => val % 0x1_0000
      case Fat32 => val % 0x1000_0000
    }

    lemma MaskFits(v: nat)
      requires v < MaxEntries()
      ensures Mask(v) == v && Mask(0xFFFF_FFFF) == EndOfChain() && MaxEntries() <= EndOfChain()
    {
    }

    /** Bytes needed for `n` entries. */
    function Size(n: nat): nat {
      match this case Fat12 => n * 3 / 2 + n % 2 case Fat16 => n * 2 case Fat32 => n * 4
    }

    lemma PosFits(c: nat, n: nat)
      requires c < n
      ensures Pos(c) + Width() <= Size(n)
    {
    }

    /** A little-endian 16-bit word. */
    static function Word(f: seq<Byte>, k: nat): nat
      requires k + 2 <= |f|
    {
      f[k] as nat + f[k + 1] as nat * 256
    }

    function Entry(f: seq<Byte>, c: nat): nat
      requires Pos(c) + Width() <= |f|
    {
      var k := Pos(c);
      match this
      case Fat12 =>
        var wc := Word(f, k);
        if c % 2 == 1 then wc / 16 else wc % 4096
      case Fat16 => Word(f, k)
      case Fat32 => Word(f, k) + (Word(f, k + 2) * 65536) % 0x1000_0000
    }

    /** Byte number `i` of entry `c` once `val` is stored over the old byte. */
    function NewByte(c: nat, val: DWord, i: nat, was: Byte): Byte
      requires i < Width()
    {
      match this
      case Fat12 =>
        if c % 2 == 1 then (if i == 0 then was % 16 + val % 16 * 16 else val / 16 % 256)
        else (if i == 0 then val % 256 else was / 16 * 16 + val / 256 % 16)
      case Fat16 => if i == 0 then val % 256 else val / 256 % 256
      case Fat32 =>
        if i == 0 then val % 256 else if i == 1 then val / 256 % 256
        else if i == 2 then val / 65536 % 256 else was / 16 * 16 + val / 16777216 % 16
    }

    /** Storing the first `m` bytes of entry `c`. */
    function PutBytes(f: seq<Byte>, c: nat, val: DWord, m: nat): (r: seq<Byte>)
      requires Pos(c) + Width() <= |f| && m <= Width()
      ensures |r| == |f|
      ensures forall j :: 0 <= j < |f| ==>
        r[j] == if Pos(c) <= j < Pos(c) + m then NewByte(c, val, j - Pos(c), f[j]) else f[j]
    {
      if m == 0 then f
      else
        var k := Pos(c) + m - 1;
        PutBytes(f, c, val, m - 1)[k := NewByte(c, val, m - 1, f[k])]
    }

    /** The number whose digits to the base 256 are the bytes `b`, the lowest first. */
    static function Number(b: seq<Byte>): nat {
      if b == [] then 0 else b[0] as nat + 256 * Number(b[1..])
    }

    /** Where the bytes of the group `k` of whole bytes end. */
    function GroupEnd(k: nat): nat {
      match this case Fat12 => 3 * k + 3 case Fat16 => 2 * k + 2 case Fat32 => 4 * k + 4
    }

    /**
     Entries are written with the lowest bits first and without gaps: three bytes are two entries of 12 bits,
     two are one of 16, four are one of 28 under four reserved bits.
     */
    lemma EntriesAreDigits(f: seq<Byte>, k: nat)
      requires GroupEnd(k) <= |f|
      ensures Fat12? ==> Number(f[3 * k..3 * k + 3]) == Entry(f, 2 * k) + 4096 * Entry(f, 2 * k + 1) && Entry(f, 2 * k) < 4096
      ensures Fat16? ==> Number(f[2 * k..2 * k + 2]) == Entry(f, k)
      ensures Fat32? ==> Number(f[4 * k..4 * k + 4]) % 0x1000_0000 == Entry(f, k)
    {
      if Fat12? {
        Digits12(f, k);
      } else if Fat16? {
        TwoBytes(f[2 * k..2 * k + 2]);
      } else {
        Digits32(f, k);
      }
    }

    static lemma Digits12(f: seq<Byte>, k: nat)
      requires 3 * k + 3 <= |f|
      ensures Number(f[3 * k..3 * k + 3]) == Fat12.Entry(f, 2 * k) + 4096 * Fat12.Entry(f, 2 * k + 1) && Fat12.Entry(f, 2 * k) < 4096
    {
      hide FatType.Number;
      assert Fat12.Pos(2 * k) == 3 * k && Fat12.Pos(2 * k + 1) == 3 * k + 1;
      ThreeBytes(f[3 * k..3 * k + 3]);
      Nibbles(f[3 * k], f[3 * k + 1], f[3 * k + 2]);
    }

    static lemma Digits32(f: seq<Byte>, k: nat)
      requires 4 * k + 4 <= |f|
      ensures Number(f[4 * k..4 * k + 4]) % 0x1000_0000 == Fat32.Entry(f, k)
    {
      hide FatType.Number;
      FourBytes(f[4 * k..4 * k + 4]);
      assert Fat32.Pos(k) == 4 * k;
      assert Number(f[4 * k..4 * k + 4]) == Word(f, 4 * k) + 65536 * Word(f, 4 * k + 2);
      LowDigits(Word(f, 4 * k), Word(f, 4 * k + 2));
    }

    static lemma LowDigits(a: nat, b: nat)
      requires a < 65536
      ensures (a + 65536 * b) % 0x1000_0000 == a + (b * 65536) % 0x1000_0000
    {
      var q, r := b / 4096, b % 4096;
      LowPart(q, 65536 * r, 0x1000_0000);
      LowPart(q, a + 65536 * r, 0x1000_0000);
    }

    static lemma FourBytes(b: seq<Byte>)
      requires |b| == 4
      ensures Number(b) == b[0] as nat + 256 * b[1] as nat + 65536 * (b[2] as nat + 256 * b[3] as nat)
    {
      ThreeBytes(b[1..]);
    }

    static lemma TwoBytes(b: seq<Byte>)
      requires |b| == 2
      ensures Number(b) == b[0] as nat + 256 * b[1] as nat
    {
      assert b[1..][1..] == [];
      assert Number(b[1..]) == b[1] as nat + 256 * Number(b[1..][1..]);
    }

    static lemma ThreeBytes(b: seq<Byte>)
      requires |b| == 3
      ensures Number(b) == b[0] as nat + 256 * b[1] as nat + 65536 * b[2] as nat
    {
      TwoBytes(b[1..]);
    }

    static lemma Nibbles(a: Byte, b: Byte, c: Byte)
      ensures a as nat + 256 * b as nat + 65536 * c as nat ==
        (a as nat + b as nat * 256) % 4096 + 4096 * ((b as nat + c as nat * 256) / 16)
    {
      var h, l: nat := b / 16, b % 16;
      assert b == 16 * h + l;
      assert (a as nat + b as nat * 256) == a as nat + l * 256 + 4096 * h;
    }

    /** Storing `val` makes the entry read back as the masked value, and no other entry changes. */
    lemma PutThenGet(f: seq<Byte>, c: nat, val: DWord, e: nat)
      requires Pos(c) + Width() <= |f| && Pos(e) + Width() <= |f|
      ensures Entry(PutBytes(f, c, val, Width()), e) == if e == c then Mask(val) else Entry(f, e)
    {
      hide FatType.Entry, FatType.PutBytes;
      match this
      case Fat12 => PutThenGet12(f, c, val, e);
      case Fat16 => PutThenGet16(f, c, val, e);
      case Fat32 => PutThenGet32(f, c, val, e);
    }

    lemma PutThenGet16(f: seq<Byte>, c: nat, val: DWord, e: nat)
      requires Fat16? && Pos(c) + Width() <= |f| && Pos(e) + Width() <= |f|
      ensures Entry(PutBytes(f, c, val, 2), e) == if e == c then val % 0x1_0000 else Entry(f, e)
    {
      var r, k := PutBytes(f, c, val, 2), Pos(e);
      if e == c {
        assert r[k] == val % 256 && r[k + 1] == val / 256 % 256;
        Low32(val);
      } else {
        assert r[k] == f[k] && r[k + 1] == f[k + 1];
      }
    }

    lemma PutThenGet12(f: seq<Byte>, c: nat, val: DWord, e: nat)
      requires Fat12? && Pos(c) + Width() <= |f| && Pos(e) + Width() <= |f|
      ensures Entry(PutBytes(f, c, val, 2), e) == if e == c then val % 4096 else Entry(f, e)
    {
      hide FatType.PutBytes;
      var r, k := PutBytes(f, c, val, 2), Pos(e);
      if e == c {
        assert r[k] == NewByte(c, val, 0, f[k]) && r[k + 1] == NewByte(c, val, 1, f[k + 1]);
        Pack12(val, f[k], f[k + 1]);
      } else if e == c + 1 && c % 2 == 0 {
        assert r[k] == NewByte(c, val, 1, f[k]) && r[k + 1] == f[k + 1];
        HighNibble(f[k], val / 256 % 16, f[k + 1]);
      } else if c == e + 1 && e % 2 == 0 {
        assert r[k] == f[k] && r[k + 1] == NewByte(c, val, 0, f[k + 1]);
        LowNibble(f[k], f[k + 1], val % 16);
      } else {
        assert r[k] == f[k] && r[k + 1] == f[k + 1];
      }
    }

    static lemma Pack12(val: DWord, lo: Byte, hi: Byte)
      ensures (val % 256 + (hi / 16 * 16 + val / 256 % 16) * 256) % 4096 == val % 4096
      ensures (lo % 16 + val % 16 * 16 + val / 16 % 256 * 256) / 16 == val % 4096
    {
      Pack12Even(val, val % 256, val / 256, hi / 16);
      Pack12Odd(val, val % 16, val / 16, lo % 16);
    }

    static lemma Pack12Even(val: nat, a: nat, b: nat, h: nat)
      requires val == a + 256 * b && a < 256
      ensures (a + (h * 16 + b % 16) * 256) % 4096 == val % 4096
    {
      var q, r := b / 16, b % 16;
      assert val == a + 256 * r + 4096 * q;
      assert a + (h * 16 + r) * 256 == a + 256 * r + 4096 * h;
      AddMultiple(a + 256 * r, q);
      AddMultiple(a + 256 * r, h);
    }

    static lemma Pack12Odd(val: nat, c: nat, d: nat, l: nat)
      requires val == c + 16 * d && c < 16 && l < 16
      ensures (l + c * 16 + d % 256 * 256) / 16 == val % 4096
    {
      var q, r := d / 256, d % 256;
      var x := c + 16 * r;
      assert val == x + 4096 * q;
      assert l + c * 16 + r * 256 == l + 16 * x;
      DropLow(l, x);
      AddMultiple(x, q);
    }

    static lemma DropLow(l: nat, x: nat)
      requires l < 16
      ensures (l + 16 * x) / 16 == x
    {
    }

    static lemma AddMultiple(x: nat, k: nat)
      ensures (x + 4096 * k) % 4096 == x % 4096
    {
    }

    static lemma HighNibble(was: Byte, low: nat, hi: Byte)
      requires low < 16
      ensures (was / 16 * 16 + low + hi as nat * 256) / 16 == (was as nat + hi as nat * 256) / 16
    {
      var x := was / 16 + hi as nat * 16;
      assert was == was / 16 * 16 + was % 16;
      DropLow(low, x);
      DropLow(was % 16, x);
    }

    static lemma LowNibble(lo: Byte, was: Byte, high: nat)
      requires high < 16
      ensures (lo as nat + (was % 16 + high * 16) * 256) % 4096 == (lo as nat + was as nat * 256) % 4096
    {
      var q, r := was / 16, was % 16;
      assert was == q * 16 + r;
      AddMultiple(lo as nat + 256 * r, high);
      AddMultiple(lo as nat + 256 * r, q);
    }

    /** FAT32 keeps the four reserved high bits as well. */
    lemma PutThenGet32(f: seq<Byte>, c: nat, val: DWord, e: nat)
      requires Fat32? && Pos(c) + Width() <= |f| && Pos(e) + Width() <= |f|
      ensures Entry(PutBytes(f, c, val, 4), e) == if e == c then val % 0x1000_0000 else Entry(f, e)
      ensures PutBytes(f, c, val, 4)[Pos(e) + 3] / 16 == f[Pos(e) + 3] / 16
    {
      var r, k := PutBytes(f, c, val, 4), Pos(e);
      if e == c {
        Low32(val);
        assert Word(r, k) == val % 65536;
        High32(val, f[k + 3]);
        assert r[k + 2] == val / 65536 % 256 && r[k + 3] == f[k + 3] / 16 * 16 + val / 16777216 % 16;
      } else {
        assert Word(r, k) == Word(f, k) && Word(r, k + 2) == Word(f, k + 2);
      }
    }

    static lemma Low32(val: DWord)
      ensures val % 256 + val / 256 % 256 * 256 == val % 65536
    {
      TwoDigits(val, val % 256, val / 256, val / 256 % 256, val / 256 / 256);
    }

    static lemma TwoDigits(val: nat, a: nat, b: nat, c: nat, q: nat)
      requires val == a + 256 * b && b == c + 256 * q && a < 256 && c < 256
      ensures a + c * 256 == val % 65536
    {
      LowPart(q, a + c * 256, 65536);
    }

    static lemma LowPart(q: nat, r: nat, d: nat)
      requires r < d
      ensures (q * d + r) % d == r
    {
      DivModUnique(q * d + r, d, q, r);
    }

    static lemma High32(val: DWord, was: Byte)
      ensures val % 65536 + (val / 65536 % 256 + (was / 16 * 16 + val / 16777216 % 16) * 256) * 65536 % 0x1000_0000
        == val % 0x1000_0000
      ensures (was / 16 * 16 + val / 16777216 % 16) / 16 == was / 16
    {
      var q := val / 65536;
      assert val / 16777216 == q / 256;
      TwoNibbles(q);
      var m := q % 256 + (was / 16 * 16 + q / 256 % 16) * 256;
      assert m == q % 4096 + was / 16 * 4096;
      assert m * 65536 == was / 16 * 0x1000_0000 + q % 4096 * 65536;
      LowPart(was as nat / 16, q % 4096 * 65536, 0x1000_0000);
      LowPart(q / 4096, val % 65536 + q % 4096 * 65536, 0x1000_0000);
    }

    static lemma TwoNibbles(q: nat)
      ensures q % 4096 == q % 256 + q / 256 % 16 * 256
    {
      LowPart(q / 256 / 16, q % 256 + q / 256 % 16 * 256, 4096);
    }
  }

  // ---------- the disk ----------

  datatype FResult = Ok | IntErr | Denied

  /** What `find_volume` establishes about a mounted volume. */
  datatype Geometry = Geometry(
    fsType: FatType, nFats: nat, csize: nat, nFatent: nat,
    fsize: nat, fatbase: nat, database: nat, total: nat)
  {
    ghost predicate Valid() {
      && 1 <= nFats <= 2
      && 3 <= nFatent <= fsType.MaxEntries()
      && fsType.Size(nFatent) <= fsize * 512
      && 0 < fatbase
      && fatbase + (if nFats == 2 then 2 * fsize else fsize) <= database <= total < 0x1_0000_0000
    }

    predicate InFat(sector: nat) {
      fatbase <= sector < fatbase + fsize
    }

    /** Is this a sector of the second FAT copy? */
    predicate InMirror(sector: nat) {
      nFats == 2 && fatbase + fsize <= sector < fatbase + 2 * fsize
    }

    lemma SameTransitive(d: Disk, e: Disk, f: Disk)
      requires Valid() && |d| == total == |e| == |f|
      requires SameOutsideFat(d, e) && SameOutsideFat(e, f)
      ensures SameOutsideFat(d, f)
    {
    }

    /** Writing one sector the way the window is flushed: into every FAT copy at once. */
    function Flush(d: Disk, sector: nat, w: Sector): (r: Disk)
      requires Valid() && |d| == total && sector < total
      ensures |r| == total
    {
      if InFat(sector) && nFats == 2 then d[sector := w][sector + fsize := w] else d[sector := w]
    }

    ghost predicate Mirrored(d: Disk)
      requires Valid() && |d| == total
    {
      nFats == 2 ==> forall s: nat | InFat(s) :: CopiesAgree(d, s)
    }

    ghost predicate CopiesAgree(d: Disk, s: nat)
      requires s + fsize < |d|
    {
      d[s] == d[s + fsize]
    }

    /** The first FAT copy as one run of bytes. */
    ghost function Image(d: Disk): (f: seq<Byte>)
      requires Valid() && |d| == total
      ensures |f| == fsize * 512
    {
      seq(fsize * 512, k requires 0 <= k < fsize * 512 => d[fatbase + k / 512][k % 512])
    }

    lemma ImageInOrder(d: Disk, i: nat)
      requires Valid() && |d| == total && i < fsize
      ensures fatbase + i < total && Image(d)[512 * i..512 * i + 512] == d[fatbase + i]
    {
    }

    /** The allocation table as a sequence indexed by cluster number. */
    ghost function Table(d: Disk): (t: seq<nat>)
      requires Valid() && |d| == total
      ensures |t| == nFatent
    {
      var f := Image(d);
      seq(nFatent, c requires 0 <= c < nFatent => fsType.PosFits(c, nFatent); fsType.Entry(f, c))
    }

    /** Same disk, except for what the FAT copies hold. */
    ghost predicate SameOutsideFat(d: Disk, e: Disk)
      requires Valid() && |d| == total == |e|
    {
      forall s :: 0 <= s < total && !InFat(s) && !InMirror(s) ==> d[s] == e[s]
    }

    /** Same data area, except for the run of `n` sectors from `s` on. */
    ghost predicate SameDataBut(d: Disk, e: Disk, s: nat, n: nat)
      requires Valid() && |d| == total == |e|
    {
      forall x :: database <= x < total && !(s <= x < s + n) ==> d[x] == e[x]
    }

    lemma FlushMirrors(d: Disk, sector: nat, w: Sector)
      requires Valid() && |d| == total && Mirrored(d) && sector < total && !InMirror(sector)
      ensures Mirrored(Flush(d, sector, w))
    {
      if nFats == 2 {
        forall s: nat | InFat(s) ensures CopiesAgree(Flush(d, sector, w), s) {
          assert CopiesAgree(d, s);
        }
      }
    }

    lemma SameImage(d: Disk, e: Disk)
      requires Valid() && |d| == total == |e| && forall s :: fatbase <= s < fatbase + fsize ==> d[s] == e[s]
      ensures Image(d) == Image(e) && Table(d) == Table(e)
    {
    }

    /** Writing data sectors reaches neither the table copies nor what the window shows. */
    lemma AfterTransfer(d: Disk, e: Disk, sector: nat, w: seq<Sector>, at: nat)
      requires Valid() && |d| == total && database <= sector && sector + |w| <= total
      requires e == d[..sector] + w + d[sector + |w|..] && at < total && !(sector <= at < sector + |w|)
      ensures |e| == total && e[at] == d[at] && (Mirrored(d) ==> Mirrored(e)) && Table(e) == Table(d) && SameDataBut(e, d, sector, |w|)
    {
      SameImage(d, e);
      if Mirrored(d) && nFats == 2 {
        forall s: nat | InFat(s) ensures CopiesAgree(e, s) {
          assert CopiesAgree(d, s);
        }
      }
    }

    lemma FlushedTransfer(d: Disk, e: Disk, sector: nat, n: nat, at: nat, w: Sector)
      requires Valid() && |d| == total == |e| && database <= sector && at < total && !InMirror(at) && !(sector <= at < sector + n)
      requires SameDataBut(e, d, sector, n) && forall s :: 0 <= s < database ==> e[s] == d[s]
      ensures Table(Flush(e, at, w)) == Table(Flush(d, at, w)) && SameDataBut(Flush(e, at, w), Flush(d, at, w), sector, n)
    {
      SameImage(Flush(d, at, w), Flush(e, at, w));
    }

    lemma FlushTwice(d: Disk, sector: nat, v: Sector, w: Sector)
      requires Valid() && |d| == total && sector < total
      ensures Flush(Flush(d, sector, v), sector, w) == Flush(d, sector, w)
    {
    }

    lemma FlushByte(d: Disk, k: nat, b: Byte)
      requires Valid() && |d| == total && k < fsize * 512
      ensures var d' := Flush(d, fatbase + k / 512, d[fatbase + k / 512][k % 512 := b]);
        && Image(d') == Image(d)[k := b]
        && SameOutsideFat(d', d)
        && (Mirrored(d) ==> Mirrored(d'))
    {
      var d' := Flush(d, fatbase + k / 512, d[fatbase + k / 512][k % 512 := b]);
      forall j | 0 <= j < fsize * 512
        ensures Image(d')[j] == Image(d)[k := b][j]
      {
        if j / 512 == k / 512 && j % 512 == k % 512 {
          assert j == k;
        }
      }
    }

    lemma TableAfterPut(d: Disk, e: Disk, c: nat, val: DWord)
      requires Valid() && |d| == total == |e| && c < nFatent
      requires (fsType.PosFits(c, nFatent); Image(e) == fsType.PutBytes(Image(d), c, val, fsType.Width()))
      ensures Table(e) == Table(d)[c := fsType.Mask(val)]
    {
      forall x | 0 <= x < nFatent
        ensures Table(e)[x] == Table(d)[c := fsType.Mask(val)][x]
      {
        fsType.PosFits(c, nFatent);
        fsType.PosFits(x, nFatent);
        fsType.PutThenGet(Image(d), c, val, x);
      }
    }
  }

  /** The file system object: its geometry, the disk, and the access window. */
  class FATFS {
    const g: Geometry
    const win: array<Byte>
    /** Were the copies of the table equal when the volume was mounted? */
    ghost const mirrored: bool
    var disk: Disk
    var winSect: nat
    var wFlag: bool
    var lastClst: DWord
    var freeClst: DWord
    var fsiDirty: bool

    ghost predicate Valid()
      reads this`disk, this`wFlag, this`winSect, win
    {
      && g.Valid() && |disk| == g.total && (mirrored ==> g.Mirrored(disk))
      && win.Length == 512
      && winSect < g.total && !g.InMirror(winSect)
      && (!wFlag ==> disk[winSect] == win[..])
    }

    /** The disk as it will be once the window has been written back. */
    ghost function Logical(): (d: Disk)
      reads this`disk, this`wFlag, this`winSect, win
      requires Valid()
      ensures |d| == g.total
    {
      if wFlag then g.Flush(disk, winSect, win[..]) else disk
    }

    ghost function Fat(): (t: seq<nat>)
      reads this`disk, this`wFlag, this`winSect, win
      requires Valid()
      ensures |t| == g.nFatent
    {
      g.Table(Logical())
    }

    /** Mounting leaves one sector in the window. */
    constructor (geometry: Geometry, image: Disk, sector: nat)
      requires geometry.Valid() && |image| == geometry.total
      requires sector < geometry.total && !geometry.InMirror(sector)
      ensures Valid() && fresh(win) && g == geometry && Logical() == image && mirrored == geometry.Mirrored(image)
      ensures lastClst == 0xFFFF_FFFF && freeClst == 0xFFFF_FFFF
    {
      g := geometry;
      mirrored := geometry.Mirrored(image);
      disk := image;
      winSect := sector;
      wFlag := false;
      lastClst, freeClst := 0xFFFF_FFFF, 0xFFFF_FFFF;
      fsiDirty := false;
      win := new Byte[512](i requires 0 <= i < 512 => image[sector][i]);
      new;
      assert win[..] == image[sector];
    }

    /** Writing the window back: the logical disk stays, and the real disk now equals it. */
    method SyncWindow()
      requires Valid()
      modifies this`disk, this`wFlag
      ensures Valid() && !wFlag
      ensures disk == Logical() == old(Logical()) && (mirrored ==> g.Mirrored(disk))
    {
      if wFlag {
        var wsect := winSect;
        disk := disk[wsect := win[..]];
        wFlag := false;
        if Sub32(wsect, g.fatbase) < g.fsize {
          var nf := g.nFats;
          while nf >= 2
            invariant !wFlag && (nf == 1 || nf == g.nFats == 2)
            invariant nf == 2 ==> wsect == winSect && disk == old(disk)[winSect := win[..]]
            invariant nf == 1 ==> disk == g.Flush(old(disk), winSect, win[..])
          {
            wsect := wsect + g.fsize;
            disk := disk[wsect := win[..]];
            nf := nf - 1;
          }
        }
        assert disk == g.Flush(old(disk), winSect, win[..]);
        if mirrored {
          g.FlushMirrors(old(disk), winSect, win[..]);
        }
      }
    }

    /** Moving the window never changes the logical disk. */
    method MoveWindow(sector: nat)
      requires Valid() && sector < g.total && !g.InMirror(sector)
      modifies this`disk, this`wFlag, this`winSect, win
      ensures Valid() && winSect == sector
      ensures Logical() == old(Logical())
      ensures win[..] == Logical()[sector]
    {
      if sector != winSect {
        SyncWindow();
        forall i | 0 <= i < 512 { win[i] := disk[sector][i]; }
        winSect := sector;
        assert win[..] == disk[sector];
      }
    }

    /** Storing a byte of the FAT sector that the window shows. */
    method StoreFatByte(k: nat, b: Byte)
      requires Valid() && k < g.fsize * 512
      requires winSect == g.fatbase + k / 512
      modifies this`wFlag, win
      ensures Valid() && wFlag
      ensures g.Image(Logical()) == g.Image(old(Logical()))[k := b]
      ensures g.SameOutsideFat(Logical(), old(Logical()))
    {
      hide Geometry.Image, Geometry.SameOutsideFat;
      ghost var w, d := win[..], Logical();
      assert d[winSect] == w;
      g.FlushByte(d, k, b);
      win[k % 512] := b;
      wFlag := true;
      assert win[..] == w[k % 512 := b];
      g.FlushTwice(disk, winSect, w, win[..]);
    }

    // ---------- data sectors, behind the window's back ----------

    /** `disk_write` of data sectors the window does not show leaves the volume and its FAT as they are. */
    method DiskWrite(sector: nat, w: seq<Sector>)
      requires Valid() && g.database <= sector && sector + |w| <= g.total
      requires !(sector <= winSect < sector + |w|)
      modifies this`disk
      ensures Valid() && Fat() == old(Fat())
      ensures disk == old(disk)[..sector] + w + old(disk)[sector + |w|..]
      ensures g.SameDataBut(Logical(), old(Logical()), sector, |w|)
    {
      ghost var d := disk;
      disk := disk[..sector] + w + disk[sector + |w|..];
      g.AfterTransfer(d, disk, sector, w, winSect);
      g.FlushedTransfer(d, disk, sector, |w|, winSect, win[..]);
      hide Geometry.Table, Geometry.Flush, Geometry.Mirrored, Geometry.SameDataBut;
    }

    /** Outside the FAT and the window, the disk is already what it will be. */
    lemma DiskIsLogical(s: nat)
      requires Valid() && s < g.total && s != winSect && !g.InFat(s) && !g.InMirror(s)
      ensures disk[s] == Logical()[s]
    {
    }

    // ---------- entries ----------

    /** Bringing byte `k` of the FAT into the window and reading it. */
    method LoadFatByte(k: nat) returns (b: Byte)
      requires Valid() && k < g.fsize * 512
      modifies this`disk, this`wFlag, this`winSect, win
      ensures Valid() && Logical() == old(Logical()) && Fat() == old(Fat())
      ensures b == g.Image(Logical())[k] && winSect == g.fatbase + k / 512
    {
      MoveWindow(g.fatbase + k / 512);
      b := win[k % 512];
    }

    /**
     `get_fat`: the entry, or 1 for a number that is no cluster.  FAT12 moves the window
     between the two bytes; for FAT16 and FAT32 the second move finds it in place.
     */
    method GetFat(clst: nat) returns (val: nat)
      requires Valid()
      modifies this`disk, this`wFlag, this`winSect, win
      ensures Valid() && Logical() == old(Logical())
      ensures Fat() == old(Fat()) && val == Lookup(Fat(), clst)
      ensures if 2 <= clst < g.nFatent then g.InFat(winSect) else winSect == old(winSect)
    {
      hide Geometry.Flush, Geometry.Mirrored, FATFS.Logical;
      if clst < 2 || clst >= g.nFatent {
        return 1;
      }
      g.fsType.PosFits(clst, g.nFatent);
      var k := g.fsType.Pos(clst);
      var b0 := LoadFatByte(k);
      var b1 := LoadFatByte(k + 1);
      var wc := b0 as nat + b1 as nat * 256;
      match g.fsType
      case Fat12 =>
        val := if clst % 2 == 1 then wc / 16 else wc % 4096;
      case Fat16 =>
        val := wc;
      case Fat32 =>
        var b2 := LoadFatByte(k + 2);
        var b3 := LoadFatByte(k + 3);
        val := wc + (b2 as nat + b3 as nat * 256) * 65536 % 0x1000_0000;
    }

    /** Storing byte `m` of entry `clst`, after moving the window to it. */
    method PutFatByte(clst: nat, val: DWord, m: nat, ghost f: seq<Byte>)
      requires Valid() && clst < g.nFatent && m < g.fsType.Width()
      requires g.fsType.Pos(clst) + g.fsType.Width() <= |f|
      requires g.Image(Logical()) == g.fsType.PutBytes(f, clst, val, m)
      modifies this`disk, this`wFlag, this`winSect, win
      ensures Valid() && g.InFat(winSect)
      ensures g.Image(Logical()) == g.fsType.PutBytes(f, clst, val, m + 1)
      ensures g.SameOutsideFat(Logical(), old(Logical()))
    {
      var k := g.fsType.Pos(clst) + m;
      var was := LoadFatByte(k);
      StoreFatByte(k, g.fsType.NewByte(clst, val, m, was));
    }

    /** `put_fat`: the masked value is stored in entry `clst`, nothing else of the disk changes. */
    method PutFat(clst: nat, val: DWord) returns (res: FResult)
      requires Valid()
      modifies this`disk, this`wFlag, this`winSect, win
      ensures Valid()
      ensures res == if 2 <= clst < g.nFatent then Ok else IntErr
      ensures res == IntErr ==> Logical() == old(Logical()) && Fat() == old(Fat()) && winSect == old(winSect)
      ensures res == Ok ==> Fat() == old(Fat())[clst := g.fsType.Mask(val)] && g.InFat(winSect)
      ensures g.SameOutsideFat(Logical(), old(Logical()))
    {
      if clst < 2 || clst >= g.nFatent {
        return IntErr;
      }
      hide Geometry.Image, Geometry.Flush, Geometry.Mirrored, FATFS.Logical, Geometry.Table, Geometry.SameOutsideFat, FatType.PutBytes;
      g.fsType.PosFits(clst, g.nFatent);
      PutEntry(clst, val);
      g.TableAfterPut(old(Logical()), Logical(), clst, val);
      res := Ok;
    }

    /** The bytes of an entry, one by one. */
    method PutEntry(clst: nat, val: DWord)
      requires Valid() && clst < g.nFatent && g.fsType.Pos(clst) + g.fsType.Width() <= g.fsize * 512
      modifies this`disk, this`wFlag, this`winSect, win
      ensures Valid() && g.InFat(winSect)
      ensures g.Image(Logical()) == g.fsType.PutBytes(g.Image(old(Logical())), clst, val, g.fsType.Width())
      ensures g.SameOutsideFat(Logical(), old(Logical()))
    {
      hide Geometry.Image, Geometry.Flush, Geometry.Mirrored, FATFS.Logical, Geometry.Table;
      ghost var f := g.Image(Logical());
      PutFatByte(clst, val, 0, f);
      PutFatByte(clst, val, 1, f);
      if g.fsType.Fat32? {
        PutFatByte(clst, val, 2, f);
        PutFatByte(clst, val, 3, f);
      }
    }

    // ---------- chains ----------

    /** The search loop of `create_chain`: upwards from `scl`, with wrap-around. */
    method FindFree(scl: nat) returns (r: nat)
      requires Valid() && 1 <= scl < g.nFatent
      modifies this`disk, this`wFlag, this`winSect, win
      ensures Valid() && Logical() == old(Logical()) && Fat() == old(Fat())
      ensures g.InFat(winSect) || winSect == old(winSect)
      ensures NextFit(old(Fat()), scl, r)
    {
      hide Geometry.Valid, Geometry.Table, FATFS.Valid, FATFS.Logical, FATFS.Fat;
      ghost var t := Fat();
      var n := g.nFatent;
      var ncl := scl;
      while true
        invariant Valid() && Logical() == old(Logical()) && Fat() == t
        invariant g.InFat(winSect) || winSect == old(winSect)
        invariant Scanned(t, scl, ncl)
        decreases if ncl >= scl then 2 * n - ncl else scl - ncl
      {
        ncl := ncl + 1;
        if ncl >= n {
          ncl := 2;
          if ncl > scl { return 0; }
        }
        var cs := GetFat(ncl);
        if cs == 0 { return ncl; }
        if cs == 1 { return 1; }
        if ncl == scl { return 0; }
      }
    }

    lemma Bounds()
      requires Valid()
      ensures g.Valid() && |Logical()| == g.total && 3 <= g.nFatent <= g.fsType.MaxEntries() < 0x1000_0000
      ensures g.fsType.Mask(0) == 0
    {
    }

    /** `create_chain`: follow or stretch the chain ending at `clst`, or start one (`clst == 0`). */
    method CreateChain(clst: nat) returns (r: nat)
      requires Valid()
      modifies this, win
      ensures Valid()
      ensures Stretched(old(Fat()), clst, old(lastClst), g.fsType.EndOfChain(), r, Fat())
      ensures g.SameOutsideFat(Logical(), old(Logical()))
      ensures g.InFat(winSect) || (winSect == old(winSect) && r < 2)
      ensures if Fat() == old(Fat())
        then lastClst == old(lastClst) && freeClst == old(freeClst)
        else lastClst == r && freeClst == CounterAfterAlloc(old(freeClst), g.nFatent)
    {
      hide Geometry.Valid, Geometry.Table, FATFS.Valid, FATFS.Logical, FATFS.Fat;
      Bounds();
      ghost var t := Fat();
      var n := g.nFatent;
      var cs: nat;
      var scl: nat := clst;
      if clst == 0 {
        scl := lastClst;
        if scl == 0 || scl >= n { scl := 1; }
      } else {
        cs := GetFat(clst);
        if cs < 2 { return 1; }
        if cs < n { return cs; }
      }
      var ncl := FindFree(scl);
      if ncl < 2 { return ncl; }
      g.fsType.MaskFits(ncl);
      ghost var before := Logical();
      var res := PutFat(ncl, 0xFFFF_FFFF);
      ghost var between := Logical();
      if res == Ok && clst != 0 {
        res := PutFat(clst, ncl);
      }
      g.SameTransitive(Logical(), between, before);
      lastClst := ncl;
      if freeClst < n - 2 { freeClst := Sub32(freeClst, 1); }
      fsiDirty := true;
      r := ncl;
    }

    /** One pass of the loop of `remove_chain`: the entry of a cluster in use is freed and the counter follows. */
    method Release(c: nat) returns (nxt: nat)
      requires Valid() && 2 <= c < g.nFatent
      modifies this, win
      ensures Valid() && nxt == old(Fat())[c]
      ensures g.SameOutsideFat(Logical(), old(Logical()))
      ensures nxt < 2 ==> Fat() == old(Fat()) && freeClst == old(freeClst)
      ensures nxt >= 2 ==> Fat() == old(Fat())[c := 0]
      ensures nxt >= 2 && old(freeClst) < 0xFFFF_FFFF ==> freeClst == old(freeClst) + 1
    {
      hide Geometry.Valid, Geometry.Table, FATFS.Valid, FATFS.Logical, FATFS.Fat;
      Bounds();
      nxt := GetFat(c);
      if nxt < 2 { return; }
      var res := PutFat(c, 0);
      if freeClst != 0xFFFF_FFFF {
        freeClst := freeClst + 1;
        fsiDirty := true;
      }
    }

    /**
     `remove_chain`: end the chain at `pclst` (0: the chain goes whole) and free the clusters
     from `clst` on.  A right free-cluster counter stays right.
     */
    method RemoveChain(clst: nat, pclst: nat) returns (res: FResult)
      requires Valid()
      modifies this, win
      ensures Valid()
      ensures g.SameOutsideFat(Logical(), old(Logical()))
      ensures !(2 <= clst < g.nFatent) ==> res == IntErr && Fat() == old(Fat())
      ensures 2 <= clst < g.nFatent && pclst != 0 && !(2 <= pclst < g.nFatent) ==> res == IntErr && Fat() == old(Fat())
      ensures 2 <= clst < g.nFatent && (pclst == 0 || 2 <= pclst < g.nFatent) ==>
        var t := if pclst == 0 then old(Fat()) else old(Fat())[pclst := g.fsType.EndOfChain()];
        (res == Ok, Fat()) == Unlink(t, clst)
      ensures old(freeClst) == FreeCount(old(Fat())) && (2 <= pclst < g.nFatent ==> old(Fat())[pclst] != 0)
        ==> freeClst == FreeCount(Fat())
    {
      hide Geometry.Valid, Geometry.Table, FATFS.Valid, FATFS.Logical, FATFS.Fat;
      Bounds();
      if clst < 2 || clst >= g.nFatent { return IntErr; }
      if pclst != 0 {
        res := PutFat(pclst, 0xFFFF_FFFF);
        if res != Ok { return res; }
        FreeFromUpdate(old(Fat()), 2, pclst, g.fsType.EndOfChain());
      }
      ghost var t := Fat();
      ghost var exact := freeClst == FreeCount(t);
      var c := clst;
      while true
        invariant Valid() && 2 <= c < g.nFatent
        invariant g.SameOutsideFat(Logical(), old(Logical()))
        invariant Unlink(Fat(), c) == Unlink(t, clst)
        invariant exact ==> freeClst == FreeCount(Fat())
        decreases g.nFatent - FreeCount(Fat())
      {
        NoFree(Fat(), 2);
        FreeFromUpdate(Fat(), 2, c, 0);
        var nxt := Release(c);
        NoFree(Fat(), 2);
        if nxt == 0 { break; }
        if nxt == 1 { return IntErr; }
        if nxt >= g.nFatent { break; }
        c := nxt;
      }
      res := Ok;
    }
  }
}
