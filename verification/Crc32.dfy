/**
 The checksum of `CRC32/src/main.c`: the table step `UPDC32`, `crc32buf` and `crc32file`, against long
 division of the message bits by the generator polynomial, and what the checksum detects.
 */
module Crc32 {
  import opened AesTables

  // ---------- one bit and eight bits ----------

  const GENERATOR: bv32 := 0xedb88320

  function Low(x: bv32): bool {
    x & 1 == 1
  }

  function Half(x: bv32): bv32 {
    x >> 1
  }

  /** One step of the reflected shift register. */
  function Bit(x: bv32): bv32 {
    if Low(x) then Xor(Half(x), GENERATOR) else Half(x)
  }

  function Bits4(x: bv32): bv32 {
    Bit(Bit(Bit(Bit(x))))
  }

  function Bits8(x: bv32): bv32 {
    Bits4(Bits4(x))
  }

  lemma LowLinear(x: bv32, y: bv32)
    ensures Low(Xor(x, y)) == (Low(x) != Low(y))
  {
  }

  lemma HalfLinear(x: bv32, y: bv32)
    ensures Half(Xor(x, y)) == Xor(Half(x), Half(y))
  {
  }

  lemma BitLinear(x: bv32, y: bv32)
    ensures Bit(Xor(x, y)) == Xor(Bit(x), Bit(y))
  {
    hide Low, Half, Xor, GENERATOR;
    var a, b, g := Half(x), Half(y), GENERATOR;
    LowLinear(x, y);
    HalfLinear(x, y);
    XorSwap(Xor(a, g), b);
    XorAssoc(b, a, g);
    XorSwap(a, b);
    XorAssoc(a, b, g);
    XorSwap(b, g);
    XorAssoc(Xor(a, g), g, b);
    XorTwice(a, g);
  }

  lemma Bits4Linear(x: bv32, y: bv32)
    ensures Bits4(Xor(x, y)) == Xor(Bits4(x), Bits4(y))
  {
    hide Bit, Xor;
    var x1, y1 := Bit(x), Bit(y);
    var x2, y2 := Bit(x1), Bit(y1);
    var x3, y3 := Bit(x2), Bit(y2);
    BitLinear(x, y);
    BitLinear(x1, y1);
    BitLinear(x2, y2);
    BitLinear(x3, y3);
  }

  lemma Bits8Linear(x: bv32, y: bv32)
    ensures Bits8(Xor(x, y)) == Xor(Bits8(x), Bits8(y))
  {
    hide Bits4, Xor;
    Bits4Linear(x, y);
    Bits4Linear(Bits4(x), Bits4(y));
  }

  lemma BitInjective(x: bv32, y: bv32)
    requires Bit(x) == Bit(y)
    ensures x == y
  {
  }

  /** A register whose low byte is zero just moves down. */
  lemma Bits8HighPart(x: bv32)
    requires x & 0xff == 0
    ensures Bits8(x) == x >> 8
  {
    Bits4HighPart(x);
    Bits4HighPart(x >> 4);
    hide Bits4;
    assert (x >> 4) & 0xf == 0;
    assert (x >> 4) >> 4 == x >> 8;
  }

  lemma Bits4HighPart(x: bv32)
    requires x & 0xf == 0
    ensures Bits4(x) == x >> 4
  {
    assert x & 1 == 0 && (x >> 1) & 1 == 0 && (x >> 2) & 1 == 0 && (x >> 3) & 1 == 0;
    assert (((x >> 1) >> 1) >> 1) >> 1 == x >> 4;
  }

  // ---------- the table ----------

  /** `crc_32_tab`. */
  function Crc32Tab(x: bv8): bv32 {
    if x < 0x10 then
      if x < 0x04 then (if x < 0x01 then 0x00000000 else if x < 0x02 then 0x77073096 else if x < 0x03 then 0xee0e612c else 0x990951ba)
      else if x < 0x08 then (if x < 0x05 then 0x076dc419 else if x < 0x06 then 0x706af48f else if x < 0x07 then 0xe963a535 else 0x9e6495a3)
      else if x < 0x0c then (if x < 0x09 then 0x0edb8832 else if x < 0x0a then 0x79dcb8a4 else if x < 0x0b then 0xe0d5e91e else 0x97d2d988)
      else if x < 0x0d then 0x09b64c2b else if x < 0x0e then 0x7eb17cbd else if x < 0x0f then 0xe7b82d07 else 0x90bf1d91
    else if x < 0x20 then
      if x < 0x14 then (if x < 0x11 then 0x1db71064 else if x < 0x12 then 0x6ab020f2 else if x < 0x13 then 0xf3b97148 else 0x84be41de)
      else if x < 0x18 then (if x < 0x15 then 0x1adad47d else if x < 0x16 then 0x6ddde4eb else if x < 0x17 then 0xf4d4b551 else 0x83d385c7)
      else if x < 0x1c then (if x < 0x19 then 0x136c9856 else if x < 0x1a then 0x646ba8c0 else if x < 0x1b then 0xfd62f97a else 0x8a65c9ec)
      else if x < 0x1d then 0x14015c4f else if x < 0x1e then 0x63066cd9 else if x < 0x1f then 0xfa0f3d63 else 0x8d080df5
    else if x < 0x30 then
      if x < 0x24 then (if x < 0x21 then 0x3b6e20c8 else if x < 0x22 then 0x4c69105e else if x < 0x23 then 0xd56041e4 else 0xa2677172)
      else if x < 0x28 then (if x < 0x25 then 0x3c03e4d1 else if x < 0x26 then 0x4b04d447 else if x < 0x27 then 0xd20d85fd else 0xa50ab56b)
      else if x < 0x2c then (if x < 0x29 then 0x35b5a8fa else if x < 0x2a then 0x42b2986c else if x < 0x2b then 0xdbbbc9d6 else 0xacbcf940)
      else if x < 0x2d then 0x32d86ce3 else if x < 0x2e then 0x45df5c75 else if x < 0x2f then 0xdcd60dcf else 0xabd13d59
    else if x < 0x40 then
      if x < 0x34 then (if x < 0x31 then 0x26d930ac else if x < 0x32 then 0x51de003a else if x < 0x33 then 0xc8d75180 else 0xbfd06116)
      else if x < 0x38 then (if x < 0x35 then 0x21b4f4b5 else if x < 0x36 then 0x56b3c423 else if x < 0x37 then 0xcfba9599 else 0xb8bda50f)
      else if x < 0x3c then (if x < 0x39 then 0x2802b89e else if x < 0x3a then 0x5f058808 else if x < 0x3b then 0xc60cd9b2 else 0xb10be924)
      else if x < 0x3d then 0x2f6f7c87 else if x < 0x3e then 0x58684c11 else if x < 0x3f then 0xc1611dab else 0xb6662d3d
    else if x < 0x50 then
      if x < 0x44 then (if x < 0x41 then 0x76dc4190 else if x < 0x42 then 0x01db7106 else if x < 0x43 then 0x98d220bc else 0xefd5102a)
      else if x < 0x48 then (if x < 0x45 then 0x71b18589 else if x < 0x46 then 0x06b6b51f else if x < 0x47 then 0x9fbfe4a5 else 0xe8b8d433)
      else if x < 0x4c then (if x < 0x49 then 0x7807c9a2 else if x < 0x4a then 0x0f00f934 else if x < 0x4b then 0x9609a88e else 0xe10e9818)
      else if x < 0x4d then 0x7f6a0dbb else if x < 0x4e then 0x086d3d2d else if x < 0x4f then 0x91646c97 else 0xe6635c01
    else if x < 0x60 then
      if x < 0x54 then (if x < 0x51 then 0x6b6b51f4 else if x < 0x52 then 0x1c6c6162 else if x < 0x53 then 0x856530d8 else 0xf262004e)
      else if x < 0x58 then (if x < 0x55 then 0x6c0695ed else if x < 0x56 then 0x1b01a57b else if x < 0x57 then 0x8208f4c1 else 0xf50fc457)
      else if x < 0x5c then (if x < 0x59 then 0x65b0d9c6 else if x < 0x5a then 0x12b7e950 else if x < 0x5b then 0x8bbeb8ea else 0xfcb9887c)
      else if x < 0x5d then 0x62dd1ddf else if x < 0x5e then 0x15da2d49 else if x < 0x5f then 0x8cd37cf3 else 0xfbd44c65
    else if x < 0x70 then
      if x < 0x64 then (if x < 0x61 then 0x4db26158 else if x < 0x62 then 0x3ab551ce else if x < 0x63 then 0xa3bc0074 else 0xd4bb30e2)
      else if x < 0x68 then (if x < 0x65 then 0x4adfa541 else if x < 0x66 then 0x3dd895d7 else if x < 0x67 then 0xa4d1c46d else 0xd3d6f4fb)
      else if x < 0x6c then (if x < 0x69 then 0x4369e96a else if x < 0x6a then 0x346ed9fc else if x < 0x6b then 0xad678846 else 0xda60b8d0)
      else if x < 0x6d then 0x44042d73 else if x < 0x6e then 0x33031de5 else if x < 0x6f then 0xaa0a4c5f else 0xdd0d7cc9
    else if x < 0x80 then
      if x < 0x74 then (if x < 0x71 then 0x5005713c else if x < 0x72 then 0x270241aa else if x < 0x73 then 0xbe0b1010 else 0xc90c2086)
      else if x < 0x78 then (if x < 0x75 then 0x5768b525 else if x < 0x76 then 0x206f85b3 else if x < 0x77 then 0xb966d409 else 0xce61e49f)
      else if x < 0x7c then (if x < 0x79 then 0x5edef90e else if x < 0x7a then 0x29d9c998 else if x < 0x7b then 0xb0d09822 else 0xc7d7a8b4)
      else if x < 0x7d then 0x59b33d17 else if x < 0x7e then 0x2eb40d81 else if x < 0x7f then 0xb7bd5c3b else 0xc0ba6cad
    else if x < 0x90 then
      if x < 0x84 then (if x < 0x81 then 0xedb88320 else if x < 0x82 then 0x9abfb3b6 else if x < 0x83 then 0x03b6e20c else 0x74b1d29a)
      else if x < 0x88 then (if x < 0x85 then 0xead54739 else if x < 0x86 then 0x9dd277af else if x < 0x87 then 0x04db2615 else 0x73dc1683)
      else if x < 0x8c then (if x < 0x89 then 0xe3630b12 else if x < 0x8a then 0x94643b84 else if x < 0x8b then 0x0d6d6a3e else 0x7a6a5aa8)
      else if x < 0x8d then 0xe40ecf0b else if x < 0x8e then 0x9309ff9d else if x < 0x8f then 0x0a00ae27 else 0x7d079eb1
    else if x < 0xa0 then
      if x < 0x94 then (if x < 0x91 then 0xf00f9344 else if x < 0x92 then 0x8708a3d2 else if x < 0x93 then 0x1e01f268 else 0x6906c2fe)
      else if x < 0x98 then (if x < 0x95 then 0xf762575d else if x < 0x96 then 0x806567cb else if x < 0x97 then 0x196c3671 else 0x6e6b06e7)
      else if x < 0x9c then (if x < 0x99 then 0xfed41b76 else if x < 0x9a then 0x89d32be0 else if x < 0x9b then 0x10da7a5a else 0x67dd4acc)
      else if x < 0x9d then 0xf9b9df6f else if x < 0x9e then 0x8ebeeff9 else if x < 0x9f then 0x17b7be43 else 0x60b08ed5
    else if x < 0xb0 then
      if x < 0xa4 then (if x < 0xa1 then 0xd6d6a3e8 else if x < 0xa2 then 0xa1d1937e else if x < 0xa3 then 0x38d8c2c4 else 0x4fdff252)
      else if x < 0xa8 then (if x < 0xa5 then 0xd1bb67f1 else if x < 0xa6 then 0xa6bc5767 else if x < 0xa7 then 0x3fb506dd else 0x48b2364b)
      else if x < 0xac then (if x < 0xa9 then 0xd80d2bda else if x < 0xaa then 0xaf0a1b4c else if x < 0xab then 0x36034af6 else 0x41047a60)
      else if x < 0xad then 0xdf60efc3 else if x < 0xae then 0xa867df55 else if x < 0xaf then 0x316e8eef else 0x4669be79
    else if x < 0xc0 then
      if x < 0xb4 then (if x < 0xb1 then 0xcb61b38c else if x < 0xb2 then 0xbc66831a else if x < 0xb3 then 0x256fd2a0 else 0x5268e236)
      else if x < 0xb8 then (if x < 0xb5 then 0xcc0c7795 else if x < 0xb6 then 0xbb0b4703 else if x < 0xb7 then 0x220216b9 else 0x5505262f)
      else if x < 0xbc then (if x < 0xb9 then 0xc5ba3bbe else if x < 0xba then 0xb2bd0b28 else if x < 0xbb then 0x2bb45a92 else 0x5cb36a04)
      else if x < 0xbd then 0xc2d7ffa7 else if x < 0xbe then 0xb5d0cf31 else if x < 0xbf then 0x2cd99e8b else 0x5bdeae1d
    else if x < 0xd0 then
      if x < 0xc4 then (if x < 0xc1 then 0x9b64c2b0 else if x < 0xc2 then 0xec63f226 else if x < 0xc3 then 0x756aa39c else 0x026d930a)
      else if x < 0xc8 then (if x < 0xc5 then 0x9c0906a9 else if x < 0xc6 then 0xeb0e363f else if x < 0xc7 then 0x72076785 else 0x05005713)
      else if x < 0xcc then (if x < 0xc9 then 0x95bf4a82 else if x < 0xca then 0xe2b87a14 else if x < 0xcb then 0x7bb12bae else 0x0cb61b38)
      else if x < 0xcd then 0x92d28e9b else if x < 0xce then 0xe5d5be0d else if x < 0xcf then 0x7cdcefb7 else 0x0bdbdf21
    else if x < 0xe0 then
      if x < 0xd4 then (if x < 0xd1 then 0x86d3d2d4 else if x < 0xd2 then 0xf1d4e242 else if x < 0xd3 then 0x68ddb3f8 else 0x1fda836e)
      else if x < 0xd8 then (if x < 0xd5 then 0x81be16cd else if x < 0xd6 then 0xf6b9265b else if x < 0xd7 then 0x6fb077e1 else 0x18b74777)
      else if x < 0xdc then (if x < 0xd9 then 0x88085ae6 else if x < 0xda then 0xff0f6a70 else if x < 0xdb then 0x66063bca else 0x11010b5c)
      else if x < 0xdd then 0x8f659eff else if x < 0xde then 0xf862ae69 else if x < 0xdf then 0x616bffd3 else 0x166ccf45
    else if x < 0xf0 then
      if x < 0xe4 then (if x < 0xe1 then 0xa00ae278 else if x < 0xe2 then 0xd70dd2ee else if x < 0xe3 then 0x4e048354 else 0x3903b3c2)
      else if x < 0xe8 then (if x < 0xe5 then 0xa7672661 else if x < 0xe6 then 0xd06016f7 else if x < 0xe7 then 0x4969474d else 0x3e6e77db)
      else if x < 0xec then (if x < 0xe9 then 0xaed16a4a else if x < 0xea then 0xd9d65adc else if x < 0xeb then 0x40df0b66 else 0x37d83bf0)
      else if x < 0xed then 0xa9bcae53 else if x < 0xee then 0xdebb9ec5 else if x < 0xef then 0x47b2cf7f else 0x30b5ffe9
    else
      if x < 0xf4 then (if x < 0xf1 then 0xbdbdf21c else if x < 0xf2 then 0xcabac28a else if x < 0xf3 then 0x53b39330 else 0x24b4a3a6)
      else if x < 0xf8 then (if x < 0xf5 then 0xbad03605 else if x < 0xf6 then 0xcdd70693 else if x < 0xf7 then 0x54de5729 else 0x23d967bf)
      else if x < 0xfc then (if x < 0xf9 then 0xb3667a2e else if x < 0xfa then 0xc4614ab8 else if x < 0xfb then 0x5d681b02 else 0x2a6f2b94)
      else if x < 0xfd then 0xb40bbe37 else if x < 0xfe then 0xc30c8ea1 else if x < 0xff then 0x5a05df1b else 0x2d02ef8d
  }

  predicate TableHolds(x: bv8) {
    Crc32Tab(x) == Bits8(x as bv32)
  }

  /** Each entry is eight steps of the register from the index. */
  lemma TableIsBitwise(x: bv8)
    ensures TableHolds(x)
  {
    if x < 0x10 { assert TableHolds(x); }
    else if x < 0x20 { assert TableHolds(x); } else if x < 0x30 { assert TableHolds(x); } else if x < 0x40 { assert TableHolds(x); }
    else if x < 0x50 { assert TableHolds(x); } else if x < 0x60 { assert TableHolds(x); } else if x < 0x70 { assert TableHolds(x); }
    else if x < 0x80 { assert TableHolds(x); } else if x < 0x90 { assert TableHolds(x); } else if x < 0xa0 { assert TableHolds(x); }
    else if x < 0xb0 { assert TableHolds(x); } else if x < 0xc0 { assert TableHolds(x); } else if x < 0xd0 { assert TableHolds(x); }
    else if x < 0xe0 { assert TableHolds(x); } else if x < 0xf0 { assert TableHolds(x); }
    else { assert TableHolds(x); }
  }

  /** `UPDC32`. */
  function Updc32(octet: bv8, crc: bv32): bv32 {
    Xor(Crc32Tab((Xor(crc, octet as bv32) & 0xff) as bv8), crc >> 8)
  }

  /** The table step is eight steps of the register after the octet has been added to it. */
  lemma UpdateIsEightBits(octet: bv8, crc: bv32)
    ensures Updc32(octet, crc) == Bits8(Xor(crc, octet as bv32))
  {
    var x := Xor(crc, octet as bv32);
    var low, high := x & 0xff, x & 0xffffff00;
    LowAndHigh(x);
    HighOf(octet, crc);
    LowOf(x);
    hide Crc32Tab, Bits8, Xor;
    TableIsBitwise(low as bv8);
    Bits8Linear(low, high);
    Bits8HighPart(high);
  }

  lemma LowAndHigh(x: bv32)
    ensures x == Xor(x & 0xff, x & 0xffffff00) && (x & 0xffffff00) & 0xff == 0
  {
  }

  lemma HighOf(octet: bv8, crc: bv32)
    ensures (Xor(crc, octet as bv32) & 0xffffff00) >> 8 == crc >> 8
  {
  }

  lemma LowOf(x: bv32)
    ensures ((x & 0xff) as bv8) as bv32 == x & 0xff
  {
  }

  // ---------- octets and bits ----------

  /** The low `n` bits, lowest first. */
  function BitsOf(x: bv32, n: nat): (s: seq<bool>)
    ensures |s| == n
  {
    if n == 0 then [] else [Low(x)] + BitsOf(Half(x), n - 1)
  }

  function OctetBits(octet: bv8): (s: seq<bool>)
    ensures |s| == 8
  {
    BitsOf(octet as bv32, 8)
  }

  /** The bits of a message in the order of transmission. */
  function MessageBits(m: seq<bv8>): (s: seq<bool>)
    ensures |s| == 8 * |m|
  {
    if m == [] then [] else MessageBits(m[..|m| - 1]) + OctetBits(m[|m| - 1])
  }

  /** The register after a message, octet by octet with the table. */
  function Run(r: bv32, m: seq<bv8>): bv32 {
    if m == [] then r else Updc32(m[|m| - 1], Run(r, m[..|m| - 1]))
  }

  function Complement(x: bv32): bv32 {
    !x
  }

  /** The checksum: all-ones preset and final complement. */
  function Crc(m: seq<bv8>): bv32 {
    Complement(Run(0xffffffff, m))
  }

  /** The register after one message bit. */
  function Shift(r: bv32, b: bool): bv32 {
    Bit(if b then Xor(r, 1) else r)
  }

  function Serial(r: bv32, s: seq<bool>): bv32
    decreases |s|
  {
    if s == [] then r else Serial(Shift(r, s[0]), s[1..])
  }

  function Steps(x: bv32, n: nat): bv32
    decreases n
  {
    if n == 0 then x else Steps(Bit(x), n - 1)
  }

  function HalfN(x: bv32, n: nat): bv32
    decreases n
  {
    if n == 0 then x else HalfN(Half(x), n - 1)
  }

  function Down4(x: bv32): bv32 {
    x >> 4
  }

  function Down8(x: bv32): bv32 {
    x >> 8
  }

  lemma Half8(x: bv32)
    ensures HalfN(x, 8) == Down8(x)
  {
    FourAndFour(x);
    hide HalfN, Down4, Down8;
    Half4(x);
    Half4(Down4(x));
    HalfNAdd(x, 4, 4);
  }

  lemma FourAndFour(x: bv32)
    ensures Down4(Down4(x)) == Down8(x)
  {
  }

  lemma Half4(x: bv32)
    ensures HalfN(x, 4) == Down4(x)
  {
    HalfFour(x);
    hide Half, Down4;
    var a := Half(x);
    var b := Half(a);
    var c := Half(b);
    assert HalfN(x, 4) == HalfN(a, 3) && HalfN(a, 3) == HalfN(b, 2) && HalfN(b, 2) == HalfN(c, 1) && HalfN(c, 1) == HalfN(Half(c), 0);
  }

  lemma HalfFour(x: bv32)
    ensures Half(Half(Half(Half(x)))) == Down4(x)
  {
  }

  lemma {:induction false} HalfNAdd(x: bv32, a: nat, b: nat)
    ensures HalfN(HalfN(x, a), b) == HalfN(x, a + b)
    decreases a
  {
    if a > 0 { HalfNAdd(Half(x), a - 1, b); }
  }

  lemma Half24(x: bv32)
    ensures HalfN(x, 24) == Down8(Down8(Down8(x)))
  {
    hide HalfN, Down8;
    Half8(x);
    Half8(Down8(x));
    Half8(Down8(Down8(x)));
    HalfNAdd(x, 8, 8);
    HalfNAdd(x, 16, 8);
  }

  lemma HalfAll(x: bv32)
    ensures HalfN(x, 32) == 0
  {
    ShiftedOut(x);
    hide HalfN, Down8;
    Half24(x);
    Half8(Down8(Down8(Down8(x))));
    HalfNAdd(x, 24, 8);
  }

  lemma ShiftedOut(x: bv32)
    ensures Down8(Down8(Down8(Down8(x)))) == 0
  {
  }

  lemma SplitLow(x: bv32)
    ensures x == Xor(x & 1, x & 0xfffffffe)
  {
  }

  lemma LowAlone(x: bv32)
    ensures if Low(x) then x & 1 == 1 else x & 1 == 0
  {
  }

  lemma HighMoves(x: bv32)
    ensures Bit(x & 0xfffffffe) == Half(x)
  {
    assert !Low(x & 0xfffffffe);
    assert Half(x & 0xfffffffe) == Half(x);
  }

  /** One bit of the sum: the rest of the octet moves down with the register. */
  lemma ShiftOne(r: bv32, o: bv32)
    ensures Bit(Xor(r, o)) == Xor(Shift(r, Low(o)), Half(o))
  {
    SplitLow(o);
    LowAlone(o);
    HighMoves(o);
    XorZero(r);
    hide Low, Half, Bit, Xor;
    var l, h := o & 1, o & 0xfffffffe;
    XorAssoc(r, l, h);
    BitLinear(Xor(r, l), h);
  }

  lemma XorZero(r: bv32)
    ensures Xor(r, 0) == r
  {
  }

  lemma {:induction false} StepsAreSerial(r: bv32, o: bv32, n: nat)
    ensures Steps(Xor(r, o), n) == Xor(Serial(r, BitsOf(o, n)), HalfN(o, n))
    decreases n
  {
    hide Xor, Bit, Low, Half, Shift;
    if n > 0 {
      ShiftOne(r, o);
      StepsAreSerial(Shift(r, Low(o)), Half(o), n - 1);
      assert BitsOf(o, n)[1..] == BitsOf(Half(o), n - 1);
    }
  }

  lemma StepsEight(x: bv32)
    ensures Steps(x, 8) == Bits8(x)
  {
    hide Bit;
    StepsAdd(x, 4, 4);
    StepsFour(x);
    StepsFour(Bits4(x));
  }

  lemma StepsFour(x: bv32)
    ensures Steps(x, 4) == Bits4(x)
  {
    hide Bit;
    var a := Bit(x);
    var b := Bit(a);
    var c := Bit(b);
    assert Steps(x, 4) == Steps(a, 3) && Steps(a, 3) == Steps(b, 2) && Steps(b, 2) == Steps(c, 1) && Steps(c, 1) == Steps(Bit(c), 0);
  }

  lemma {:induction false} StepsAdd(x: bv32, a: nat, b: nat)
    ensures Steps(Steps(x, a), b) == Steps(x, a + b)
    decreases a
  {
    if a > 0 { StepsAdd(Bit(x), a - 1, b); }
  }

  lemma {:induction false} SerialJoin(r: bv32, s: seq<bool>, t: seq<bool>)
    ensures Serial(r, s + t) == Serial(Serial(r, s), t)
    decreases |s|
  {
    hide Shift;
    if s == [] {
      assert s + t == t;
    } else {
      assert (s + t)[1..] == s[1..] + t;
      SerialJoin(Shift(r, s[0]), s[1..], t);
    }
  }

  lemma OctetSerial(r: bv32, octet: bv8)
    ensures Updc32(octet, r) == Serial(r, OctetBits(octet))
  {
    UpdateIsEightBits(octet, r);
    var o := octet as bv32;
    Half8(o);
    OctetGone(octet);
    XorZero(Serial(r, BitsOf(o, 8)));
    hide Updc32, Serial, BitsOf, Xor, HalfN, Steps, Bits8, Down8;
    StepsEight(Xor(r, o));
    StepsAreSerial(r, o, 8);
  }

  lemma OctetGone(octet: bv8)
    ensures Down8(octet as bv32) == 0
  {
  }

  /** The table-driven register is the bit-serial one, over the message bits lowest first. */
  lemma {:induction false} RunIsSerial(r: bv32, m: seq<bv8>)
    ensures Run(r, m) == Serial(r, MessageBits(m))
  {
    hide Updc32, Serial, BitsOf;
    if m == [] {
      SerialEmpty(r);
    } else {
      var t, o := m[..|m| - 1], m[|m| - 1];
      RunIsSerial(r, t);
      OctetSerial(Run(r, t), o);
      SerialJoin(r, MessageBits(t), OctetBits(o));
    }
  }

  lemma SerialEmpty(r: bv32)
    ensures Serial(r, []) == r
  {
  }

  // ---------- long division ----------

  /** Subtracting `t`, aligned with the front of `s`. */
  function Minus(s: seq<bool>, t: seq<bool>): (d: seq<bool>)
    requires |t| <= |s|
    ensures |d| == |s|
  {
    seq(|s|, i requires 0 <= i < |s| => if i < |t| then s[i] != t[i] else s[i])
  }

  /**
   Long division of a bit string by the generator of degree 32, whose leading one is left out of
   `BitsOf(GENERATOR, 32)`: the remainder.
   */
  function Remainder(s: seq<bool>): (d: seq<bool>)
    requires |s| >= 32
    ensures |d| == 32
    decreases |s|
  {
    if |s| == 32 then s
    else Remainder(if s[0] then Minus(s[1..], BitsOf(GENERATOR, 32)) else s[1..])
  }

  function Zeros(): (s: seq<bool>)
    ensures |s| == 32
  {
    BitsOf(0, 32)
  }

  lemma {:induction false} BitsPlus(a: bv32, b: bv32, n: nat)
    ensures forall i :: 0 <= i < n ==> BitsOf(Xor(a, b), n)[i] == (BitsOf(a, n)[i] != BitsOf(b, n)[i])
    decreases n
  {
    hide Low, Half, Xor;
    if n > 0 {
      LowLinear(a, b);
      HalfLinear(a, b);
      BitsPlus(Half(a), Half(b), n - 1);
    }
  }

  lemma {:induction false} BitsLast(x: bv32, n: nat)
    ensures BitsOf(x, n + 1) == BitsOf(x, n) + [Low(HalfN(x, n))]
    decreases n
  {
    hide Low, Half;
    if n > 0 { BitsLast(Half(x), n - 1); }
  }

  lemma NoLow()
    ensures Low(0) == false
  {
  }

  /** A register moved down one place: its bits move up to the front and a zero comes in. */
  lemma BitsHalf(r: bv32)
    ensures BitsOf(Half(r), 32) == BitsOf(r, 32)[1..] + [false]
  {
    HalfAll(r);
    NoLow();
    hide Low, Half;
    BitsLast(Half(r), 31);
    assert HalfN(Half(r), 31) == HalfN(r, 32);
    assert BitsOf(r, 32)[1..] == BitsOf(Half(r), 31);
  }

  lemma MinusMinus(u: seq<bool>, a: bv32, b: bv32)
    requires |u| >= 32
    ensures Minus(Minus(u, BitsOf(a, 32)), BitsOf(b, 32)) == Minus(u, BitsOf(Xor(a, b), 32))
  {
    hide BitsOf, Xor;
    BitsPlus(a, b, 32);
  }

  lemma ShiftIs(r: bv32, b: bool)
    ensures Shift(r, b) == if b != Low(r) then Xor(Half(r), GENERATOR) else Half(r)
  {
    LowLinear(r, 1);
    HalfLinear(r, 1);
    XorZero(Half(r));
    assert Low(1) && Half(1) == 0;
    hide Low, Half, Xor;
  }

  /** The register after the message bits is the remainder, with the first register value added at the front. */
  lemma {:induction false} SerialIsRemainder(r: bv32, s: seq<bool>)
    ensures Remainder(Minus(s + Zeros(), BitsOf(r, 32))) == BitsOf(Serial(r, s), 32)
    decreases |s|
  {
    if s == [] {
      FrontOnly(r);
    } else {
      var t, h := s[1..] + Zeros(), Half(r);
      var d := Minus(s + Zeros(), BitsOf(r, 32));
      ShiftIs(r, s[0]);
      FirstBit(r);
      MovedDown(r, s);
      hide Low, Half, Xor, BitsOf, Shift, Minus, Zeros;
      MinusMinus(t, h, GENERATOR);
      SerialIsRemainder(Shift(r, s[0]), s[1..]);
    }
  }

  lemma FirstBit(r: bv32)
    ensures BitsOf(r, 32)[0] == Low(r)
  {
  }

  lemma FrontOnly(r: bv32)
    ensures Minus([] + Zeros(), BitsOf(r, 32)) == BitsOf(r, 32)
  {
    XorZero(r);
    BitsPlus(r, 0, 32);
    hide Low, Half, Xor, BitsOf;
  }

  lemma MovedDown(r: bv32, s: seq<bool>)
    requires |s| > 0
    ensures Minus(s + Zeros(), BitsOf(r, 32))[0] == (s[0] != BitsOf(r, 32)[0])
    ensures Minus(s + Zeros(), BitsOf(r, 32))[1..] == Minus(s[1..] + Zeros(), BitsOf(Half(r), 32))
  {
    hide Half, BitsOf, Zeros;
    BitsHalf(r);
  }

  /**
   The checksum is the complement of the remainder of the message bits followed by 32 zeros, with
   the first 32 bits inverted.
   */
  lemma CrcIsRemainder(m: seq<bv8>)
    ensures BitsOf(Complement(Crc(m)), 32) == Remainder(Minus(MessageBits(m) + Zeros(), BitsOf(0xffffffff, 32)))
  {
    ComplementTwice(Run(0xffffffff, m));
    hide Run, Complement, Serial, MessageBits, Minus, Remainder, BitsOf, Zeros;
    RunIsSerial(0xffffffff, m);
    SerialIsRemainder(0xffffffff, MessageBits(m));
  }

  // ---------- what the checksum detects ----------

  lemma {:induction false} SerialInjective(r: bv32, q: bv32, s: seq<bool>)
    requires Serial(r, s) == Serial(q, s)
    ensures r == q
    decreases |s|
  {
    if s != [] {
      hide Bit, Xor;
      SerialInjective(Shift(r, s[0]), Shift(q, s[0]), s[1..]);
      BitInjective(if s[0] then Xor(r, 1) else r, if s[0] then Xor(q, 1) else q);
      XorTwice(r, 1);
      XorTwice(q, 1);
    }
  }

  lemma {:induction false} StepsInjective(x: bv32, y: bv32, n: nat)
    requires Steps(x, n) == Steps(y, n)
    ensures x == y
    decreases n
  {
    if n > 0 {
      hide Bit;
      StepsInjective(Bit(x), Bit(y), n - 1);
      BitInjective(x, y);
    }
  }

  /** The word with the given bits, lowest first. */
  function WordOf(s: seq<bool>): bv32 {
    if s == [] then 0 else Double(WordOf(s[1..]), s[0])
  }

  function Double(x: bv32, b: bool): bv32 {
    (x << 1) | (if b then 1 else 0)
  }

  lemma DoubleHalf(x: bv32, b: bool)
    requires HalfN(x, 31) == 0
    ensures Half(Double(x, b)) == x && Low(Double(x, b)) == b
  {
    HalfTop(x);
    DoubleTop(x, b);
  }

  lemma DoubleTop(x: bv32, b: bool)
    requires x >> 31 == 0
    ensures Half(Double(x, b)) == x && Low(Double(x, b)) == b
  {
  }

  lemma HalfTop(x: bv32)
    ensures HalfN(x, 31) == x >> 31
  {
    TopOf(x);
    hide HalfN, Down4, Down8, Half;
    var y := Down8(Down8(Down8(x)));
    Half24(x);
    Half4(y);
    HalfNAdd(x, 24, 4);
    HalfNAdd(x, 28, 3);
    Half3(Down4(y));
  }

  lemma TopOf(x: bv32)
    ensures Half(Half(Half(Down4(Down8(Down8(Down8(x))))))) == x >> 31
  {
  }

  lemma Half3(x: bv32)
    ensures HalfN(x, 3) == Half(Half(Half(x)))
  {
    hide Half;
    var a := Half(x);
    var b := Half(a);
    assert HalfN(x, 3) == HalfN(a, 2) && HalfN(a, 2) == HalfN(b, 1) && HalfN(b, 1) == HalfN(Half(b), 0);
  }

  lemma {:induction false} WordBits(s: seq<bool>)
    requires |s| <= 32
    ensures BitsOf(WordOf(s), |s|) == s && HalfN(WordOf(s), |s|) == 0
  {
    if s != [] {
      var w := WordOf(s[1..]);
      WordBits(s[1..]);
      HalfNAdd(w, |s| - 1, 32 - |s|);
      HalfZero(32 - |s|);
      hide Half, Low, Double;
      DoubleHalf(w, s[0]);
    }
  }

  lemma HalfZero(n: nat)
    ensures HalfN(0, n) == 0
  {
    if n > 0 { HalfZero(n - 1); }
  }

  /** Two strings of up to 32 bits that take the register to the same value are the same. */
  lemma BurstTells(r: bv32, s: seq<bool>, t: seq<bool>)
    requires |s| == |t| <= 32 && Serial(r, s) == Serial(r, t)
    ensures s == t
  {
    var v, w := WordOf(s), WordOf(t);
    WordBits(s);
    WordBits(t);
    StepsAreSerial(r, v, |s|);
    StepsAreSerial(r, w, |s|);
    hide Xor, WordOf, BitsOf, HalfN, Serial, Steps;
    StepsInjective(Xor(r, v), Xor(r, w), |s|);
    XorSwap(r, v);
    XorSwap(r, w);
    XorTwice(v, r);
    XorTwice(w, r);
  }

  /** Every change within 32 successive bits of a message changes the checksum. */
  lemma BurstDetected(m: seq<bv8>, m': seq<bv8>, i: nat, j: nat)
    requires |m| == |m'| && i <= j <= i + 32 && j <= 8 * |m|
    requires MessageBits(m)[..i] == MessageBits(m')[..i] && MessageBits(m)[j..] == MessageBits(m')[j..]
    ensures Crc(m) == Crc(m') <==> MessageBits(m) == MessageBits(m')
  {
    hide MessageBits, Serial, Run, Crc;
    SameRegister(m, m');
    var s, s' := MessageBits(m), MessageBits(m');
    RunIsSerial(0xffffffff, m);
    RunIsSerial(0xffffffff, m');
    if Crc(m) == Crc(m') {
      var r := Serial(0xffffffff, s[..i]);
      CutInThree(s, i, j);
      CutInThree(s', i, j);
      SerialInjective(Serial(r, s[i..j]), Serial(r, s'[i..j]), s[j..]);
      BurstTells(r, s[i..j], s'[i..j]);
    }
  }

  lemma CutInThree(s: seq<bool>, i: nat, j: nat)
    requires i <= j <= |s|
    ensures s == s[..i] + s[i..j] + s[j..]
    ensures Serial(0xffffffff, s) == Serial(Serial(Serial(0xffffffff, s[..i]), s[i..j]), s[j..])
  {
    hide Serial;
    var a, b, c := s[..i], s[i..j], s[j..];
    InThree(s, i, j);
    SerialJoin(0xffffffff, a + b, c);
    SerialJoin(0xffffffff, a, b);
  }

  lemma InThree(s: seq<bool>, i: nat, j: nat)
    requires i <= j <= |s|
    ensures s == s[..i] + s[i..j] + s[j..]
  {
  }

  lemma SameRegister(m: seq<bv8>, m': seq<bv8>)
    ensures Crc(m) == Crc(m') <==> Run(0xffffffff, m) == Run(0xffffffff, m')
  {
    hide Run, Complement;
    ComplementTwice(Run(0xffffffff, m));
    ComplementTwice(Run(0xffffffff, m'));
  }

  lemma ComplementTwice(x: bv32)
    ensures Complement(Complement(x)) == x
  {
  }

  /** A message's bits determine it. */
  lemma {:induction false} SameBits(m: seq<bv8>, m': seq<bv8>)
    requires MessageBits(m) == MessageBits(m')
    ensures m == m'
  {
    if m != [] {
      var n := |m| - 1;
      hide BitsOf;
      LastOctet(m);
      LastOctet(m');
      SameBits(m[..n], m'[..n]);
      SameOctet(m[n], m'[n]);
    }
  }

  lemma LastOctet(m: seq<bv8>)
    requires m != []
    ensures var n := |m| - 1;
      && m == m[..n] + [m[n]] && MessageBits(m[..n]) == MessageBits(m)[..8 * n]
      && OctetBits(m[n]) == MessageBits(m)[8 * n..]
  {
    hide OctetBits, MessageBits;
    LastOf(m);
    LastBits(m);
    Joined(MessageBits(m[..|m| - 1]), OctetBits(m[|m| - 1]));
  }

  lemma LastBits(m: seq<bv8>)
    requires m != []
    ensures MessageBits(m) == MessageBits(m[..|m| - 1]) + OctetBits(m[|m| - 1])
  {
    hide OctetBits;
  }

  lemma LastOf<T>(s: seq<T>)
    requires s != []
    ensures s == s[..|s| - 1] + [s[|s| - 1]]
  {
  }

  lemma Joined<T>(a: seq<T>, b: seq<T>)
    ensures (a + b)[..|a|] == a && (a + b)[|a|..] == b
  {
  }

  lemma SameOctet(a: bv8, b: bv8)
    requires OctetBits(a) == OctetBits(b)
    ensures a == b
  {
    EightBits(a);
    EightBits(b);
  }

  lemma EightBits(a: bv8)
    ensures WordOf(OctetBits(a)) == a as bv32
  {
    Half8(a as bv32);
    OctetGone(a);
    WordOfBitsOf(a as bv32, 8);
  }

  lemma {:induction false} WordOfBitsOf(x: bv32, n: nat)
    requires HalfN(x, n) == 0
    ensures WordOf(BitsOf(x, n)) == x
    decreases n
  {
    if n > 0 {
      HalfDouble(x);
      hide Half, Low, Double;
      WordOfBitsOf(Half(x), n - 1);
      assert BitsOf(x, n)[1..] == BitsOf(Half(x), n - 1);
    }
  }

  lemma HalfDouble(x: bv32)
    ensures Double(Half(x), Low(x)) == x
  {
  }

  // ---------- the frame check ----------

  /** What is left in the register after any frame that ends in its own checksum. */
  const RESIDUE: bv32 := 0xdebb20e3

  lemma ResidueIs()
    ensures Steps(0xffffffff, 32) == RESIDUE
  {
    StepsAdd(0xffffffff, 8, 24);
    StepsAdd(Bits8(0xffffffff), 8, 16);
    StepsAdd(Bits8(Bits8(0xffffffff)), 8, 8);
    StepsEight(0xffffffff);
    StepsEight(Bits8(0xffffffff));
    StepsEight(Bits8(Bits8(0xffffffff)));
    StepsEight(Bits8(Bits8(Bits8(0xffffffff))));
    hide Steps;
    FourBits();
    hide Bits4;
  }

  lemma FourBits()
    ensures Bits4(0xffffffff) == 0xb2420de3 && Bits4(0xb2420de3) == 0x2dfd1072
    ensures Bits4(0x2dfd1072) == 0x39b1f1cf && Bits4(0x39b1f1cf) == 0xbe26ed00
    ensures Bits4(0xbe26ed00) == 0xbe26ed0 && Bits4(0xbe26ed0) == 0xbe26ed
    ensures Bits4(0xbe26ed) == 0x86d830ba && Bits4(0x86d830ba) == 0xdebb20e3
  {
  }

  lemma XorComplement(r: bv32)
    ensures Xor(r, Complement(r)) == 0xffffffff
  {
  }

  /** A receiver that runs the register over a message and 32 check bits sees the residue exactly when the check bits are the checksum. */
  lemma FrameAccepted(m: seq<bv8>, check: bv32)
    ensures Serial(0xffffffff, MessageBits(m) + BitsOf(check, 32)) == RESIDUE <==> check == Crc(m)
  {
    var r, s := Run(0xffffffff, m), MessageBits(m);
    var c := Complement(r);
    XorZero(Serial(r, BitsOf(c, 32)));
    XorComplement(r);
    assert Crc(m) == c;
    hide Xor, BitsOf, HalfN, Serial, Steps, Run, Complement, MessageBits, RESIDUE, Crc;
    RunIsSerial(0xffffffff, m);
    SerialJoin(0xffffffff, s, BitsOf(check, 32));
    StepsAreSerial(r, c, 32);
    HalfAll(c);
    ResidueIs();
    assert Serial(r, BitsOf(c, 32)) == RESIDUE;
    if Serial(r, BitsOf(check, 32)) == RESIDUE {
      BurstTells(r, BitsOf(check, 32), BitsOf(c, 32));
      HalfAll(check);
      WordOfBitsOf(check, 32);
      WordOfBitsOf(c, 32);
    }
  }

  // ---------- the check value ----------

  const DIGITS: seq<bv8> := [0x31, 0x32, 0x33, 0x34, 0x35, 0x36, 0x37, 0x38, 0x39]

  /** The register after the first `i` of the digits 1 to 9. */
  function RegisterAt(i: nat): bv32 {
    match i
    case 0 => 0xffffffff
    case 1 => 0x7c231048
    case 2 => 0xb0acbb32
    case 3 => 0x77b79c2d
    case 4 => 0x641c1f5c
    case 5 => 0x340ac5e3
    case 6 => 0xf68d2c9e
    case 7 => 0xaffc9660
    case 8 => 0x651f2550
    case _ => 0x340bc6d9
  }

  lemma RegisterStep(i: nat)
    requires i < 9
    ensures Updc32(DIGITS[i], RegisterAt(i)) == RegisterAt(i + 1)
  {
    match i
    case 0 =>
    case 1 =>
    case 2 =>
    case 3 =>
    case 4 =>
    case 5 =>
    case 6 =>
    case 7 =>
    case _ =>
  }

  lemma {:induction false} RunOfDigits(i: nat)
    requires i <= 9
    ensures Run(0xffffffff, DIGITS[..i]) == RegisterAt(i)
  {
    hide Updc32;
    if i > 0 {
      RunOfDigits(i - 1);
      RegisterStep(i - 1);
      assert DIGITS[..i] == DIGITS[..i - 1] + [DIGITS[i - 1]];
      RunMore(0xffffffff, DIGITS[..i - 1], DIGITS[i - 1]);
    } else {
      RunEmpty(0xffffffff);
    }
  }

  /** The check value that is usually given for this checksum, that of the digits 1 to 9. */
  lemma CheckValue()
    ensures Crc(DIGITS) == 0xcbf43926
  {
    LastRegister();
    hide DIGITS, RegisterAt, Complement, Run;
    RunOfDigits(9);
    assert DIGITS[..9] == DIGITS;
  }

  lemma LastRegister()
    ensures |DIGITS| == 9 && Complement(RegisterAt(9)) == 0xcbf43926
  {
  }

  // ---------- the two entry points ----------

  /** `crc32buf`. */
  method Crc32Buf(buf: seq<bv8>) returns (crc: bv32)
    ensures crc == Crc(buf)
  {
    hide Updc32, Complement;
    var oldcrc32: bv32 := 0xffffffff;
    var i := 0;
    while i < |buf|
      invariant 0 <= i <= |buf| && oldcrc32 == Run(0xffffffff, buf[..i])
    {
      oldcrc32 := Updc32(buf[i], oldcrc32);
      assert buf[..i + 1][..i] == buf[..i];
      i := i + 1;
    }
    assert buf[..i] == buf;
    return Complement(oldcrc32);
  }

  /** Eight octets in a register, the first on top. */
  function Packed(b: seq<bv8>): bv64
    requires |b| == 8
  {
    Eight(b[0], b[1], b[2], b[3], b[4], b[5], b[6], b[7])
  }

  function Eight(a: bv8, b: bv8, c: bv8, d: bv8, e: bv8, f: bv8, g: bv8, h: bv8): bv64 {
    (a as bv64 << 56) | (b as bv64 << 48) | (c as bv64 << 40) | (d as bv64 << 32)
    | (e as bv64 << 24) | (f as bv64 << 16) | (g as bv64 << 8) | h as bv64
  }

  function TopOctet(x: bv64): bv8 {
    ((x & 0xff00000000000000) >> 56) as bv8
  }

  function Rest(x: bv64): bv64 {
    x << 8
  }

  lemma TopOf8(b: seq<bv8>)
    requires |b| == 8
    ensures TopOctet(Packed(b)) == b[0]
    ensures Rest(Packed(b)) == Packed(b[1..] + [0])
  {
    hide Eight, TopOctet, Rest;
    TopOfEight(b[0], b[1], b[2], b[3], b[4], b[5], b[6], b[7]);
    RestOfEight(b[0], b[1], b[2], b[3], b[4], b[5], b[6], b[7]);
  }

  lemma TopOfEight(a: bv8, b: bv8, c: bv8, d: bv8, e: bv8, f: bv8, g: bv8, h: bv8)
    ensures TopOctet(Eight(a, b, c, d, e, f, g, h)) == a
  {
  }

  lemma RestOfEight(a: bv8, b: bv8, c: bv8, d: bv8, e: bv8, f: bv8, g: bv8, h: bv8)
    ensures Rest(Eight(a, b, c, d, e, f, g, h)) == Eight(b, c, d, e, f, g, h, 0)
  {
  }

  /** The top octets of the register are the `left` octets of memory from `ptr` on. */
  ghost predicate Ahead(x: bv64, memory: seq<bv8>, ptr: nat, left: nat) {
    left <= 8 && ptr + left <= |memory| && exists b: seq<bv8> :: IsWindow(x, b) && b[..left] == memory[ptr..ptr + left]
  }

  ghost predicate IsWindow(x: bv64, b: seq<bv8>) {
    |b| == 8 && x == Packed(b)
  }

  lemma Loaded(memory: seq<bv8>, ptr: nat)
    requires ptr + 8 <= |memory|
    ensures Ahead(Packed(memory[ptr..ptr + 8]), memory, ptr, 8)
  {
    hide Packed;
    assert IsWindow(Packed(memory[ptr..ptr + 8]), memory[ptr..ptr + 8]);
  }

  lemma TakeOne(x: bv64, memory: seq<bv8>, ptr: nat, left: nat)
    requires Ahead(x, memory, ptr, left) && left > 0
    ensures TopOctet(x) == memory[ptr] && Ahead(Rest(x), memory, ptr + 1, left - 1)
  {
    hide Packed, TopOctet, Rest;
    var b :| IsWindow(x, b) && b[..left] == memory[ptr..ptr + left];
    TopOf8(b);
    assert b[0] == b[..left][0] && memory[ptr] == memory[ptr..ptr + left][0];
    assert (b[1..] + [0])[..left - 1] == b[..left][1..];
    assert memory[ptr + 1..ptr + left] == memory[ptr..ptr + left][1..];
    assert IsWindow(Rest(x), b[1..] + [0]);
  }

  /**
   `crc32file`, on the bytes of memory from the base of the capability: it reads a register of eight bytes
   at a time, also when the message ends at the end of one, and so needs the bytes of the next.
   */
  method Crc32File(memory: seq<bv8>, from: nat, pcmSize: nat, count: nat) returns (crc: bv32, charcnt: nat)
    requires count <= pcmSize && from + (pcmSize - count) / 8 * 8 + 8 <= |memory|
    ensures crc == Crc(memory[from..from + (pcmSize - count)]) && charcnt == pcmSize
  {
    hide Updc32, Packed, Run, Complement, Ahead, TopOctet, Rest;
    var oldcrc32: bv32 := 0xffffffff;
    charcnt := count;
    var ptr := from;
    var counter := 8;
    var readBuffer: bv64 := 0;
    ghost var words := 0;
    RunEmpty(0xffffffff);
    assert memory[from..from] == [];
    while true
      invariant charcnt <= pcmSize && ptr == from + (charcnt - count)
      invariant 0 <= counter <= 8 && charcnt - count == 8 * words - 8 + counter && 0 <= words
      invariant counter < 8 ==> Ahead(readBuffer, memory, ptr, 8 - counter)
      invariant from <= ptr <= |memory| && oldcrc32 == Run(0xffffffff, memory[from..ptr])
      decreases pcmSize - charcnt
    {
      if counter == 8 {
        readBuffer := Packed(memory[ptr..ptr + 8]);
        Loaded(memory, ptr);
        counter := 0;
        words := words + 1;
      }
      TakeOne(readBuffer, memory, ptr, 8 - counter);
      var c := TopOctet(readBuffer);
      readBuffer := Rest(readBuffer);
      if charcnt == pcmSize {
        break;
      }
      RunMore(0xffffffff, memory[from..ptr], c);
      assert memory[from..ptr + 1] == memory[from..ptr] + [c];
      charcnt := charcnt + 1;
      ptr := ptr + 1;
      oldcrc32 := Updc32(c, oldcrc32);
      counter := counter + 1;
    }
    crc := Complement(oldcrc32);
  }

  lemma RunEmpty(r: bv32)
    ensures Run(r, []) == r
  {
  }

  lemma RunMore(r: bv32, m: seq<bv8>, c: bv8)
    ensures Run(r, m + [c]) == Updc32(c, Run(r, m))
  {
    hide Updc32;
    assert (m + [c])[..|m|] == m;
  }
}
