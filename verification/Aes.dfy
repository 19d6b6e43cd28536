/**
 The block cipher of `AES/src/aes.c` for 16-byte blocks: rounds by table look-up, both key
 schedules, encryption and decryption.  The table rounds are proved to be the rounds of
 FIPS 197 (substitution, row shift, column mix, key), the schedule the one of its section 5.2,
 and decryption by the equivalent inverse cipher of its section 5.3.5 to invert encryption.
 */
module Aes {
  import opened AesTables

  // ---------- four tables at once ----------

  /** `four_tables` with `ft_tab`. */
  function FtSum(b0: bv8, b1: bv8, b2: bv8, b3: bv8): bv32 {
    Xor4(FTable(b0), Upr1(FTable(b1)), Upr2(FTable(b2)), Upr3(FTable(b3)))
  }

  /** `four_tables` with `it_tab`. */
  function ItSum(b0: bv8, b1: bv8, b2: bv8, b3: bv8): bv32 {
    Xor4(ITable(b0), Upr1(ITable(b1)), Upr2(ITable(b2)), Upr3(ITable(b3)))
  }

  /** `inv_mcol`, that is `four_tables` with `im_tab` on the bytes of one word. */
  function ImSum(w: bv32): bv32 {
    Xor4(MTable(Bval0(w)), Upr1(MTable(Bval1(w))), Upr2(MTable(Bval2(w))), Upr3(MTable(Bval3(w))))
  }

  /** `four_tables` with `fl_tab`. */
  function FlSum(b0: bv8, b1: bv8, b2: bv8, b3: bv8): bv32 {
    Xor4(SBox(b0) as bv32, Upr1(SBox(b1) as bv32), Upr2(SBox(b2) as bv32), Upr3(SBox(b3) as bv32))
  }

  /** `four_tables` with `il_tab`. */
  function IlSum(b0: bv8, b1: bv8, b2: bv8, b3: bv8): bv32 {
    Xor4(InvSBox(b0) as bv32, Upr1(InvSBox(b1) as bv32), Upr2(InvSBox(b2) as bv32), Upr3(InvSBox(b3) as bv32))
  }

  lemma WordIsSum(b0: bv8, b1: bv8, b2: bv8, b3: bv8)
    ensures Bytes2Word(b0, b1, b2, b3) == Xor4(b0 as bv32, Upr1(b1 as bv32), Upr2(b2 as bv32), Upr3(b3 as bv32))
  {
  }

  lemma FlSumSubstitutes(b0: bv8, b1: bv8, b2: bv8, b3: bv8)
    ensures FlSum(b0, b1, b2, b3) == Bytes2Word(SBox(b0), SBox(b1), SBox(b2), SBox(b3))
    ensures IlSum(b0, b1, b2, b3) == Bytes2Word(InvSBox(b0), InvSBox(b1), InvSBox(b2), InvSBox(b3))
  {
    hide SBox, InvSBox, Bytes2Word, Xor4, Upr1, Upr2, Upr3;
    WordIsSum(SBox(b0), SBox(b1), SBox(b2), SBox(b3));
    WordIsSum(InvSBox(b0), InvSBox(b1), InvSBox(b2), InvSBox(b3));
  }

  lemma MixRotated(a: bv32)
    ensures FwdMcol(Upr1(a)) == Upr1(FwdMcol(a)) && FwdMcol(Upr2(a)) == Upr2(FwdMcol(a)) && FwdMcol(Upr3(a)) == Upr3(FwdMcol(a))
    ensures InvMcol(Upr1(a)) == Upr1(InvMcol(a)) && InvMcol(Upr2(a)) == Upr2(InvMcol(a)) && InvMcol(Upr3(a)) == Upr3(InvMcol(a))
  {
    hide FwdMcol, InvMcol, Upr1, Upr2, Upr3;
    Upr1Upr(a);
    Upr1Upr(FwdMcol(a));
    Upr1Upr(InvMcol(a));
    FwdMcolRotates1(a);
    FwdMcolRotates1(Upr1(a));
    FwdMcolRotates1(Upr2(a));
    InvMcolRotates1(a);
    InvMcolRotates1(Upr1(a));
    InvMcolRotates1(Upr2(a));
  }

  /** A table round column is the mixed column of the substituted bytes. */
  lemma FtSumMixes(b0: bv8, b1: bv8, b2: bv8, b3: bv8)
    ensures FtSum(b0, b1, b2, b3) == FwdMcol(Bytes2Word(SBox(b0), SBox(b1), SBox(b2), SBox(b3)))
  {
    var w0, w1, w2, w3 := SBox(b0) as bv32, SBox(b1) as bv32, SBox(b2) as bv32, SBox(b3) as bv32;
    FTableHolds(b0);
    FTableHolds(b1);
    FTableHolds(b2);
    FTableHolds(b3);
    hide FTable, SBox, Bytes2Word, Xor4, FwdMcol, Upr1, Upr2, Upr3;
    WordIsSum(SBox(b0), SBox(b1), SBox(b2), SBox(b3));
    FwdMcolLinear4(w0, Upr1(w1), Upr2(w2), Upr3(w3));
    MixRotated(w1);
    MixRotated(w2);
    MixRotated(w3);
  }

  lemma ItSumMixes(b0: bv8, b1: bv8, b2: bv8, b3: bv8)
    ensures ItSum(b0, b1, b2, b3) == InvMcol(Bytes2Word(InvSBox(b0), InvSBox(b1), InvSBox(b2), InvSBox(b3)))
  {
    var w0, w1, w2, w3 := InvSBox(b0) as bv32, InvSBox(b1) as bv32, InvSBox(b2) as bv32, InvSBox(b3) as bv32;
    ITableHolds(b0);
    ITableHolds(b1);
    ITableHolds(b2);
    ITableHolds(b3);
    hide ITable, InvSBox, Bytes2Word, Xor4, InvMcol, Upr1, Upr2, Upr3;
    WordIsSum(InvSBox(b0), InvSBox(b1), InvSBox(b2), InvSBox(b3));
    InvMcolLinear4(w0, Upr1(w1), Upr2(w2), Upr3(w3));
    MixRotated(w1);
    MixRotated(w2);
    MixRotated(w3);
  }

  /** `inv_mcol` by tables is `inv_mcol` by arithmetic. */
  lemma ImSumMixes(w: bv32)
    ensures ImSum(w) == InvMcol(w)
  {
    var b0, b1, b2, b3 := Bval0(w), Bval1(w), Bval2(w), Bval3(w);
    WordOfBytes(w);
    MTableHolds(b0);
    MTableHolds(b1);
    MTableHolds(b2);
    MTableHolds(b3);
    hide MTable, Bytes2Word, Xor4, InvMcol, Upr1, Upr2, Upr3, Bval0, Bval1, Bval2, Bval3;
    WordIsSum(b0, b1, b2, b3);
    InvMcolLinear4(b0 as bv32, Upr1(b1 as bv32), Upr2(b2 as bv32), Upr3(b3 as bv32));
    MixRotated(b1 as bv32);
    MixRotated(b2 as bv32);
    MixRotated(b3 as bv32);
  }

  // ---------- rounds ----------

  /** The four columns of the state (or of a round key). */
  datatype State = State(c0: bv32, c1: bv32, c2: bv32, c3: bv32)

  /** `round(fwd_rnd, ...)`. */
  function FwdRnd(x: State, k: State): State {
    State(
      Xor(FtSum(Bval0(x.c0), Bval1(x.c1), Bval2(x.c2), Bval3(x.c3)), k.c0),
      Xor(FtSum(Bval0(x.c1), Bval1(x.c2), Bval2(x.c3), Bval3(x.c0)), k.c1),
      Xor(FtSum(Bval0(x.c2), Bval1(x.c3), Bval2(x.c0), Bval3(x.c1)), k.c2),
      Xor(FtSum(Bval0(x.c3), Bval1(x.c0), Bval2(x.c1), Bval3(x.c2)), k.c3))
  }

  /** `round(fwd_lrnd, ...)`. */
  function FwdLrnd(x: State, k: State): State {
    State(
      Xor(FlSum(Bval0(x.c0), Bval1(x.c1), Bval2(x.c2), Bval3(x.c3)), k.c0),
      Xor(FlSum(Bval0(x.c1), Bval1(x.c2), Bval2(x.c3), Bval3(x.c0)), k.c1),
      Xor(FlSum(Bval0(x.c2), Bval1(x.c3), Bval2(x.c0), Bval3(x.c1)), k.c2),
      Xor(FlSum(Bval0(x.c3), Bval1(x.c0), Bval2(x.c1), Bval3(x.c2)), k.c3))
  }

  /** `round(inv_rnd, ...)`. */
  function InvRnd(x: State, k: State): State {
    State(
      Xor(ItSum(Bval0(x.c0), Bval1(x.c3), Bval2(x.c2), Bval3(x.c1)), k.c0),
      Xor(ItSum(Bval0(x.c1), Bval1(x.c0), Bval2(x.c3), Bval3(x.c2)), k.c1),
      Xor(ItSum(Bval0(x.c2), Bval1(x.c1), Bval2(x.c0), Bval3(x.c3)), k.c2),
      Xor(ItSum(Bval0(x.c3), Bval1(x.c2), Bval2(x.c1), Bval3(x.c0)), k.c3))
  }

  /** `round(inv_lrnd, ...)`. */
  function InvLrnd(x: State, k: State): State {
    State(
      Xor(IlSum(Bval0(x.c0), Bval1(x.c3), Bval2(x.c2), Bval3(x.c1)), k.c0),
      Xor(IlSum(Bval0(x.c1), Bval1(x.c0), Bval2(x.c3), Bval3(x.c2)), k.c1),
      Xor(IlSum(Bval0(x.c2), Bval1(x.c1), Bval2(x.c0), Bval3(x.c3)), k.c2),
      Xor(IlSum(Bval0(x.c3), Bval1(x.c2), Bval2(x.c1), Bval3(x.c0)), k.c3))
  }

  // ---------- the steps of FIPS 197, section 5.1 and 5.3 ----------

  /** One column, its bytes taken from four columns and substituted. */
  function Sub(w0: bv32, w1: bv32, w2: bv32, w3: bv32): bv32 {
    Bytes2Word(SBox(Bval0(w0)), SBox(Bval1(w1)), SBox(Bval2(w2)), SBox(Bval3(w3)))
  }

  function InvSub(w0: bv32, w1: bv32, w2: bv32, w3: bv32): bv32 {
    Bytes2Word(InvSBox(Bval0(w0)), InvSBox(Bval1(w1)), InvSBox(Bval2(w2)), InvSBox(Bval3(w3)))
  }

  /** SubBytes, then ShiftRows. */
  function SubShift(x: State): State {
    State(Sub(x.c0, x.c1, x.c2, x.c3), Sub(x.c1, x.c2, x.c3, x.c0), Sub(x.c2, x.c3, x.c0, x.c1), Sub(x.c3, x.c0, x.c1, x.c2))
  }

  /** InvShiftRows, then InvSubBytes. */
  function InvSubShift(x: State): State {
    State(InvSub(x.c0, x.c3, x.c2, x.c1), InvSub(x.c1, x.c0, x.c3, x.c2),
      InvSub(x.c2, x.c1, x.c0, x.c3), InvSub(x.c3, x.c2, x.c1, x.c0))
  }

  /** The `i`-th of four, counted around. */
  function Nth<T>(a: T, b: T, c: T, d: T, i: nat): T {
    match i % 4
    case 0 => a
    case 1 => b
    case 2 => c
    case _ => d
  }

  function Column(x: State, c: nat): bv32 {
    match c % 4
    case 0 => x.c0
    case 1 => x.c1
    case 2 => x.c2
    case _ => x.c3
  }

  lemma ColumnIsNth(x: State, c: nat)
    ensures Column(x, c) == Nth(x.c0, x.c1, x.c2, x.c3, c)
  {
  }

  /** The byte in row `r` of a column. */
  function Row(w: bv32, r: nat): bv8 {
    match r
    case 0 => Bval0(w)
    case 1 => Bval1(w)
    case 2 => Bval2(w)
    case _ => Bval3(w)
  }

  lemma BytesOfSub(w0: bv32, w1: bv32, w2: bv32, w3: bv32)
    ensures var w := Sub(w0, w1, w2, w3);
      && Bval0(w) == SBox(Bval0(w0)) && Bval1(w) == SBox(Bval1(w1))
      && Bval2(w) == SBox(Bval2(w2)) && Bval3(w) == SBox(Bval3(w3))
    ensures var w := InvSub(w0, w1, w2, w3);
      && Bval0(w) == InvSBox(Bval0(w0)) && Bval1(w) == InvSBox(Bval1(w1))
      && Bval2(w) == InvSBox(Bval2(w2)) && Bval3(w) == InvSBox(Bval3(w3))
  {
    BytesOfWord(SBox(Bval0(w0)), SBox(Bval1(w1)), SBox(Bval2(w2)), SBox(Bval3(w3)));
    BytesOfWord(InvSBox(Bval0(w0)), InvSBox(Bval1(w1)), InvSBox(Bval2(w2)), InvSBox(Bval3(w3)));
    hide SBox, InvSBox, Bytes2Word, Bval0, Bval1, Bval2, Bval3;
  }

  lemma RowOfSub(w0: bv32, w1: bv32, w2: bv32, w3: bv32, r: nat)
    requires r < 4
    ensures Row(Sub(w0, w1, w2, w3), r) == SBox(Row(Column(State(w0, w1, w2, w3), r), r))
    ensures Row(InvSub(w0, w1, w2, w3), r) == InvSBox(Row(Column(State(w0, w1, w2, w3), r), r))
  {
    BytesOfSub(w0, w1, w2, w3);
    hide SBox, InvSBox, Sub, InvSub, Bval0, Bval1, Bval2, Bval3;
  }

  lemma ColumnOfSubShift(x: State, c: nat)
    requires c < 4
    ensures Column(SubShift(x), c) == Sub(Column(x, c), Column(x, c + 1), Column(x, c + 2), Column(x, c + 3))
  {
    SubShiftColumns(x);
    ColumnsFrom(x, c);
    hide Sub, SubShift, Column;
  }

  lemma SubShiftColumns(x: State)
    ensures var y := SubShift(x);
      && Column(y, 0) == Sub(x.c0, x.c1, x.c2, x.c3) && Column(y, 1) == Sub(x.c1, x.c2, x.c3, x.c0)
      && Column(y, 2) == Sub(x.c2, x.c3, x.c0, x.c1) && Column(y, 3) == Sub(x.c3, x.c0, x.c1, x.c2)
  {
    hide Sub;
  }

  /** The four columns from `c` on, going round. */
  lemma ColumnsFrom(x: State, c: nat)
    requires c < 4
    ensures c == 0 ==> Column(x, c) == x.c0 && Column(x, c + 1) == x.c1 && Column(x, c + 2) == x.c2 && Column(x, c + 3) == x.c3
    ensures c == 1 ==> Column(x, c) == x.c1 && Column(x, c + 1) == x.c2 && Column(x, c + 2) == x.c3 && Column(x, c + 3) == x.c0
    ensures c == 2 ==> Column(x, c) == x.c2 && Column(x, c + 1) == x.c3 && Column(x, c + 2) == x.c0 && Column(x, c + 3) == x.c1
    ensures c == 3 ==> Column(x, c) == x.c3 && Column(x, c + 1) == x.c0 && Column(x, c + 2) == x.c1 && Column(x, c + 3) == x.c2
  {
  }

  lemma ColumnOfInvSubShift(x: State, c: nat)
    requires c < 4
    ensures Column(InvSubShift(x), c) == InvSub(Column(x, c), Column(x, c + 3), Column(x, c + 2), Column(x, c + 1))
  {
    InvSubShiftColumns(x);
    ColumnsFrom(x, c);
    hide InvSub, InvSubShift, Column;
  }

  lemma InvSubShiftColumns(x: State)
    ensures var y := InvSubShift(x);
      && Column(y, 0) == InvSub(x.c0, x.c3, x.c2, x.c1) && Column(y, 1) == InvSub(x.c1, x.c0, x.c3, x.c2)
      && Column(y, 2) == InvSub(x.c2, x.c1, x.c0, x.c3) && Column(y, 3) == InvSub(x.c3, x.c2, x.c1, x.c0)
  {
    hide InvSub;
  }

  lemma NthTurned<T>(a: T, b: T, c: T, d: T, i: nat, r: nat)
    requires r < 4 && i < 4
    ensures Nth(Nth(a, b, c, d, i), Nth(a, b, c, d, i + 1), Nth(a, b, c, d, i + 2), Nth(a, b, c, d, i + 3), r)
         == Nth(a, b, c, d, i + r)
    ensures Nth(Nth(a, b, c, d, i), Nth(a, b, c, d, i + 3), Nth(a, b, c, d, i + 2), Nth(a, b, c, d, i + 1), r)
         == Nth(a, b, c, d, i + 4 - r)
  {
    assert (i + 4) % 4 == i % 4;
    match r
    case 0 =>
    case 1 =>
    case 2 =>
    case _ =>
  }

  lemma ColumnTurned(x: State, c: nat, r: nat)
    requires r < 4 && c < 4
    ensures Column(State(Column(x, c), Column(x, c + 1), Column(x, c + 2), Column(x, c + 3)), r) == Column(x, c + r)
    ensures Column(State(Column(x, c), Column(x, c + 3), Column(x, c + 2), Column(x, c + 1)), r) == Column(x, c + 4 - r)
  {
    hide Nth, Column;
    ColumnIsNth(x, c);
    ColumnIsNth(x, c + 1);
    ColumnIsNth(x, c + 2);
    ColumnIsNth(x, c + 3);
    ColumnIsNth(x, c + r);
    ColumnIsNth(x, c + 4 - r);
    ColumnIsNth(State(Column(x, c), Column(x, c + 1), Column(x, c + 2), Column(x, c + 3)), r);
    ColumnIsNth(State(Column(x, c), Column(x, c + 3), Column(x, c + 2), Column(x, c + 1)), r);
    NthTurned(x.c0, x.c1, x.c2, x.c3, c, r);
  }

  /** Every byte is substituted; row `r` moves left by `r`, and in the inverse right by `r`. */
  lemma ShiftsRows(x: State, r: nat, c: nat)
    requires r < 4 && c < 4
    ensures Row(Column(SubShift(x), c), r) == SBox(Row(Column(x, c + r), r))
    ensures Row(Column(InvSubShift(x), c), r) == InvSBox(Row(Column(x, c + 4 - r), r))
  {
    hide SBox, InvSBox, Sub, InvSub, Row, Column, SubShift, InvSubShift;
    ColumnOfSubShift(x, c);
    ColumnOfInvSubShift(x, c);
    RowOfSub(Column(x, c), Column(x, c + 1), Column(x, c + 2), Column(x, c + 3), r);
    RowOfSub(Column(x, c), Column(x, c + 3), Column(x, c + 2), Column(x, c + 1), r);
    ColumnTurned(x, c, r);
  }

  /** MixColumns. */
  function Mix(x: State): State {
    State(FwdMcol(x.c0), FwdMcol(x.c1), FwdMcol(x.c2), FwdMcol(x.c3))
  }

  /** InvMixColumns. */
  function InvMix(x: State): State {
    State(InvMcol(x.c0), InvMcol(x.c1), InvMcol(x.c2), InvMcol(x.c3))
  }

  /** AddRoundKey. */
  function AddKey(x: State, k: State): State {
    State(Xor(x.c0, k.c0), Xor(x.c1, k.c1), Xor(x.c2, k.c2), Xor(x.c3, k.c3))
  }

  // ---------- the table rounds are those steps ----------

  lemma FwdRndIs(x: State, k: State)
    ensures FwdRnd(x, k) == AddKey(Mix(SubShift(x)), k)
  {
    FtSumMixes(Bval0(x.c0), Bval1(x.c1), Bval2(x.c2), Bval3(x.c3));
    FtSumMixes(Bval0(x.c1), Bval1(x.c2), Bval2(x.c3), Bval3(x.c0));
    FtSumMixes(Bval0(x.c2), Bval1(x.c3), Bval2(x.c0), Bval3(x.c1));
    FtSumMixes(Bval0(x.c3), Bval1(x.c0), Bval2(x.c1), Bval3(x.c2));
    hide Xor, FtSum, FwdMcol, Bytes2Word, SBox, Bval0, Bval1, Bval2, Bval3;
  }

  lemma FwdLrndIs(x: State, k: State)
    ensures FwdLrnd(x, k) == AddKey(SubShift(x), k)
  {
    FlSumSubstitutes(Bval0(x.c0), Bval1(x.c1), Bval2(x.c2), Bval3(x.c3));
    FlSumSubstitutes(Bval0(x.c1), Bval1(x.c2), Bval2(x.c3), Bval3(x.c0));
    FlSumSubstitutes(Bval0(x.c2), Bval1(x.c3), Bval2(x.c0), Bval3(x.c1));
    FlSumSubstitutes(Bval0(x.c3), Bval1(x.c0), Bval2(x.c1), Bval3(x.c2));
    hide Xor, FlSum, Bytes2Word, SBox, Bval0, Bval1, Bval2, Bval3;
  }

  lemma InvRndIs(x: State, k: State)
    ensures InvRnd(x, k) == AddKey(InvMix(InvSubShift(x)), k)
  {
    ItSumMixes(Bval0(x.c0), Bval1(x.c3), Bval2(x.c2), Bval3(x.c1));
    ItSumMixes(Bval0(x.c1), Bval1(x.c0), Bval2(x.c3), Bval3(x.c2));
    ItSumMixes(Bval0(x.c2), Bval1(x.c1), Bval2(x.c0), Bval3(x.c3));
    ItSumMixes(Bval0(x.c3), Bval1(x.c2), Bval2(x.c1), Bval3(x.c0));
    hide Xor, ItSum, InvMcol, Bytes2Word, InvSBox, Bval0, Bval1, Bval2, Bval3;
  }

  lemma InvLrndIs(x: State, k: State)
    ensures InvLrnd(x, k) == AddKey(InvSubShift(x), k)
  {
    FlSumSubstitutes(Bval0(x.c0), Bval1(x.c3), Bval2(x.c2), Bval3(x.c1));
    FlSumSubstitutes(Bval0(x.c1), Bval1(x.c0), Bval2(x.c3), Bval3(x.c2));
    FlSumSubstitutes(Bval0(x.c2), Bval1(x.c1), Bval2(x.c0), Bval3(x.c3));
    FlSumSubstitutes(Bval0(x.c3), Bval1(x.c2), Bval2(x.c1), Bval3(x.c0));
    hide Xor, IlSum, Bytes2Word, InvSBox, Bval0, Bval1, Bval2, Bval3;
  }

  lemma SubUndone(w0: bv32, w1: bv32, w2: bv32, w3: bv32)
    ensures InvSub(Sub(w0, w1, w2, w3), Sub(w3, w0, w1, w2), Sub(w2, w3, w0, w1), Sub(w1, w2, w3, w0)) == w0
  {
    BytesOfSub(w0, w1, w2, w3);
    BytesOfSub(w3, w0, w1, w2);
    BytesOfSub(w2, w3, w0, w1);
    BytesOfSub(w1, w2, w3, w0);
    SBoxUndone(Bval0(w0));
    SBoxUndone(Bval1(w0));
    SBoxUndone(Bval2(w0));
    SBoxUndone(Bval3(w0));
    WordOfBytes(w0);
    hide SBox, InvSBox, Sub, Bytes2Word, Bval0, Bval1, Bval2, Bval3;
  }

  lemma SubShiftUndone(x: State)
    ensures InvSubShift(SubShift(x)) == x
  {
    hide Sub, InvSub;
    SubUndone(x.c0, x.c1, x.c2, x.c3);
    SubUndone(x.c1, x.c2, x.c3, x.c0);
    SubUndone(x.c2, x.c3, x.c0, x.c1);
    SubUndone(x.c3, x.c0, x.c1, x.c2);
  }

  lemma InvMixUndone(x: State)
    ensures InvMix(Mix(x)) == x
  {
    hide FwdMcol, InvMcol;
    InvMcolInverts(x.c0);
    InvMcolInverts(x.c1);
    InvMcolInverts(x.c2);
    InvMcolInverts(x.c3);
  }

  lemma InvMixOfKeyed(x: State, k: State)
    ensures InvMix(AddKey(x, k)) == AddKey(InvMix(x), InvMix(k))
  {
    hide InvMcol, Xor;
    InvMcolLinear(x.c0, k.c0);
    InvMcolLinear(x.c1, k.c1);
    InvMcolLinear(x.c2, k.c2);
    InvMcolLinear(x.c3, k.c3);
  }

  lemma AddKeyTwice(x: State, k: State)
    ensures AddKey(AddKey(x, k), k) == x
  {
    XorTwice(x.c0, k.c0);
    XorTwice(x.c1, k.c1);
    XorTwice(x.c2, k.c2);
    XorTwice(x.c3, k.c3);
    hide Xor;
  }


  // ---------- the key schedule of FIPS 197, section 5.2 ----------

  /** `ls_box(x,3)` and `ls_box(x,0)`. */
  function LsBox3(x: bv32): bv32 {
    FlSum(Bval1(x), Bval2(x), Bval3(x), Bval0(x))
  }

  function LsBox0(x: bv32): bv32 {
    FlSum(Bval0(x), Bval1(x), Bval2(x), Bval3(x))
  }

  const RCON_TAB: seq<bv32> := [
    0x01, 0x02, 0x04, 0x08, 0x10, 0x20, 0x40, 0x80, 0x1b, 0x36, 0x6c, 0xd8, 0xab, 0x4d, 0x9a, 0x2f,
    0x5e, 0xbc, 0x63, 0xc6, 0x97, 0x35, 0x6a, 0xd4, 0xb3, 0x7d, 0xfa, 0xef, 0xc5]

  function SubWord(x: bv32): bv32 {
    Bytes2Word(SBox(Bval0(x)), SBox(Bval1(x)), SBox(Bval2(x)), SBox(Bval3(x)))
  }

  function RotWord(x: bv32): bv32 {
    Bytes2Word(Bval1(x), Bval2(x), Bval3(x), Bval0(x))
  }

  /** The round constants: powers of {02} in the first byte. */
  function Rcon(i: nat): bv32
    requires i > 0
  {
    if i == 1 then 1 else FFmulX(Rcon(i - 1))
  }

  predicate KeySize(nk: nat) {
    nk == 4 || nk == 6 || nk == 8
  }

  /** Word `i` of the expanded key. */
  function Expand(key: seq<bv32>, i: nat): bv32
    requires KeySize(|key|)
  {
    var nk := |key|;
    if i < nk then key[i]
    else
      var temp := Expand(key, i - 1);
      Xor(Expand(key, i - nk),
        if i % nk == 0 then Xor(SubWord(RotWord(temp)), Rcon(i / nk))
        else if nk > 6 && i % nk == 4 then SubWord(temp)
        else temp)
  }

  /** The number of rounds. */
  function Rounds(nk: nat): nat {
    nk + 6
  }

  lemma LsBoxIs(x: bv32)
    ensures LsBox3(x) == SubWord(RotWord(x)) && LsBox0(x) == SubWord(x)
  {
    FlSumSubstitutes(Bval1(x), Bval2(x), Bval3(x), Bval0(x));
    FlSumSubstitutes(Bval0(x), Bval1(x), Bval2(x), Bval3(x));
    BytesOfWord(Bval1(x), Bval2(x), Bval3(x), Bval0(x));
    hide FlSum, Bytes2Word, SBox, Bval0, Bval1, Bval2, Bval3;
  }

  lemma RconStep(i: nat)
    requires 0 < i < 29
    ensures RCON_TAB[i] == FFmulX(RCON_TAB[i - 1])
  {
    if i < 8 {} else if i < 15 {} else if i < 22 {} else {}
  }

  lemma {:induction false} RconTable(i: nat)
    requires 0 < i <= 29
    ensures i - 1 < |RCON_TAB| && RCON_TAB[i - 1] == Rcon(i)
  {
    hide FFmulX;
    if i > 1 {
      RconTable(i - 1);
      RconStep(i - 1);
    }
  }

  lemma StretchStart(nk: nat, r: nat)
    requires KeySize(nk)
    ensures (r * nk + nk) % nk == 0 && (r * nk + nk) / nk == r + 1
  {
    if nk == 4 {} else if nk == 6 {} else {}
  }

  lemma WithinStretch(nk: nat, r: nat, j: nat)
    requires KeySize(nk) && j < nk
    ensures (r * nk + nk + j) % nk == j
  {
    if nk == 4 {} else if nk == 6 {} else {}
  }

  /** The first word of a new stretch of the schedule, as `set_key` computes it. */
  lemma FirstWord(key: seq<bv32>, r: nat)
    requires KeySize(|key|) && r < 10
    ensures var nk := |key|; var i := r * nk;
      && r < |RCON_TAB|
      && Expand(key, i + nk) == Xor(Xor(Expand(key, i), LsBox3(Expand(key, i + nk - 1))), RCON_TAB[r])
  {
    hide SubWord, RotWord, LsBox3, Xor, Rcon, RCON_TAB;
    var nk := |key|;
    var i := r * nk;
    var temp := Expand(key, i + nk - 1);
    LsBoxIs(temp);
    RconTable(r + 1);
    XorAssoc(Expand(key, i), LsBox3(temp), RCON_TAB[r]);
    StretchStart(nk, r);
    assert Expand(key, i + nk) == Xor(Expand(key, i), Xor(SubWord(RotWord(temp)), Rcon(r + 1)));
  }

  /** Every other word, except the fifth of a stretch of eight. */
  lemma NextWord(key: seq<bv32>, r: nat, j: nat)
    requires KeySize(|key|) && 0 < j < |key| && !(|key| == 8 && j == 4)
    ensures var nk := |key|; var i := r * nk;
      Expand(key, i + nk + j) == Xor(Expand(key, i + j), Expand(key, i + nk + j - 1))
  {
    hide Xor, SubWord, RotWord, Rcon;
    WithinStretch(|key|, r, j);
  }

  lemma FifthWord(key: seq<bv32>, r: nat)
    requires |key| == 8
    ensures var i := r * |key|;
      Expand(key, i + |key| + 4) == Xor(Expand(key, i + 4), LsBox0(Expand(key, i + |key| + 3)))
  {
    hide SubWord, RotWord, Rcon, LsBox0, Xor;
    LsBoxIs(Expand(key, r * |key| + |key| + 3));
    WithinStretch(|key|, r, 4);
  }

  /** A stretch of 4 words, as case 4 of `set_key` computes it. */
  lemma Stretch4(key: seq<bv32>, r: nat)
    requires |key| == 4 && r < 10
    ensures var kf := 4 * r;
      && r < |RCON_TAB|
      && Expand(key, kf + 4) == Xor(Xor(Expand(key, kf), LsBox3(Expand(key, kf + 3))), RCON_TAB[r])
      && Expand(key, kf + 5) == Xor(Expand(key, kf + 1), Expand(key, kf + 4))
      && Expand(key, kf + 6) == Xor(Expand(key, kf + 2), Expand(key, kf + 5))
      && Expand(key, kf + 7) == Xor(Expand(key, kf + 3), Expand(key, kf + 6))
  {
    hide Expand, Xor, LsBox3, LsBox0, RCON_TAB;
    assert r * |key| == 4 * r;
    FirstWord(key, r);
    NextWord(key, r, 1);
    NextWord(key, r, 2);
    NextWord(key, r, 3);
  }

  /** A stretch of 6 words, as case 6 of `set_key` computes it. */
  lemma Stretch6(key: seq<bv32>, r: nat)
    requires |key| == 6 && r < 10
    ensures var kf := 6 * r;
      && r < |RCON_TAB|
      && Expand(key, kf + 6) == Xor(Xor(Expand(key, kf), LsBox3(Expand(key, kf + 5))), RCON_TAB[r])
      && Expand(key, kf + 7) == Xor(Expand(key, kf + 1), Expand(key, kf + 6))
      && Expand(key, kf + 8) == Xor(Expand(key, kf + 2), Expand(key, kf + 7))
      && Expand(key, kf + 9) == Xor(Expand(key, kf + 3), Expand(key, kf + 8))
      && Expand(key, kf + 10) == Xor(Expand(key, kf + 4), Expand(key, kf + 9))
      && Expand(key, kf + 11) == Xor(Expand(key, kf + 5), Expand(key, kf + 10))
  {
    hide Expand, Xor, LsBox3, LsBox0, RCON_TAB;
    assert r * |key| == 6 * r;
    FirstWord(key, r);
    NextWord(key, r, 1);
    NextWord(key, r, 2);
    NextWord(key, r, 3);
    NextWord(key, r, 4);
    NextWord(key, r, 5);
  }

  /** A stretch of 8 words, as case 8 of `set_key` computes it. */
  lemma Stretch8(key: seq<bv32>, r: nat)
    requires |key| == 8 && r < 10
    ensures var kf := 8 * r;
      && r < |RCON_TAB|
      && Expand(key, kf + 8) == Xor(Xor(Expand(key, kf), LsBox3(Expand(key, kf + 7))), RCON_TAB[r])
      && Expand(key, kf + 9) == Xor(Expand(key, kf + 1), Expand(key, kf + 8))
      && Expand(key, kf + 10) == Xor(Expand(key, kf + 2), Expand(key, kf + 9))
      && Expand(key, kf + 11) == Xor(Expand(key, kf + 3), Expand(key, kf + 10))
      && Expand(key, kf + 12) == Xor(Expand(key, kf + 4), LsBox0(Expand(key, kf + 11)))
      && Expand(key, kf + 13) == Xor(Expand(key, kf + 5), Expand(key, kf + 12))
      && Expand(key, kf + 14) == Xor(Expand(key, kf + 6), Expand(key, kf + 13))
      && Expand(key, kf + 15) == Xor(Expand(key, kf + 7), Expand(key, kf + 14))
  {
    hide Expand, Xor, LsBox3, LsBox0, RCON_TAB;
    assert r * |key| == 8 * r;
    FirstWord(key, r);
    NextWord(key, r, 1);
    NextWord(key, r, 2);
    NextWord(key, r, 3);
    FifthWord(key, r);
    NextWord(key, r, 5);
    NextWord(key, r, 6);
    NextWord(key, r, 7);
  }

  // ---------- the cipher and its inverse ----------

  function RoundKey(key: seq<bv32>, i: nat): State
    requires KeySize(|key|)
  {
    State(Expand(key, 4 * i), Expand(key, 4 * i + 1), Expand(key, 4 * i + 2), Expand(key, 4 * i + 3))
  }

  /** The round keys of the equivalent inverse cipher: reversed, and mixed except for the first and the last. */
  function InvRoundKey(key: seq<bv32>, i: nat): State
    requires KeySize(|key|) && i <= Rounds(|key|)
  {
    if i == 0 || i == Rounds(|key|) then RoundKey(key, Rounds(|key|) - i) else InvMix(RoundKey(key, Rounds(|key|) - i))
  }

  /** The state after `i` full rounds. */
  function Forward(key: seq<bv32>, x: State, i: nat): State
    requires KeySize(|key|)
  {
    if i == 0 then AddKey(x, RoundKey(key, 0))
    else AddKey(Mix(SubShift(Forward(key, x, i - 1))), RoundKey(key, i))
  }

  /** Encryption of one state: all rounds, the last without column mix. */
  function Cipher(key: seq<bv32>, x: State): State
    requires KeySize(|key|)
  {
    AddKey(SubShift(Forward(key, x, Rounds(|key|) - 1)), RoundKey(key, Rounds(|key|)))
  }

  function Backward(key: seq<bv32>, x: State, i: nat): State
    requires KeySize(|key|) && i <= Rounds(|key|)
  {
    if i == 0 then AddKey(x, InvRoundKey(key, 0))
    else AddKey(InvMix(InvSubShift(Backward(key, x, i - 1))), InvRoundKey(key, i))
  }

  /** Decryption of one state by the equivalent inverse cipher. */
  function InvCipher(key: seq<bv32>, x: State): State
    requires KeySize(|key|)
  {
    AddKey(InvSubShift(Backward(key, x, Rounds(|key|) - 1)), InvRoundKey(key, Rounds(|key|)))
  }

  /** Going back `i` rounds from the encrypted state undoes the last `i` rounds, up to one substitution and row shift. */
  lemma {:induction false} BackwardUndoes(key: seq<bv32>, x: State, i: nat)
    requires KeySize(|key|) && i < Rounds(|key|)
    ensures Backward(key, Cipher(key, x), i) == SubShift(Forward(key, x, Rounds(|key|) - 1 - i))
  {
    hide SubShift, InvSubShift, AddKey, Mix, InvMix, RoundKey;
    var n := Rounds(|key|);
    if i == 0 {
      AddKeyTwice(SubShift(Forward(key, x, n - 1)), RoundKey(key, n));
    } else {
      BackwardUndoes(key, x, i - 1);
      var y, k := Forward(key, x, n - i), RoundKey(key, n - i);
      var z := SubShift(Forward(key, x, n - i - 1));
      assert y == AddKey(Mix(z), k);
      SubShiftUndone(y);
      InvMixOfKeyed(Mix(z), k);
      AddKeyTwice(InvMix(Mix(z)), InvMix(k));
      InvMixUndone(z);
    }
  }

  /** Decryption inverts encryption, for every key of 4, 6 or 8 words and every state. */
  lemma InvCipherInverts(key: seq<bv32>, x: State)
    requires KeySize(|key|)
    ensures InvCipher(key, Cipher(key, x)) == x
  {
    hide SubShift, InvSubShift, AddKey, Mix, InvMix, RoundKey;
    var n := Rounds(|key|);
    BackwardUndoes(key, x, n - 1);
    SubShiftUndone(Forward(key, x, 0));
    AddKeyTwice(x, RoundKey(key, 0));
  }

  // ---------- the cipher by its round keys ----------

  /** A full round for each of the round keys `ks`, in their order. */
  function FullRounds(ks: seq<State>, x: State): State {
    if ks == [] then x else AddKey(Mix(SubShift(FullRounds(ks[..|ks| - 1], x))), ks[|ks| - 1])
  }

  /** The first round key is added, every further one ends a round, and the last round has no column mix. */
  function Encipher(ks: seq<State>, x: State): State
    requires |ks| >= 2
  {
    AddKey(SubShift(FullRounds(ks[1..|ks| - 1], AddKey(x, ks[0]))), ks[|ks| - 1])
  }

  /** The first `n + 1` round keys of the expanded key. */
  function RoundKeys(key: seq<bv32>, n: nat): (ks: seq<State>)
    requires KeySize(|key|)
    ensures |ks| == n + 1
  {
    seq(n + 1, i requires 0 <= i <= n => RoundKey(key, i))
  }

  /** Table 5 of FIPS 197: ten rounds for 128 bits of key, twelve for 192, fourteen for 256. */
  ghost predicate RoundsFor(bits: nat, n: nat) {
    (bits == 128 && n == 10) || (bits == 192 && n == 12) || (bits == 256 && n == 14)
  }

  lemma {:induction false} ForwardIsFold(key: seq<bv32>, x: State, n: nat, i: nat)
    requires KeySize(|key|) && i <= n
    ensures Forward(key, x, i) == FullRounds(RoundKeys(key, n)[1..i + 1], AddKey(x, RoundKey(key, 0)))
    decreases i
  {
    hide AddKey, Mix, SubShift, RoundKey;
    var ks := RoundKeys(key, n)[1..i + 1];
    if i > 0 {
      ForwardIsFold(key, x, n, i - 1);
      assert ks[..|ks| - 1] == RoundKeys(key, n)[1..i];
    }
  }

  /** Encryption is as many rounds as go with the length of the key, each with its round key. */
  lemma CipherIsFold(key: seq<bv32>, x: State, n: nat)
    requires KeySize(|key|) && RoundsFor(32 * |key|, n)
    ensures Cipher(key, x) == Encipher(RoundKeys(key, n), x)
  {
    hide AddKey, Mix, SubShift, RoundKey, Forward;
    ForwardIsFold(key, x, n, n - 1);
  }

  // ---------- blocks of bytes ----------

  /** `word_in`: a word as the machine loads it; its bytes are in reverse on a big-endian machine. */
  function WordIn(b0: bv8, b1: bv8, b2: bv8, b3: bv8, big: bool): bv32 {
    if big then Bytes2Word(b3, b2, b1, b0) else Bytes2Word(b0, b1, b2, b3)
  }

  /** `word_out`. */
  function WordOut(w: bv32, big: bool): seq<bv8> {
    if big then [Bval3(w), Bval2(w), Bval1(w), Bval0(w)] else [Bval0(w), Bval1(w), Bval2(w), Bval3(w)]
  }

  type Block = b: seq<bv8> | |b| == 16 witness seq(16, _ => 0)

  function StateIn(b: Block, big: bool): State {
    State(WordIn(b[0], b[1], b[2], b[3], big), WordIn(b[4], b[5], b[6], b[7], big),
      WordIn(b[8], b[9], b[10], b[11], big), WordIn(b[12], b[13], b[14], b[15], big))
  }

  function StateOut(x: State, big: bool): Block {
    WordOut(x.c0, big) + WordOut(x.c1, big) + WordOut(x.c2, big) + WordOut(x.c3, big)
  }

  lemma WordInOut(b0: bv8, b1: bv8, b2: bv8, b3: bv8, w: bv32, big: bool)
    ensures WordOut(WordIn(b0, b1, b2, b3, big), big) == [b0, b1, b2, b3]
    ensures var o := WordOut(w, big); WordIn(o[0], o[1], o[2], o[3], big) == w
  {
    BytesOfWord(b0, b1, b2, b3);
    BytesOfWord(b3, b2, b1, b0);
    WordOfBytes(w);
    hide Bytes2Word, Bval0, Bval1, Bval2, Bval3;
  }

  lemma StateOutIn(b: Block, big: bool)
    ensures StateOut(StateIn(b, big), big) == b
  {
    WordInOut(b[0], b[1], b[2], b[3], 0, big);
    WordInOut(b[4], b[5], b[6], b[7], 0, big);
    WordInOut(b[8], b[9], b[10], b[11], 0, big);
    WordInOut(b[12], b[13], b[14], b[15], 0, big);
    hide WordIn, WordOut;
  }

  lemma StateInOut(x: State, big: bool)
    ensures StateIn(StateOut(x, big), big) == x
  {
    WordInOut(0, 0, 0, 0, x.c0, big);
    WordInOut(0, 0, 0, 0, x.c1, big);
    WordInOut(0, 0, 0, 0, x.c2, big);
    WordInOut(0, 0, 0, 0, x.c3, big);
    assert |WordOut(x.c0, big)| == |WordOut(x.c1, big)| == |WordOut(x.c2, big)| == |WordOut(x.c3, big)| == 4;
    hide WordIn, WordOut;
  }

  /** The words of a key of 16, 24 or 32 bytes. */
  function KeyWords(k: seq<bv8>, big: bool): seq<bv32> {
    seq(|k| / 4, i requires 0 <= i < |k| / 4 => WordIn(k[4 * i], k[4 * i + 1], k[4 * i + 2], k[4 * i + 3], big))
  }

  /** Byte `r` of column `c` of the state is byte `4 * c + r` of the block; a big-endian machine holds its words the other way round. */
  lemma BlockIsColumns(b: Block, x: State, big: bool, c: nat, r: nat)
    requires c < 4 && r < 4
    ensures Row(Column(StateIn(b, big), c), if big then 3 - r else r) == b[4 * c + r]
    ensures StateOut(x, big)[4 * c + r] == Row(Column(x, c), if big then 3 - r else r)
  {
    hide WordIn, WordOut, Row, StateIn, StateOut;
    ColumnIn(b, big, c);
    ColumnOut(x, big, c, r);
    WordsInOrder(b[4 * c], b[4 * c + 1], b[4 * c + 2], b[4 * c + 3], Column(x, c), big, r);
  }

  lemma ColumnIn(b: Block, big: bool, c: nat)
    requires c < 4
    ensures Column(StateIn(b, big), c) == WordIn(b[4 * c], b[4 * c + 1], b[4 * c + 2], b[4 * c + 3], big)
  {
    hide WordIn;
  }

  lemma ColumnOut(x: State, big: bool, c: nat, r: nat)
    requires c < 4 && r < 4
    ensures StateOut(x, big)[4 * c + r] == WordOut(Column(x, c), big)[r]
  {
    assert |WordOut(x.c0, big)| == |WordOut(x.c1, big)| == |WordOut(x.c2, big)| == |WordOut(x.c3, big)| == 4;
    hide WordOut;
    FourthOf(WordOut(x.c0, big), WordOut(x.c1, big), WordOut(x.c2, big), WordOut(x.c3, big), c, r);
  }

  lemma FourthOf<T>(p: seq<T>, q: seq<T>, u: seq<T>, v: seq<T>, c: nat, r: nat)
    requires |p| == |q| == |u| == |v| == 4 && c < 4 && r < 4
    ensures (p + q + u + v)[4 * c + r] == Nth(p, q, u, v, c)[r]
  {
  }

  lemma WordsInOrder(b0: bv8, b1: bv8, b2: bv8, b3: bv8, w: bv32, big: bool, r: nat)
    requires r < 4
    ensures Row(WordIn(b0, b1, b2, b3, big), if big then 3 - r else r) == [b0, b1, b2, b3][r]
    ensures WordOut(w, big)[r] == Row(w, if big then 3 - r else r)
  {
    hide Bytes2Word, Bval0, Bval1, Bval2, Bval3;
    BytesOfWord(b0, b1, b2, b3);
    BytesOfWord(b3, b2, b1, b0);
  }

  /** Word `i` of the key has bytes `4 * i` to `4 * i + 3`, in the same order. */
  lemma KeyIsWords(k: seq<bv8>, big: bool, i: nat, r: nat)
    requires 4 * i + 4 <= |k| && r < 4
    ensures |KeyWords(k, big)| == |k| / 4 && Row(KeyWords(k, big)[i], if big then 3 - r else r) == k[4 * i + r]
  {
    hide WordIn, Row;
    WordsInOrder(k[4 * i], k[4 * i + 1], k[4 * i + 2], k[4 * i + 3], 0, big, r);
  }

  function EncryptBlock(key: seq<bv32>, b: Block, big: bool): Block
    requires KeySize(|key|)
  {
    StateOut(Cipher(key, StateIn(b, big)), big)
  }

  /** `out` is what `n` rounds with the first `n + 1` round keys make of `b`, and `n` goes with the length of the key. */
  ghost predicate EnciphersTo(key: seq<bv32>, n: nat, b: Block, out: Block, big: bool)
    requires KeySize(|key|)
  {
    RoundsFor(32 * |key|, n) && out == StateOut(Encipher(RoundKeys(key, n), StateIn(b, big)), big)
  }

  function DecryptBlock(key: seq<bv32>, b: Block, big: bool): Block
    requires KeySize(|key|)
  {
    StateOut(InvCipher(key, StateIn(b, big)), big)
  }

  /** Decrypting an encrypted block gives the block back, for every key, whatever the byte order of the machine. */
  lemma DecryptInverts(key: seq<bv32>, b: Block, big: bool)
    requires KeySize(|key|)
    ensures DecryptBlock(key, EncryptBlock(key, b, big), big) == b
  {
    hide StateIn, StateOut, Cipher, InvCipher;
    StateOutIn(b, big);
    StateInOut(Cipher(key, StateIn(b, big)), big);
    InvCipherInverts(key, StateIn(b, big));
  }

  // ---------- the context ----------

  const AES_BAD: int := 0
  const AES_GOOD: int := 1

  class Context {
    var nKey: nat
    var nRnd: nat
    const eKey: array<bv32>
    const dKey: array<bv32>
    var mode: bv8

    constructor ()
      ensures mode == 0 && nKey == 0 && nRnd == 0 && eKey.Length == 64 && dKey.Length == 64
      ensures fresh(eKey) && fresh(dKey) && eKey != dKey
    {
      nKey, nRnd, mode := 0, 0, 0;
      eKey := new bv32[64](_ => 0);
      dKey := new bv32[64](_ => 0);
    }

    ghost predicate Shaped() {
      eKey.Length == 64 && dKey.Length == 64 && eKey != dKey
    }

    /** The first `n` words of the encryption schedule are in place. */
    ghost predicate Expanded(key: seq<bv32>, n: nat)
      requires KeySize(|key|)
      reads eKey
    {
      n <= eKey.Length && forall j :: 0 <= j < n ==> eKey[j] == Expand(key, j)
    }

    lemma WordAt(key: seq<bv32>, n: nat, k: nat)
      requires KeySize(|key|) && Expanded(key, n) && k < n
      ensures k < eKey.Length && eKey[k] == Expand(key, k)
    {
    }

    /** `kf[j] = a ^ b`, where that is the next word of the schedule. */
    method Put(j: nat, a: bv32, b: bv32, ghost key: seq<bv32>)
      requires KeySize(|key|) && Expanded(key, j) && j < eKey.Length && Xor(a, b) == Expand(key, j)
      modifies eKey
      ensures Expanded(key, j + 1)
    {
      hide Xor, Expand;
      eKey[j] := Xor(a, b);
    }

    /** The four words from `k` on. */
    function RoundAt(a: array<bv32>, k: nat): State
      requires k + 4 <= a.Length
      reads a
    {
      State(a[k], a[k + 1], a[k + 2], a[k + 3])
    }

    /** The schedules that the mode announces are those of `key`. */
    ghost predicate Keyed(key: seq<bv32>)
      reads this, eKey, dKey
    {
      && Shaped() && KeySize(|key|) && nKey == |key| && nRnd == Rounds(|key|)
      && Expanded(key, 4 * (nRnd + 1))
      && (mode & 2 != 0 ==> DecKeyed(key))
    }

    /** Case 4 of `set_key`. */
    method Expand4(ghost key: seq<bv32>)
      requires Shaped() && |key| == 4 && Expanded(key, 4)
      modifies eKey
      ensures Expanded(key, 44)
    {
      hide Xor, LsBox3, LsBox0, Expand, Expanded, RCON_TAB;
      var kf, kt, rci := 0, 40, 0;
      while kf < kt
        invariant kf == 4 * rci && kf <= 40 && Expanded(key, kf + 4)
      {
        Stretch4(key, rci);
        WordAt(key, kf + 4, kf);
        WordAt(key, kf + 4, kf + 3);
        Put(kf + 4, Xor(eKey[kf], LsBox3(eKey[kf + 3])), RCON_TAB[rci], key);
        rci := rci + 1;
        WordAt(key, kf + 5, kf + 1);
        WordAt(key, kf + 5, kf + 4);
        Put(kf + 5, eKey[kf + 1], eKey[kf + 4], key);
        WordAt(key, kf + 6, kf + 2);
        WordAt(key, kf + 6, kf + 5);
        Put(kf + 6, eKey[kf + 2], eKey[kf + 5], key);
        WordAt(key, kf + 7, kf + 3);
        WordAt(key, kf + 7, kf + 6);
        Put(kf + 7, eKey[kf + 3], eKey[kf + 6], key);
        kf := kf + 4;
      }
    }

    /** Case 6 of `set_key`. */
    method Expand6(ghost key: seq<bv32>)
      requires Shaped() && |key| == 6 && Expanded(key, 6)
      modifies eKey
      ensures Expanded(key, 54)
    {
      hide Xor, LsBox3, LsBox0, Expand, Expanded, RCON_TAB;
      var kf, kt, rci := 0, 46, 0;
      while kf < kt
        invariant kf == 6 * rci && kf <= 48 && Expanded(key, kf + 6)
      {
        Stretch6(key, rci);
        WordAt(key, kf + 6, kf);
        WordAt(key, kf + 6, kf + 5);
        Put(kf + 6, Xor(eKey[kf], LsBox3(eKey[kf + 5])), RCON_TAB[rci], key);
        rci := rci + 1;
        WordAt(key, kf + 7, kf + 1);
        WordAt(key, kf + 7, kf + 6);
        Put(kf + 7, eKey[kf + 1], eKey[kf + 6], key);
        WordAt(key, kf + 8, kf + 2);
        WordAt(key, kf + 8, kf + 7);
        Put(kf + 8, eKey[kf + 2], eKey[kf + 7], key);
        WordAt(key, kf + 9, kf + 3);
        WordAt(key, kf + 9, kf + 8);
        Put(kf + 9, eKey[kf + 3], eKey[kf + 8], key);
        WordAt(key, kf + 10, kf + 4);
        WordAt(key, kf + 10, kf + 9);
        Put(kf + 10, eKey[kf + 4], eKey[kf + 9], key);
        WordAt(key, kf + 11, kf + 5);
        WordAt(key, kf + 11, kf + 10);
        Put(kf + 11, eKey[kf + 5], eKey[kf + 10], key);
        kf := kf + 6;
      }
    }

    /** Case 8 of `set_key`. */
    method Expand8(ghost key: seq<bv32>)
      requires Shaped() && |key| == 8 && Expanded(key, 8)
      modifies eKey
      ensures Expanded(key, 64)
    {
      hide Xor, LsBox3, LsBox0, Expand, Expanded, RCON_TAB;
      var kf, kt, rci := 0, 52, 0;
      while kf < kt
        invariant kf == 8 * rci && kf <= 56 && Expanded(key, kf + 8)
      {
        FirstFour(kf, rci, key);
        SecondFour(kf, rci, key);
        rci := rci + 1;
        kf := kf + 8;
      }
    }

    /** `kf[8]` to `kf[11]`. */
    method FirstFour(kf: nat, rci: nat, ghost key: seq<bv32>)
      requires Shaped() && |key| == 8 && kf == 8 * rci && kf + 16 <= 64 && Expanded(key, kf + 8)
      modifies eKey
      ensures Expanded(key, kf + 12)
    {
      hide Xor, LsBox3, LsBox0, Expand, Expanded, RCON_TAB;
      Stretch8(key, rci);
      WordAt(key, kf + 8, kf);
      WordAt(key, kf + 8, kf + 7);
      Put(kf + 8, Xor(eKey[kf], LsBox3(eKey[kf + 7])), RCON_TAB[rci], key);
      WordAt(key, kf + 9, kf + 1);
      WordAt(key, kf + 9, kf + 8);
      Put(kf + 9, eKey[kf + 1], eKey[kf + 8], key);
      WordAt(key, kf + 10, kf + 2);
      WordAt(key, kf + 10, kf + 9);
      Put(kf + 10, eKey[kf + 2], eKey[kf + 9], key);
      WordAt(key, kf + 11, kf + 3);
      WordAt(key, kf + 11, kf + 10);
      Put(kf + 11, eKey[kf + 3], eKey[kf + 10], key);
    }

    /** `kf[12]` to `kf[15]`. */
    method SecondFour(kf: nat, ghost rci: nat, ghost key: seq<bv32>)
      requires Shaped() && |key| == 8 && kf == 8 * rci && kf + 16 <= 64 && Expanded(key, kf + 12)
      modifies eKey
      ensures Expanded(key, kf + 16)
    {
      hide Xor, LsBox3, LsBox0, Expand, Expanded, RCON_TAB;
      Stretch8(key, rci);
      WordAt(key, kf + 12, kf + 4);
      WordAt(key, kf + 12, kf + 11);
      Put(kf + 12, eKey[kf + 4], LsBox0(eKey[kf + 11]), key);
      WordAt(key, kf + 13, kf + 5);
      WordAt(key, kf + 13, kf + 12);
      Put(kf + 13, eKey[kf + 5], eKey[kf + 12], key);
      WordAt(key, kf + 14, kf + 6);
      WordAt(key, kf + 14, kf + 13);
      Put(kf + 14, eKey[kf + 6], eKey[kf + 13], key);
      WordAt(key, kf + 15, kf + 7);
      WordAt(key, kf + 15, kf + 14);
      Put(kf + 15, eKey[kf + 7], eKey[kf + 14], key);
    }

    /** `cpy` and `mix`: four words of the encryption schedule, as they are or mixed, into the decryption schedule. */
    method Copy(kt: nat, kf: nat)
      requires Shaped() && kt + 4 <= 64 && kf + 4 <= 64
      modifies dKey
      ensures RoundAt(dKey, kt) == RoundAt(eKey, kf)
      ensures forall j :: 0 <= j < kt || kt + 4 <= j < 64 ==> dKey[j] == old(dKey[j])
    {
      dKey[kt], dKey[kt + 1], dKey[kt + 2], dKey[kt + 3] := eKey[kf], eKey[kf + 1], eKey[kf + 2], eKey[kf + 3];
    }

    method MixCopy(kt: nat, kf: nat)
      requires Shaped() && kt + 4 <= 64 && kf + 4 <= 64
      modifies dKey
      ensures RoundAt(dKey, kt) == InvMix(RoundAt(eKey, kf))
      ensures forall j :: 0 <= j < kt || kt + 4 <= j < 64 ==> dKey[j] == old(dKey[j])
    {
      ImSumMixes(eKey[kf]);
      ImSumMixes(eKey[kf + 1]);
      ImSumMixes(eKey[kf + 2]);
      ImSumMixes(eKey[kf + 3]);
      hide ImSum, InvMcol;
      dKey[kt] := ImSum(eKey[kf]);
      dKey[kt + 1] := ImSum(eKey[kf + 1]);
      dKey[kt + 2] := ImSum(eKey[kf + 2]);
      dKey[kt + 3] := ImSum(eKey[kf + 3]);
    }

    /** The decryption half of `set_key`. */
    method Reverse(ghost key: seq<bv32>)
      requires Shaped() && KeySize(|key|) && nRnd == Rounds(|key|) && Expanded(key, 4 * (nRnd + 1))
      modifies dKey
      ensures DecKeyed(key)
    {
      hide Expand, InvMix;
      var kt, kf := 4 * nRnd, 0;
      Copy(kt, kf);
      kt, kf := kt - 4, kf + 4;
      var i := 1;
      while i < nRnd
        invariant 1 <= i <= nRnd && kt == 4 * (nRnd - i) && kf == 4 * i
        invariant forall r :: nRnd - i < r <= nRnd ==> RoundAt(dKey, 4 * r) == InvRoundKey(key, r)
      {
        assert RoundAt(eKey, kf) == RoundKey(key, i);
        MixCopy(kt, kf);
        kt, kf := kt - 4, kf + 4;
        i := i + 1;
      }
      assert RoundAt(eKey, kf) == RoundKey(key, nRnd);
      Copy(kt, kf);
    }

    /** The key words of `set_key`, written out there for each length. */
    method LoadKey(inKey: array<bv8>, nBytes: nat, big: bool, ghost key: seq<bv32>)
      requires Shaped() && nBytes <= inKey.Length && KeySize(nKey) && nBytes == 4 * nKey
      requires key == KeyWords(inKey[..nBytes], big)
      modifies eKey
      ensures forall j :: 0 <= j < nKey ==> eKey[j] == key[j]
    {
      hide WordIn;
      for i := 0 to nKey
        invariant forall j :: 0 <= j < i ==> eKey[j] == key[j]
      {
        eKey[i] := WordIn(inKey[4 * i], inKey[4 * i + 1], inKey[4 * i + 2], inKey[4 * i + 3], big);
      }
    }

    /** The encryption half of `set_key`: the key words and their expansion. */
    method LoadAndExpand(inKey: array<bv8>, nBytes: nat, big: bool, ghost key: seq<bv32>)
      requires Shaped() && nBytes <= inKey.Length && KeySize(nKey) && nBytes == 4 * nKey
      requires key == KeyWords(inKey[..nBytes], big)
      modifies eKey
      ensures Expanded(key, 4 * (Rounds(nKey) + 1))
    {
      LoadKey(inKey, nBytes, big, key);
      hide Expand, Expanded, KeyWords;
      KeyLoaded(key);
      if nKey == 4 {
        Expand4(key);
      } else if nKey == 6 {
        Expand6(key);
        Fewer(key, 54, 52);
      } else {
        Expand8(key);
        Fewer(key, 64, 60);
      }
    }

    lemma Fewer(key: seq<bv32>, n: nat, m: nat)
      requires KeySize(|key|) && Expanded(key, n) && m <= n
      ensures Expanded(key, m)
    {
    }

    /** The mode after an accepted key: `f` in the low two bits. */
    static function NewMode(m: bv8, f: bv8): bv8 {
      (m & 0xfc) | (f & 3)
    }

    static predicate NoDirection(f: bv8) {
      f & 1 == 0 && f & 2 == 0
    }

    /** The decryption schedule is made unless only encryption is asked for. */
    static predicate ForDecryption(m: bv8) {
      m & 3 != 1
    }

    static lemma NewModeBits(m: bv8, f: bv8)
      requires !NoDirection(f)
      ensures var n := NewMode(m, f); n & 3 == f & 3 != 0 && (ForDecryption(n) <==> n & 2 != 0)
    {
    }

    /** `set_key`: accepts keys of 16, 24 and 32 bytes for encryption, decryption or both. */
    method SetKey(inKey: array<bv8>, nBytes: nat, f: bv8, big: bool) returns (ret: int)
      requires Shaped() && nBytes <= inKey.Length
      modifies this, eKey, dKey
      ensures var accepted := (nBytes == 16 || nBytes == 24 || nBytes == 32) && !NoDirection(f);
        if accepted then
          && ret == AES_GOOD && mode == NewMode(old(mode), f) && Keyed(KeyWords(inKey[..nBytes], big))
          && nKey == nBytes / 4 && RoundsFor(8 * nBytes, nRnd)
        else
          && unchanged(eKey) && unchanged(dKey) && nKey == old(nKey) && nRnd == old(nRnd)
          && mode == (if nBytes == 0 then old(mode) else old(mode) & 0xfc)
          && ret == (if nBytes == 0 then 4 * nKey else AES_BAD)
    {
      hide NewMode, NoDirection, ForDecryption;
      if nBytes % 8 != 0 || nBytes < 16 || nBytes > 32 || NoDirection(f) {
        if nBytes == 0 {
          ret := 4 * nKey;
        } else {
          mode := mode & 0xfc;
          ret := AES_BAD;
        }
      } else {
        ghost var key := KeyWords(inKey[..nBytes], big);
        assert |key| == nBytes / 4 && KeySize(|key|);
        hide Expand, WordIn, InvRoundKey, Expanded, DecKeyed, KeyWords;
        NewModeBits(mode, f);
        mode := NewMode(mode, f);
        nKey := nBytes / 4;
        nRnd := Rounds(nKey);
        LoadAndExpand(inKey, nBytes, big, key);
        if ForDecryption(mode) {
          Reverse(key);
        }
        ret := AES_GOOD;
      }
    }

    lemma KeyLoaded(key: seq<bv32>)
      requires Shaped() && KeySize(|key|) && forall j :: 0 <= j < |key| ==> eKey[j] == key[j]
      ensures Expanded(key, |key|)
    {
    }

    /** One `round(fwd_rnd, ...)` with the key words at `kp` is one full round. */
    lemma FwdStep(key: seq<bv32>, x: State, i: nat, kp: nat)
      requires Keyed(key) && i + 1 <= nRnd && kp == 4 * (i + 1)
      ensures FwdRnd(Forward(key, x, i), RoundAt(eKey, kp)) == Forward(key, x, i + 1)
    {
      hide FwdRnd, Mix, SubShift, AddKey, Expand;
      assert RoundAt(eKey, kp) == RoundKey(key, i + 1);
      FwdRndIs(Forward(key, x, i), RoundKey(key, i + 1));
    }

    /** The decryption schedule is that of `key`. */
    ghost predicate DecKeyed(key: seq<bv32>)
      reads this, dKey
    {
      && Shaped() && KeySize(|key|) && nRnd == Rounds(|key|)
      && forall i :: 0 <= i <= nRnd ==> RoundAt(dKey, 4 * i) == InvRoundKey(key, i)
    }

    /** One `round(inv_rnd, ...)` likewise. */
    lemma InvStep(key: seq<bv32>, x: State, i: nat, kp: nat)
      requires DecKeyed(key) && i + 1 <= nRnd && kp == 4 * (i + 1)
      ensures InvRnd(Backward(key, x, i), RoundAt(dKey, kp)) == Backward(key, x, i + 1)
    {
      hide InvRnd, InvMix, InvSubShift, AddKey, Expand, InvRoundKey;
      assert RoundAt(dKey, kp) == RoundAt(dKey, 4 * (i + 1)) == InvRoundKey(key, i + 1);
      InvRndIs(Backward(key, x, i), InvRoundKey(key, i + 1));
    }

    lemma FirstEncKey(key: seq<bv32>, x: State)
      requires Keyed(key)
      ensures AddKey(x, RoundAt(eKey, 0)) == Forward(key, x, 0)
    {
      hide AddKey, Expand;
      assert RoundAt(eKey, 0) == RoundKey(key, 0);
    }

    lemma FirstDecKey(key: seq<bv32>, x: State)
      requires DecKeyed(key)
      ensures AddKey(x, RoundAt(dKey, 0)) == Backward(key, x, 0)
    {
      hide AddKey, Expand, InvRoundKey;
      assert RoundAt(dKey, 4 * 0) == InvRoundKey(key, 0);
    }

    lemma LastEncKey(key: seq<bv32>, x: State, k: nat)
      requires Keyed(key) && k == 4 * nRnd
      ensures FwdLrnd(Forward(key, x, nRnd - 1), RoundAt(eKey, k)) == Cipher(key, x)
    {
      hide FwdLrnd, AddKey, SubShift, Forward, Expand;
      assert RoundAt(eKey, k) == RoundKey(key, nRnd);
      FwdLrndIs(Forward(key, x, nRnd - 1), RoundAt(eKey, k));
    }

    lemma LastDecKey(key: seq<bv32>, x: State, k: nat)
      requires DecKeyed(key) && k == 4 * nRnd
      ensures InvLrnd(Backward(key, x, nRnd - 1), RoundAt(dKey, k)) == InvCipher(key, x)
    {
      hide InvLrnd, AddKey, InvSubShift, Backward, Expand, InvRoundKey;
      assert RoundAt(dKey, k) == RoundAt(dKey, 4 * nRnd) == InvRoundKey(key, nRnd);
      InvLrndIs(Backward(key, x, nRnd - 1), RoundAt(dKey, k));
    }

    /** `state_out`. */
    static method StoreBlock(outBlk: array<bv8>, b: Block)
      requires outBlk.Length >= 16
      modifies outBlk
      ensures outBlk[..16] == b && outBlk[16..] == old(outBlk[16..])
    {
      for c := 0 to 16
        invariant outBlk[..c] == b[..c] && outBlk[16..] == old(outBlk[16..])
      {
        outBlk[c] := b[c];
      }
    }

    /** The unrolled rounds of `encrypt`; the cases fall through. */
    method EncRounds(b: State, ghost key: seq<bv32>, ghost x: State) returns (b0: State)
      requires Keyed(key) && b == Forward(key, x, 0)
      ensures b0 == Cipher(key, x)
    {
      hide FwdRnd, FwdLrnd, Expand, Forward, Cipher, RoundAt, RoundKey;
      b0 := b;
      var kp := 4;
      ghost var i := 0;
      if nRnd == 14 {
        b0 := TwoEncRounds(b0, kp, key, x, i);
        kp, i := kp + 8, i + 2;
      }
      if nRnd == 14 || nRnd == 12 {
        b0 := TwoEncRounds(b0, kp, key, x, i);
        kp, i := kp + 8, i + 2;
      }
      b0 := TwoEncRounds(b0, kp, key, x, i);
      b0 := TwoEncRounds(b0, kp + 8, key, x, i + 2);
      b0 := TwoEncRounds(b0, kp + 16, key, x, i + 4);
      b0 := TwoEncRounds(b0, kp + 24, key, x, i + 6);
      FwdStep(key, x, i + 8, kp + 32);
      var b1 := FwdRnd(b0, RoundAt(eKey, kp + 32));
      LastEncKey(key, x, kp + 36);
      b0 := FwdLrnd(b1, RoundAt(eKey, kp + 36));
    }

    /** Two rounds, from the first block of variables to the second and back. */
    method TwoEncRounds(b: State, kp: nat, ghost key: seq<bv32>, ghost x: State, ghost i: nat) returns (b0: State)
      requires Keyed(key) && i + 2 <= nRnd && kp == 4 * (i + 1) && b == Forward(key, x, i)
      ensures b0 == Forward(key, x, i + 2)
    {
      hide FwdRnd, FwdLrnd, Expand, Forward, Cipher, RoundAt, RoundKey;
      FwdStep(key, x, i, kp);
      FwdStep(key, x, i + 1, kp + 4);
      var b1 := FwdRnd(b, RoundAt(eKey, kp));
      b0 := FwdRnd(b1, RoundAt(eKey, kp + 4));
    }

    /** The unrolled rounds of `decrypt`. */
    method DecRounds(b: State, ghost key: seq<bv32>, ghost x: State) returns (b0: State)
      requires DecKeyed(key) && b == Backward(key, x, 0)
      ensures b0 == InvCipher(key, x)
    {
      hide InvRnd, InvLrnd, Expand, Backward, InvCipher, RoundAt, InvRoundKey;
      b0 := b;
      var kp := 4;
      ghost var i := 0;
      if nRnd == 14 {
        b0 := TwoDecRounds(b0, kp, key, x, i);
        kp, i := kp + 8, i + 2;
      }
      if nRnd == 14 || nRnd == 12 {
        b0 := TwoDecRounds(b0, kp, key, x, i);
        kp, i := kp + 8, i + 2;
      }
      b0 := TwoDecRounds(b0, kp, key, x, i);
      b0 := TwoDecRounds(b0, kp + 8, key, x, i + 2);
      b0 := TwoDecRounds(b0, kp + 16, key, x, i + 4);
      b0 := TwoDecRounds(b0, kp + 24, key, x, i + 6);
      InvStep(key, x, i + 8, kp + 32);
      var b1 := InvRnd(b0, RoundAt(dKey, kp + 32));
      LastDecKey(key, x, kp + 36);
      b0 := InvLrnd(b1, RoundAt(dKey, kp + 36));
    }

    /** Two rounds, from the first block of variables to the second and back. */
    method TwoDecRounds(b: State, kp: nat, ghost key: seq<bv32>, ghost x: State, ghost i: nat) returns (b0: State)
      requires DecKeyed(key) && i + 2 <= nRnd && kp == 4 * (i + 1) && b == Backward(key, x, i)
      ensures b0 == Backward(key, x, i + 2)
    {
      hide InvRnd, InvLrnd, Expand, Backward, InvCipher, RoundAt, InvRoundKey;
      InvStep(key, x, i, kp);
      InvStep(key, x, i + 1, kp + 4);
      var b1 := InvRnd(b, RoundAt(dKey, kp));
      b0 := InvRnd(b1, RoundAt(dKey, kp + 4));
    }

    /** `encrypt`. */
    method Encrypt(inBlk: array<bv8>, outBlk: array<bv8>, big: bool, ghost key: seq<bv32>) returns (ret: int)
      requires mode & 1 != 0 ==> Keyed(key)
      requires inBlk.Length >= 16 && outBlk.Length >= 16
      modifies outBlk
      ensures mode & 1 == 0 ==> ret == AES_BAD && unchanged(outBlk)
      ensures mode & 1 != 0 ==>
        && ret == AES_GOOD && outBlk[..16] == EncryptBlock(key, old(inBlk[..16]), big)
        && EnciphersTo(key, nRnd, old(inBlk[..16]), outBlk[..16], big)
        && outBlk[16..] == old(outBlk[16..])
    {
      hide AddKey, Expand, StateIn, StateOut, InvRoundKey, Cipher, InvCipher, RoundAt;
      if mode & 1 == 0 {
        ret := AES_BAD;
      } else {
        ghost var x := StateIn(inBlk[..16], big);
        var b0 := AddKey(StateIn(inBlk[..16], big), RoundAt(eKey, 0));
        FirstEncKey(key, x);
        b0 := EncRounds(b0, key, x);
        CipherIsFold(key, x, nRnd);
        StoreBlock(outBlk, StateOut(b0, big));
        ret := AES_GOOD;
      }
    }

    /** `decrypt`. */
    method Decrypt(inBlk: array<bv8>, outBlk: array<bv8>, big: bool, ghost key: seq<bv32>) returns (ret: int)
      requires mode & 2 != 0 ==> DecKeyed(key)
      requires inBlk.Length >= 16 && outBlk.Length >= 16
      modifies outBlk
      ensures mode & 2 == 0 ==> ret == AES_BAD && unchanged(outBlk)
      ensures mode & 2 != 0 ==>
        && ret == AES_GOOD && outBlk[..16] == DecryptBlock(key, old(inBlk[..16]), big)
        && outBlk[16..] == old(outBlk[16..])
    {
      hide AddKey, Expand, StateIn, StateOut, InvRoundKey, Cipher, InvCipher, RoundAt;
      if mode & 2 == 0 {
        ret := AES_BAD;
      } else {
        ghost var x := StateIn(inBlk[..16], big);
        var b0 := AddKey(StateIn(inBlk[..16], big), RoundAt(dKey, 0));
        FirstDecKey(key, x);
        b0 := DecRounds(b0, key, x);
        StoreBlock(outBlk, StateOut(b0, big));
        ret := AES_GOOD;
      }
    }
  }
}
