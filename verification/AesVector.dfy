/**
 The example of Appendix C.3 of FIPS 197: for the key 00 01 .. 1f and the block 00 11 .. ff the expanded words and the
 state after each of the fourteen rounds are as printed there, and so is the block they give.
 */
module AesVector {
  import opened AesTables
  import opened Aes

  const KEY: seq<bv8> := [
    0x00, 0x01, 0x02, 0x03, 0x04, 0x05, 0x06, 0x07, 0x08, 0x09, 0x0a, 0x0b, 0x0c, 0x0d, 0x0e, 0x0f,
    0x10, 0x11, 0x12, 0x13, 0x14, 0x15, 0x16, 0x17, 0x18, 0x19, 0x1a, 0x1b, 0x1c, 0x1d, 0x1e, 0x1f]
  const PLAIN: Block := [
    0x00, 0x11, 0x22, 0x33, 0x44, 0x55, 0x66, 0x77, 0x88, 0x99, 0xaa, 0xbb, 0xcc, 0xdd, 0xee, 0xff]
  const CIPHER: Block := [
    0x8e, 0xa2, 0xb7, 0xca, 0x51, 0x67, 0x45, 0xbf, 0xea, 0xfc, 0x49, 0x90, 0x4b, 0x49, 0x60, 0x89]

  /** The round keys. */
  function KeyAt(i: nat): State {
    match i
    case 0 => State(0x03020100, 0x07060504, 0x0b0a0908, 0x0f0e0d0c)
    case 1 => State(0x13121110, 0x17161514, 0x1b1a1918, 0x1f1e1d1c)
    case 2 => State(0x9fc273a5, 0x98c476a1, 0x93ce7fa9, 0x9cc072a5)
    case 3 => State(0xcda85116, 0xdabe4402, 0xc1a45d1a, 0xdeba4006)
    case 4 => State(0xf0df87ae, 0x681bf10f, 0xfbd58ea6, 0x6715fc03)
    case 5 => State(0x48f1e16d, 0x924fa56f, 0x53ebf875, 0x8d51b873)
    case 6 => State(0x7f8256c6, 0x1799a7c9, 0xec4c296f, 0x8b59d56c)
    case 7 => State(0x753ae23d, 0xe7754752, 0xb49ebf27, 0x39cf0754)
    case 8 => State(0x5f90dc0b, 0x48097bc2, 0xa44552ad, 0x2f1c87c1)
    case 9 => State(0x60a6f545, 0x87d3b217, 0x334d0d30, 0x0a820a64)
    case 10 => State(0x1cf7cf7c, 0x54feb4be, 0xf0bbe613, 0xdfa761d2)
    case 11 => State(0xfefa1af0, 0x7929a8e7, 0x4a64a5d7, 0x40e6afb3)
    case 12 => State(0x71fe4125, 0x2500f59b, 0xd5bb1388, 0x0a1c725a)
    case 13 => State(0x99665a4e, 0xe04ff2a9, 0xaa2b577e, 0xeacdf8cd)
    case _ => State(0xcc79fc24, 0xe97909bf, 0x3cc21a37, 0x36de686d)
  }

  /** The states at the start of round `i + 1`. */
  function StateAt(i: nat): State {
    match i
    case 0 => State(0x30201000, 0x70605040, 0xb0a09080, 0xf0e0d0c0)
    case 1 => State(0x0676634f, 0x85aae043, 0x3221a7ef, 0x05e7a401)
    case 2 => State(0xc2fb5918, 0xa0001c8a, 0xad8aed78, 0x09612fc4)
    case 3 => State(0xc1665c97, 0xa83f9fcb, 0xdf283aa9, 0x630fe18e)
    case 4 => State(0x71f2051c, 0x4fe017a4, 0xc1c521f9, 0x54157004)
    case 5 => State(0xe1aa57c3, 0xb0b7451b, 0x28bdc7a2, 0xfa99dca8)
    case 6 => State(0x4341077f, 0x3e244ecb, 0x5d810cc1, 0x4cd57583)
    case 7 => State(0x69a453d6, 0x0fbca06c, 0x5dabca5a, 0x7d5e6cb9)
    case 8 => State(0x3958a85a, 0x7d8dd25f, 0x88a3e105, 0xc5b9f368)
    case 9 => State(0x5148824a, 0x477e7ec5, 0x0ce53d64, 0xc9e8f32a)
    case 10 => State(0xf60749c1, 0xa03a3bca, 0x31aae970, 0xecb5523b)
    case 11 => State(0xbf6a9c5f, 0xaa34c6ba, 0xa79f4050, 0x53766766)
    case 12 => State(0x95046651, 0x03955343, 0xe486fb14, 0x21259201)
    case 13 => State(0xb9ce7b62, 0xaa5a9d99, 0xf4ec45c9, 0xa56df523)
    case _ => State(0xcab7a28e, 0xbf456751, 0x9049fcea, 0x8960494b)
  }

  // ---------- the key schedule ----------

  lemma Words1()
    ensures |KeyWords(KEY, false)| == 8
    ensures var key := KeyWords(KEY, false); RoundKey(key, 2) == KeyAt(2) && RoundKey(key, 3) == KeyAt(3)
  {
    hide Expand, SBox, SubWord, RotWord, LsBox0, LsBox3, KeyWords, KEY;
    var key := KeyWords(KEY, false);
    FirstKey();
    SecondKey();
    Stretch8(key, 0);
    LsBoxIs(KeyAt(1).c3);
    LsBoxIs(KeyAt(2).c3);
    Substituted1();
  }

  lemma Substituted1()
    ensures SubWord(RotWord(0x1f1e1d1c)) == 0x9cc072a4 && SubWord(0x9cc072a5) == 0xdeba4006
  {
  }

  lemma Words2()
    ensures |KeyWords(KEY, false)| == 8
    ensures var key := KeyWords(KEY, false); RoundKey(key, 4) == KeyAt(4) && RoundKey(key, 5) == KeyAt(5)
  {
    hide Expand, SBox, SubWord, RotWord, LsBox0, LsBox3, KeyWords, KEY;
    var key := KeyWords(KEY, false);
    Words1();
    Stretch8(key, 1);
    LsBoxIs(KeyAt(3).c3);
    LsBoxIs(KeyAt(4).c3);
    Substituted2();
  }

  lemma Substituted2()
    ensures SubWord(RotWord(0xdeba4006)) == 0x6f1df409 && SubWord(0x6715fc03) == 0x8559b07b
  {
  }

  lemma Words3()
    ensures |KeyWords(KEY, false)| == 8
    ensures var key := KeyWords(KEY, false); RoundKey(key, 6) == KeyAt(6) && RoundKey(key, 7) == KeyAt(7)
  {
    hide Expand, SBox, SubWord, RotWord, LsBox0, LsBox3, KeyWords, KEY;
    var key := KeyWords(KEY, false);
    Words2();
    Stretch8(key, 2);
    LsBoxIs(KeyAt(5).c3);
    LsBoxIs(KeyAt(6).c3);
    Substituted3();
  }

  lemma Substituted3()
    ensures SubWord(RotWord(0x8d51b873)) == 0x8f5dd16c && SubWord(0x8b59d56c) == 0x3dcb0350
  {
  }

  lemma Words4()
    ensures |KeyWords(KEY, false)| == 8
    ensures var key := KeyWords(KEY, false); RoundKey(key, 8) == KeyAt(8) && RoundKey(key, 9) == KeyAt(9)
  {
    hide Expand, SBox, SubWord, RotWord, LsBox0, LsBox3, KeyWords, KEY;
    var key := KeyWords(KEY, false);
    Words3();
    Stretch8(key, 3);
    LsBoxIs(KeyAt(7).c3);
    LsBoxIs(KeyAt(8).c3);
    Substituted4();
  }

  lemma Substituted4()
    ensures SubWord(RotWord(0x39cf0754)) == 0x20128ac5 && SubWord(0x2f1c87c1) == 0x159c1778
  {
  }

  lemma Words5()
    ensures |KeyWords(KEY, false)| == 8
    ensures var key := KeyWords(KEY, false); RoundKey(key, 10) == KeyAt(10) && RoundKey(key, 11) == KeyAt(11)
  {
    hide Expand, SBox, SubWord, RotWord, LsBox0, LsBox3, KeyWords, KEY;
    var key := KeyWords(KEY, false);
    Words4();
    Stretch8(key, 4);
    LsBoxIs(KeyAt(9).c3);
    LsBoxIs(KeyAt(10).c3);
    Substituted5();
  }

  lemma Substituted5()
    ensures SubWord(RotWord(0x0a820a64)) == 0x43671367 && SubWord(0xdfa761d2) == 0x9e5cefb5
  {
  }

  lemma Words6()
    ensures |KeyWords(KEY, false)| == 8
    ensures var key := KeyWords(KEY, false); RoundKey(key, 12) == KeyAt(12) && RoundKey(key, 13) == KeyAt(13)
  {
    hide Expand, SBox, SubWord, RotWord, LsBox0, LsBox3, KeyWords, KEY;
    var key := KeyWords(KEY, false);
    Words5();
    Stretch8(key, 5);
    LsBoxIs(KeyAt(11).c3);
    LsBoxIs(KeyAt(12).c3);
    Substituted6();
  }

  lemma Substituted6()
    ensures SubWord(RotWord(0x40e6afb3)) == 0x6d098e79 && SubWord(0x0a1c725a) == 0x679c40be
  {
  }

  lemma Words7()
    ensures |KeyWords(KEY, false)| == 8
    ensures var key := KeyWords(KEY, false); RoundKey(key, 14) == KeyAt(14)
  {
    hide Expand, SBox, SubWord, RotWord, LsBox0, LsBox3, KeyWords, KEY;
    var key := KeyWords(KEY, false);
    Words6();
    Stretch8(key, 6);
    LsBoxIs(KeyAt(13).c3);
    LsBoxIs(KeyAt(14).c3);
    Substituted7();
  }

  lemma Substituted7()
    ensures SubWord(RotWord(0xeacdf8cd)) == 0xbd87bd41 && SubWord(0x36de686d) == 0x051d453c
  {
  }

  lemma WordOfKey(i: nat)
    requires i < 8
    ensures |KeyWords(KEY, false)| == 8 && Expand(KeyWords(KEY, false), i) == WordIn(KEY[4 * i], KEY[4 * i + 1], KEY[4 * i + 2], KEY[4 * i + 3], false)
  {
    hide WordIn, KEY;
    KeyLength();
    WordAt(KEY, i);
  }

  lemma KeyLength()
    ensures |KEY| == 32
  {
  }

  lemma WordAt(k: seq<bv8>, i: nat)
    requires |k| == 32 && i < 8
    ensures |KeyWords(k, false)| == 8 && Expand(KeyWords(k, false), i) == WordIn(k[4 * i], k[4 * i + 1], k[4 * i + 2], k[4 * i + 3], false)
  {
    hide WordIn;
  }

  lemma FirstKey()
    ensures |KeyWords(KEY, false)| == 8 && RoundKey(KeyWords(KEY, false), 0) == KeyAt(0)
  {
    hide KeyWords, Expand;
    WordOfKey(0);
    WordOfKey(1);
    WordOfKey(2);
    WordOfKey(3);
  }

  lemma SecondKey()
    ensures |KeyWords(KEY, false)| == 8 && RoundKey(KeyWords(KEY, false), 1) == KeyAt(1)
  {
    hide KeyWords, Expand;
    WordOfKey(4);
    WordOfKey(5);
    WordOfKey(6);
    WordOfKey(7);
  }

  /** The key schedule gives the fifteen round keys of the example. */
  lemma Keys(i: nat)
    requires i <= 14
    ensures |KeyWords(KEY, false)| == 8 && RoundKey(KeyWords(KEY, false), i) == KeyAt(i)
  {
    hide KeyWords, RoundKey, KeyAt;
    var key := KeyWords(KEY, false);
    FirstKey();
    SecondKey();
    Words1();
    Words2();
    Words3();
    Words4();
    Words5();
    Words6();
    Words7();
  }

  // ---------- the rounds ----------

  lemma Round1()
    ensures AddKey(Mix(SubShift(State(0x30201000, 0x70605040, 0xb0a09080, 0xf0e0d0c0))),
                   State(0x13121110, 0x17161514, 0x1b1a1918, 0x1f1e1d1c))
         == State(0x0676634f, 0x85aae043, 0x3221a7ef, 0x05e7a401)
  {
  }

  lemma Round2()
    ensures AddKey(Mix(SubShift(State(0x0676634f, 0x85aae043, 0x3221a7ef, 0x05e7a401))),
                   State(0x9fc273a5, 0x98c476a1, 0x93ce7fa9, 0x9cc072a5))
         == State(0xc2fb5918, 0xa0001c8a, 0xad8aed78, 0x09612fc4)
  {
  }

  lemma Round3()
    ensures AddKey(Mix(SubShift(State(0xc2fb5918, 0xa0001c8a, 0xad8aed78, 0x09612fc4))),
                   State(0xcda85116, 0xdabe4402, 0xc1a45d1a, 0xdeba4006))
         == State(0xc1665c97, 0xa83f9fcb, 0xdf283aa9, 0x630fe18e)
  {
  }

  lemma Round4()
    ensures AddKey(Mix(SubShift(State(0xc1665c97, 0xa83f9fcb, 0xdf283aa9, 0x630fe18e))),
                   State(0xf0df87ae, 0x681bf10f, 0xfbd58ea6, 0x6715fc03))
         == State(0x71f2051c, 0x4fe017a4, 0xc1c521f9, 0x54157004)
  {
  }

  lemma Round5()
    ensures AddKey(Mix(SubShift(State(0x71f2051c, 0x4fe017a4, 0xc1c521f9, 0x54157004))),
                   State(0x48f1e16d, 0x924fa56f, 0x53ebf875, 0x8d51b873))
         == State(0xe1aa57c3, 0xb0b7451b, 0x28bdc7a2, 0xfa99dca8)
  {
  }

  lemma Round6()
    ensures AddKey(Mix(SubShift(State(0xe1aa57c3, 0xb0b7451b, 0x28bdc7a2, 0xfa99dca8))),
                   State(0x7f8256c6, 0x1799a7c9, 0xec4c296f, 0x8b59d56c))
         == State(0x4341077f, 0x3e244ecb, 0x5d810cc1, 0x4cd57583)
  {
  }

  lemma Round7()
    ensures AddKey(Mix(SubShift(State(0x4341077f, 0x3e244ecb, 0x5d810cc1, 0x4cd57583))),
                   State(0x753ae23d, 0xe7754752, 0xb49ebf27, 0x39cf0754))
         == State(0x69a453d6, 0x0fbca06c, 0x5dabca5a, 0x7d5e6cb9)
  {
  }

  lemma Round8()
    ensures AddKey(Mix(SubShift(State(0x69a453d6, 0x0fbca06c, 0x5dabca5a, 0x7d5e6cb9))),
                   State(0x5f90dc0b, 0x48097bc2, 0xa44552ad, 0x2f1c87c1))
         == State(0x3958a85a, 0x7d8dd25f, 0x88a3e105, 0xc5b9f368)
  {
  }

  lemma Round9()
    ensures AddKey(Mix(SubShift(State(0x3958a85a, 0x7d8dd25f, 0x88a3e105, 0xc5b9f368))),
                   State(0x60a6f545, 0x87d3b217, 0x334d0d30, 0x0a820a64))
         == State(0x5148824a, 0x477e7ec5, 0x0ce53d64, 0xc9e8f32a)
  {
  }

  lemma Round10()
    ensures AddKey(Mix(SubShift(State(0x5148824a, 0x477e7ec5, 0x0ce53d64, 0xc9e8f32a))),
                   State(0x1cf7cf7c, 0x54feb4be, 0xf0bbe613, 0xdfa761d2))
         == State(0xf60749c1, 0xa03a3bca, 0x31aae970, 0xecb5523b)
  {
  }

  lemma Round11()
    ensures AddKey(Mix(SubShift(State(0xf60749c1, 0xa03a3bca, 0x31aae970, 0xecb5523b))),
                   State(0xfefa1af0, 0x7929a8e7, 0x4a64a5d7, 0x40e6afb3))
         == State(0xbf6a9c5f, 0xaa34c6ba, 0xa79f4050, 0x53766766)
  {
  }

  lemma Round12()
    ensures AddKey(Mix(SubShift(State(0xbf6a9c5f, 0xaa34c6ba, 0xa79f4050, 0x53766766))),
                   State(0x71fe4125, 0x2500f59b, 0xd5bb1388, 0x0a1c725a))
         == State(0x95046651, 0x03955343, 0xe486fb14, 0x21259201)
  {
  }

  lemma Round13()
    ensures AddKey(Mix(SubShift(State(0x95046651, 0x03955343, 0xe486fb14, 0x21259201))),
                   State(0x99665a4e, 0xe04ff2a9, 0xaa2b577e, 0xeacdf8cd))
         == State(0xb9ce7b62, 0xaa5a9d99, 0xf4ec45c9, 0xa56df523)
  {
  }

  lemma FullRound(i: nat)
    requires 1 <= i <= 13
    ensures AddKey(Mix(SubShift(StateAt(i - 1))), KeyAt(i)) == StateAt(i)
  {
    hide AddKey, Mix, SubShift;
    match i
    case 1 => Round1();
    case 2 => Round2();
    case 3 => Round3();
    case 4 => Round4();
    case 5 => Round5();
    case 6 => Round6();
    case 7 => Round7();
    case 8 => Round8();
    case 9 => Round9();
    case 10 => Round10();
    case 11 => Round11();
    case 12 => Round12();
    case _ => Round13();
  }

  lemma {:induction false} Rounds(i: nat)
    requires i <= 13
    ensures |KeyWords(KEY, false)| == 8 && Forward(KeyWords(KEY, false), StateIn(PLAIN, false), i) == StateAt(i)
  {
    hide KeyWords, RoundKey, KeyAt, StateAt, StateIn, AddKey, Mix, SubShift;
    Keys(i);
    if i == 0 {
      FirstState();
    } else {
      Rounds(i - 1);
      FullRound(i);
    }
  }

  lemma FirstState()
    ensures AddKey(StateIn(PLAIN, false), KeyAt(0)) == StateAt(0)
  {
  }

  lemma LastState()
    ensures AddKey(SubShift(StateAt(13)), KeyAt(14)) == StateAt(14)
  {
    hide AddKey, SubShift;
    LastRound();
  }

  lemma LastRound()
    ensures AddKey(SubShift(State(0xb9ce7b62, 0xaa5a9d99, 0xf4ec45c9, 0xa56df523)), State(0xcc79fc24, 0xe97909bf, 0x3cc21a37, 0x36de686d)) == State(0xcab7a28e, 0xbf456751, 0x9049fcea, 0x8960494b)
  {
  }

  lemma LastBlock()
    ensures StateIn(CIPHER, false) == StateAt(14)
  {
  }

  /** The example: this key turns this block into that one. */
  lemma Example()
    ensures |KeyWords(KEY, false)| == 8 && EncryptBlock(KeyWords(KEY, false), PLAIN, false) == CIPHER
  {
    hide KeyWords, RoundKey, KeyAt, StateAt, StateIn, StateOut, AddKey, SubShift, Forward;
    Rounds(13);
    Keys(14);
    LastState();
    LastBlock();
    StateOutIn(CIPHER, false);
  }
}
