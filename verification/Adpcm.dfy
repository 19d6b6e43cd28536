/**
 The ADPCM codec of `adpcm/src/adpcm.c`: sixteen-bit samples against four-bit codes, two to a byte.
 Coder and decoder keep the same prediction and the same step size, and so stay in lockstep.
 */
module Adpcm {
  const INDEX_TABLE: seq<int> := [-1, -1, -1, -1, 2, 4, 6, 8, -1, -1, -1, -1, 2, 4, 6, 8]

  /** A step size. */
  type Step = x: int | 7 <= x <= 32767 witness 7

  /** The table of step sizes, in three parts. */
  const STEPSIZE_TABLE: seq<Step> := SMALL_STEPS + MIDDLE_STEPS + LARGE_STEPS

  const SMALL_STEPS: seq<Step> := [
    7, 8, 9, 10, 11, 12, 13, 14, 16, 17,
    19, 21, 23, 25, 28, 31, 34, 37, 41, 45,
    50, 55, 60, 66, 73, 80, 88, 97, 107, 118]

  const MIDDLE_STEPS: seq<Step> := [
    130, 143, 157, 173, 190, 209, 230, 253, 279, 307,
    337, 371, 408, 449, 494, 544, 598, 658, 724, 796,
    876, 963, 1060, 1166, 1282, 1411, 1552, 1707, 1878, 2066]

  const LARGE_STEPS: seq<Step> := [
    2272, 2499, 2749, 3024, 3327, 3660, 4026, 4428, 4871, 5358,
    5894, 6484, 7132, 7845, 8630, 9493, 10442, 11487, 12635, 13899,
    15289, 16818, 18500, 20350, 22385, 24623, 27086, 29794, 32767]

  predicate Short(x: int) { -32768 <= x <= 32767 }

  /** What both sides remember: the predicted sample and the place in the step table. */
  datatype Memory = Memory(valpred: int, index: int)

  predicate Ok(m: Memory) { Short(m.valpred) && 0 <= m.index <= 88 }

  function StepSize(index: int): Step
    requires 0 <= index <= 88
  {
    STEPSIZE_TABLE[index]
  }

  function Clamp(x: int): int {
    if x > 32767 then 32767 else if x < -32768 then -32768 else x
  }

  function NextIndex(index: int, code: int): (r: int)
    requires 0 <= code < 16 && 0 <= index <= 88
    ensures 0 <= r <= 88
  {
    var i := index + INDEX_TABLE[code];
    if i < 0 then 0 else if i > 88 then 88 else i
  }

  // ---------- one sample ----------

  /** The three bits for a difference, found by subtracting the step, its half and its quarter where they fit. */
  function Magnitude(diff: nat, step: Step): (code: int)
    ensures 0 <= code < 8
  {
    var b4 := diff >= step;
    var d4 := if b4 then diff - step else diff;
    var b2 := d4 >= step / 2;
    var d2 := if b2 then d4 - step / 2 else d4;
    (if b4 then 4 else 0) + (if b2 then 2 else 0) + (if d2 >= step / 2 / 2 then 1 else 0)
  }

  /** The code of a sample: a sign bit and the magnitude. */
  function Code(m: Memory, val: int): (code: int)
    requires Ok(m)
    ensures 0 <= code < 16
  {
    var diff := val - m.valpred;
    (if diff < 0 then 8 else 0) + Magnitude(if diff < 0 then -diff else diff, StepSize(m.index))
  }

  /** How far a code moves the prediction. */
  function Distance(code: int, step: Step): (r: nat)
    requires 0 <= code < 16
  {
    step / 8 + (if code / 4 % 2 == 1 then step else 0) + (if code / 2 % 2 == 1 then step / 2 else 0)
    + (if code % 2 == 1 then step / 4 else 0)
  }

  /** What the decoder does with a code. */
  function Follow(m: Memory, code: int): (r: Memory)
    requires Ok(m) && 0 <= code < 16
    ensures Ok(r)
  {
    var d := Distance(code, StepSize(m.index));
    Memory(Clamp(if code >= 8 then m.valpred - d else m.valpred + d), NextIndex(m.index, code))
  }

  /** Clamping takes the nearest sample. */
  lemma ClampIsNearest(x: int, y: int)
    requires Short(y)
    ensures Short(Clamp(x)) && (Clamp(x) <= x ==> y <= Clamp(x) || x <= y) && (x <= Clamp(x) ==> Clamp(x) <= y || y <= x)
  {
  }

  /** The step goes back one place for the four small magnitudes, and on by two, four, six or eight for the others. */
  lemma IndexMoves(index: int, code: int)
    requires 0 <= code < 16 && 0 <= index <= 88
    ensures var m := code % 8;
      var i := if m < 4 then index - 1 else index + 2 * (m - 3);
      NextIndex(index, code) == if i < 0 then 0 else if i > 88 then 88 else i
  {
    match code
    case 0 | 1 | 2 | 3 | 8 | 9 | 10 | 11 =>
    case 4 | 12 =>
    case 5 | 13 =>
    case 6 | 14 =>
    case _ =>
  }

  /** The steps grow by a tenth from place to place, but for rounding, from 7 to the largest sample. */
  lemma StepsGrow(i: int)
    requires 0 <= i < 88
    ensures StepSize(0) == 7 && StepSize(88) == 32767 && StepSize(i) < StepSize(i + 1)
    ensures i < 87 ==> -10 <= 10 * StepSize(i + 1) as int - 11 * StepSize(i) as int <= 10
  {
    StepEnds();
    if i < 29 { SmallGrow(i); }
    if 30 <= i < 59 { MiddleGrow(i - 30); }
    if 60 <= i { LargeGrow(i - 60); }
    hide SMALL_STEPS, MIDDLE_STEPS, LARGE_STEPS;
  }

  lemma StepEnds()
    ensures |SMALL_STEPS| == 30 && SMALL_STEPS[0] == 7 && SMALL_STEPS[29] == 118
    ensures |MIDDLE_STEPS| == 30 && MIDDLE_STEPS[0] == 130 && MIDDLE_STEPS[29] == 2066
    ensures |LARGE_STEPS| == 29 && LARGE_STEPS[0] == 2272 && LARGE_STEPS[28] == 32767
  {
  }

  lemma SmallGrow(i: int)
    requires 0 <= i < 29
    ensures |SMALL_STEPS| == 30 && SMALL_STEPS[i] < SMALL_STEPS[i + 1] && -10 <= 10 * SMALL_STEPS[i + 1] as int - 11 * SMALL_STEPS[i] as int <= 10
  {
    match i
    case 0 => case 1 => case 2 => case 3 => case 4 => case 5 => case 6 => case 7 =>
    case 8 => case 9 => case 10 => case 11 => case 12 => case 13 => case 14 => case 15 =>
    case 16 => case 17 => case 18 => case 19 => case 20 => case 21 => case 22 => case 23 =>
    case 24 => case 25 => case 26 => case 27 => case 28 => case _ =>
  }

  lemma MiddleGrow(i: int)
    requires 0 <= i < 29
    ensures |MIDDLE_STEPS| == 30 && MIDDLE_STEPS[i] < MIDDLE_STEPS[i + 1] && -10 <= 10 * MIDDLE_STEPS[i + 1] as int - 11 * MIDDLE_STEPS[i] as int <= 10
  {
    match i
    case 0 => case 1 => case 2 => case 3 => case 4 => case 5 => case 6 => case 7 =>
    case 8 => case 9 => case 10 => case 11 => case 12 => case 13 => case 14 => case 15 =>
    case 16 => case 17 => case 18 => case 19 => case 20 => case 21 => case 22 => case 23 =>
    case 24 => case 25 => case 26 => case 27 => case 28 => case _ =>
  }

  lemma LargeGrow(i: int)
    requires 0 <= i < 28
    ensures |LARGE_STEPS| == 29 && LARGE_STEPS[i] < LARGE_STEPS[i + 1] && (i < 27 ==> -10 <= 10 * LARGE_STEPS[i + 1] as int - 11 * LARGE_STEPS[i] as int <= 10)
  {
    match i
    case 0 => case 1 => case 2 => case 3 => case 4 => case 5 => case 6 => case 7 =>
    case 8 => case 9 => case 10 => case 11 => case 12 => case 13 => case 14 => case 15 =>
    case 16 => case 17 => case 18 => case 19 => case 20 => case 21 => case 22 => case 23 =>
    case 24 => case 25 => case 26 => case 27 => case _ =>
  }

  /** The code has the sign of the difference, and the greatest magnitude whose level does not pass it. */
  lemma CodeIsGreatest(m: Memory, val: int, k: int)
    requires Ok(m) && 0 <= k < 8
    ensures var diff, s := val - m.valpred, StepSize(m.index);
      && (Code(m, val) >= 8 <==> diff < 0)
      && (k <= Code(m, val) % 8 <==> Distance(k, s) - s / 8 <= if diff < 0 then -diff else diff)
  {
    var diff := val - m.valpred;
    hide Distance, Magnitude, StepSize;
    GreatestLevel(if diff < 0 then -diff else diff, StepSize(m.index), k);
  }

  lemma GreatestLevel(diff: nat, step: Step, k: int)
    requires 0 <= k < 8
    ensures k <= Magnitude(diff, step) <==> Distance(k, step) - step / 8 <= diff
  {
  }

  /** Magnitude `k` moves the prediction by `2 * k + 1` eighths of the step, less the bits cut off, and with the sign of the code. */
  lemma MovesByEighths(m: Memory, code: int)
    requires Ok(m) && 0 <= code < 16
    ensures var d, s := Distance(code, StepSize(m.index)), StepSize(m.index);
      && (2 * (code % 8) + 1) * s - 21 <= 8 * d <= (2 * (code % 8) + 1) * s
      && Follow(m, code).valpred == Clamp(if code >= 8 then m.valpred - d else m.valpred + d)
  {
    hide StepSize, Distance, NextIndex;
    Eighths(code, StepSize(m.index));
  }

  lemma Eighths(code: int, step: Step)
    requires 0 <= code < 16
    ensures (2 * (code % 8) + 1) * step - 21 <= 8 * Distance(code, step) <= (2 * (code % 8) + 1) * step
  {
    match code % 8
    case 0 => case 1 => case 2 => case 3 => case 4 => case 5 => case 6 => case _ =>
  }

  /** Within twice the step the new prediction misses the sample by at most an eighth of the step and two. */
  lemma ErrorBound(m: Memory, val: int)
    requires Ok(m) && Short(val)
    requires -2 * StepSize(m.index) < val - m.valpred < 2 * StepSize(m.index)
    ensures var e := Follow(m, Code(m, val)).valpred - val;
      var s := StepSize(m.index);
      -(s / 8 + 2) <= e <= s / 8 + 2
  {
    MagnitudeClose(if val < m.valpred then m.valpred - val else val - m.valpred, StepSize(m.index));
    SignApart(Magnitude(if val < m.valpred then m.valpred - val else val - m.valpred, StepSize(m.index)), StepSize(m.index));
  }

  lemma MagnitudeClose(diff: nat, step: Step)
    requires diff < 2 * step
    ensures -(step / 8) <= diff - Distance(Magnitude(diff, step), step) <= step / 8 + 2
  {
  }

  lemma SignApart(mag: int, step: Step)
    requires 0 <= mag < 8
    ensures Distance(8 + mag, step) == Distance(mag, step)
  {
    assert (8 + mag) / 4 % 2 == mag / 4 % 2 && (8 + mag) / 2 % 2 == mag / 2 % 2;
  }

  /** Beyond twice the step all three bits are set: the prediction makes its longest move and the step grows as fast as it can. */
  lemma OverloadCatchesUp(m: Memory, val: int)
    requires Ok(m) && Short(val)
    requires val - m.valpred >= 2 * StepSize(m.index) || m.valpred - val >= 2 * StepSize(m.index)
    ensures var r := Follow(m, Code(m, val));
      var s := StepSize(m.index);
      && r.index == (if m.index + 8 > 88 then 88 else m.index + 8)
      && (val > m.valpred ==> m.valpred < r.valpred <= val && r.valpred == Clamp(m.valpred + s / 8 + s + s / 2 + s / 4))
      && (val < m.valpred ==> val <= r.valpred < m.valpred && r.valpred == Clamp(m.valpred - s / 8 - s - s / 2 - s / 4))
  {
  }

  // ---------- a run of samples ----------

  predicate Codes(c: seq<int>) { forall i :: 0 <= i < |c| ==> 0 <= c[i] < 16 }

  /** The memory after the decoder has followed the codes. */
  function After(m: Memory, c: seq<int>): (r: Memory)
    requires Ok(m) && Codes(c)
    ensures Ok(r)
  {
    if c == [] then m else Follow(After(m, c[..|c| - 1]), c[|c| - 1])
  }

  /** The codes of a run of samples, each chosen from what the decoder will have by then. */
  function Coded(m: Memory, s: seq<int>): (c: seq<int>)
    requires Ok(m)
    ensures |c| == |s| && Codes(c)
  {
    if s == [] then [] else
      var c := Coded(m, s[..|s| - 1]);
      c + [Code(After(m, c), s[|s| - 1])]
  }

  // ---------- two codes to a byte ----------

  /** A byte as the `signed char` it is stored in. */
  function SignedChar(x: int): (r: int)
    requires 0 <= x < 256
    ensures -128 <= r < 128 && r % 256 == x
  {
    if x >= 128 then x - 256 else x
  }

  /** The bytes of a run of codes; the last of an odd run has an empty low half. */
  function Packed(c: seq<int>): (b: seq<int>)
    requires Codes(c)
    ensures |b| == (|c| + 1) / 2
  {
    seq((|c| + 1) / 2, i requires 0 <= i < (|c| + 1) / 2 =>
      SignedChar(16 * c[2 * i] + (if 2 * i + 1 < |c| then c[2 * i + 1] else 0)))
  }

  /** The code at place `k` of the bytes, as the decoder's shifts and masks take it out. */
  function CodeAt(b: seq<int>, k: nat): (c: int)
    requires k / 2 < |b|
    ensures 0 <= c < 16
  {
    if k % 2 == 0 then b[k / 2] / 16 % 16 else b[k / 2] % 16
  }

  function Unpacked(b: seq<int>, n: nat): (c: seq<int>)
    requires n <= 2 * |b|
    ensures |c| == n && Codes(c)
  {
    seq(n, k requires 0 <= k < n => CodeAt(b, k))
  }

  /** Byte `i` has the code of an even place in its upper half and that of the odd place after it, or 0, in its lower one. */
  lemma ByteHolds(c: seq<int>, i: nat)
    requires Codes(c) && 2 * i < |c|
    ensures Packed(c)[i] % 256 == 16 * c[2 * i] + if 2 * i + 1 < |c| then c[2 * i + 1] else 0
  {
  }

  lemma ByteHalves(b: int, h: int, l: int)
    requires 0 <= h < 16 && 0 <= l < 16 && b == SignedChar(16 * h + l)
    ensures b / 16 % 16 == h && b % 16 == l
  {
  }

  lemma UnpackPack(c: seq<int>)
    requires Codes(c)
    ensures Unpacked(Packed(c), |c|) == c
  {
    var b := Packed(c);
    forall k | 0 <= k < |c| ensures CodeAt(b, k) == c[k] {
      CodeKept(c, k);
    }
  }

  lemma CodeKept(c: seq<int>, k: nat)
    requires Codes(c) && k < |c|
    ensures CodeAt(Packed(c), k) == c[k]
  {
    hide SignedChar;
    var i := k / 2;
    ByteHalves(Packed(c)[i], c[2 * i], if 2 * i + 1 < |c| then c[2 * i + 1] else 0);
  }

  /** One more code: a new byte, or the second half of the last one. */
  lemma PackMore(c: seq<int>, d: int)
    requires Codes(c) && 0 <= d < 16
    ensures |c| % 2 == 0 ==> Packed(c + [d]) == Packed(c) + [SignedChar(16 * d)]
    ensures |c| % 2 == 1 ==> Packed(c + [d]) == Packed(c)[..|c| / 2] + [SignedChar(16 * c[|c| - 1] + d)]
  {
    hide SignedChar;
    var b, e := Packed(c), Packed(c + [d]);
    forall i | 0 <= i < |c| / 2 ensures e[i] == b[i] {
      assert (c + [d])[2 * i] == c[2 * i] && (c + [d])[2 * i + 1] == c[2 * i + 1];
    }
  }

  // ---------- the whole codec ----------

  /** The samples the decoder gives for a run of codes. */
  function Decoded(m: Memory, c: seq<int>): (s: seq<int>)
    requires Ok(m) && Codes(c)
    ensures |s| == |c|
  {
    seq(|c|, k requires 0 <= k < |c| => After(m, c[..k + 1]).valpred)
  }

  lemma DecodedAt(m: Memory, c: seq<int>, k: nat)
    requires Ok(m) && Codes(c) && k < |c|
    ensures After(m, c[..k + 1]) == Follow(After(m, c[..k]), c[k])
    ensures Decoded(m, c)[k] == Follow(After(m, c[..k]), c[k]).valpred
  {
    hide Follow;
    assert c[..k + 1][..k] == c[..k];
  }

  /** Every sample decoded from a run is within the bound of the one coded, as long as no difference exceeds twice the step. */
  lemma DecodedClose(m: Memory, s: seq<int>, k: nat)
    requires Ok(m) && k < |s| && (forall i :: 0 <= i < |s| ==> Short(s[i]))
    ensures var c := Unpacked(Packed(Coded(m, s)), |s|);
      var before := After(m, c[..k]);
      var step := StepSize(before.index);
      -2 * step < s[k] - before.valpred < 2 * step ==> -(step / 8 + 2) <= Decoded(m, c)[k] - s[k] <= step / 8 + 2
  {
    hide Follow, Code, Packed, Unpacked, StepSize, Decoded, Coded, After;
    var c := Coded(m, s);
    UnpackPack(c);
    CodedPrefix(m, s, k);
    DecodedAt(m, c, k);
    var before := After(m, c[..k]);
    if -2 * StepSize(before.index) < s[k] - before.valpred < 2 * StepSize(before.index) {
      ErrorBound(before, s[k]);
    }
  }

  lemma {:induction false} CodedPrefix(m: Memory, s: seq<int>, k: nat)
    requires Ok(m) && k < |s|
    ensures Coded(m, s)[..k] == Coded(m, s[..k])
    ensures Coded(m, s)[k] == Code(After(m, Coded(m, s)[..k]), s[k])
    decreases |s|
  {
    hide Code, Follow, After;
    var t := s[..|s| - 1];
    assert Coded(m, s)[..|t|] == Coded(m, t);
    if k < |t| {
      CodedPrefix(m, t, k);
      assert s[..k] == t[..k];
      assert Coded(m, s)[..k] == Coded(m, t)[..k];
    }
  }

  class State {
    var valprev: int
    var index: int

    function Kept(): Memory
      reads this
    {
      Memory(valprev, index)
    }

    constructor (valprev: int, index: int)
      ensures Kept() == Memory(valprev, index)
    {
      this.valprev, this.index := valprev, index;
    }
  }

  /** The codes written so far are in the bytes, but for an odd last one that waits in the buffer. */
  ghost predicate Buffering(c: seq<int>, b: seq<int>, buffer: int) {
    && Codes(c)
    && (|c| % 2 == 0 ==> b == Packed(c))
    && (|c| % 2 == 1 ==> buffer == 16 * c[|c| - 1] && b + [SignedChar(buffer)] == Packed(c))
  }

  lemma BufferMore(c: seq<int>, b: seq<int>, buffer: int, d: int)
    requires Buffering(c, b, buffer) && 0 <= d < 16
    ensures |c| % 2 == 0 ==> Buffering(c + [d], b, 16 * d)
    ensures |c| % 2 == 1 ==> Buffering(c + [d], b + [SignedChar(buffer + d)], buffer)
  {
    hide SignedChar;
    PackMore(c, d);
    if |c| % 2 == 1 {
      hide Packed;
      assert |b| == |c| / 2;
      assert Packed(c)[..|c| / 2] == b;
    }
  }

  method Emit(outdata: array<int>, outp: nat, b: int)
    requires outp < outdata.Length
    modifies outdata
    ensures outdata[..outp + 1] == old(outdata[..outp]) + [b]
    ensures outdata[outp + 1..] == old(outdata[outp + 1..])
  {
    outdata[outp] := b;
  }

  /** `adpcm_coder`: the bytes hold the codes of the samples, and the state is what the decoder will have. */
  method Coder(indata: array<int>, outdata: array<int>, len: nat, state: State)
    requires Ok(state.Kept()) && len <= indata.Length && (len + 1) / 2 <= outdata.Length && indata != outdata
    modifies outdata, state
    ensures var c := Coded(old(state.Kept()), indata[..len]);
      && outdata[..] == Packed(c) + old(outdata[(len + 1) / 2..])
      && state.Kept() == After(old(state.Kept()), c)
  {
    hide Follow, Code, Packed, SignedChar, Buffering, StepSize, NextIndex, Coded, After, Short, Codes;
    ghost var m := state.Kept();
    ghost var c: seq<int> := [];
    ghost var samples := indata[..len];
    EmptyBuffer(m);
    var valpred, index := state.valprev, state.index;
    var step: Step := StepSize(index);
    var bufferstep := true;
    var outputbuffer := 0;
    var i, outp := 0, 0;
    while i < len
      invariant 0 <= i <= len && outp == i / 2 && bufferstep == (i % 2 == 0)
      invariant c == Coded(m, samples[..i]) && indata[..len] == samples
      invariant Memory(valpred, index) == After(m, c) && step == StepSize(index)
      invariant Buffering(c, outdata[..outp], outputbuffer)
      invariant outdata[outp..] == old(outdata[..])[outp..]
    {
      ghost var before := After(m, c);
      var val := indata[i];
      var delta;
      delta, valpred := Quantize(before, val, valpred, step);
      index := NewIndex(index, delta);
      step := StepSize(index);
      BufferMore(c, outdata[..outp], outputbuffer, delta);
      CodedMore(m, samples[..i], val);
      assert samples[..i + 1] == samples[..i] + [val];
      if bufferstep {
        outputbuffer := delta * 16;
      } else {
        Emit(outdata, outp, SignedChar(outputbuffer + delta));
        outp := outp + 1;
      }
      bufferstep := !bufferstep;
      c := c + [delta];
      i := i + 1;
    }
    assert samples[..i] == samples;
    FlushBuffer(c, outdata[..outp], outputbuffer);
    if !bufferstep {
      Emit(outdata, outp, SignedChar(outputbuffer));
      outp := outp + 1;
    }
    assert outdata[..] == outdata[..outp] + outdata[outp..];
    state.valprev := valpred;
    state.index := index;
  }

  lemma EmptyBuffer(m: Memory)
    requires Ok(m)
    ensures Buffering([], [], 0) && Coded(m, []) == [] && After(m, []) == m
  {
  }

  lemma FlushBuffer(c: seq<int>, b: seq<int>, buffer: int)
    requires Buffering(c, b, buffer)
    ensures Codes(c) && Packed(c) == b + (if |c| % 2 == 1 then [SignedChar(buffer)] else [])
  {
    hide Packed, SignedChar;
  }

  lemma CodedMore(m: Memory, s: seq<int>, val: int)
    requires Ok(m)
    ensures var c := Coded(m, s);
      var d := Code(After(m, c), val);
      && Coded(m, s + [val]) == c + [d]
      && After(m, c + [d]) == Follow(After(m, c), d)
  {
    hide Code, Follow;
    var c := Coded(m, s);
    var d := Code(After(m, c), val);
    assert (s + [val])[..|s|] == s && (c + [d])[..|c|] == c;
  }

  /** The new place in the step table. */
  method NewIndex(index: int, code: int) returns (r: int)
    requires 0 <= index <= 88 && 0 <= code < 16
    ensures r == NextIndex(index, code)
  {
    r := index + INDEX_TABLE[code];
    if r < 0 { r := 0; }
    if r > 88 { r := 88; }
  }

  /** Steps 1 to 5 of the coder: the code with its sign, and the new prediction. */
  method Quantize(ghost m: Memory, val: int, valpred: int, step: Step) returns (delta: int, pred: int)
    requires Ok(m) && valpred == m.valpred && step == StepSize(m.index)
    ensures delta == Code(m, val) && Follow(m, delta) == Memory(pred, NextIndex(m.index, delta))
  {
    hide NextIndex, StepSize, Magnitude, Distance;
    var diff: int := val - valpred;
    var sign := if diff < 0 then 8 else 0;
    if sign != 0 { diff := -diff; }
    var vpdiff;
    delta, vpdiff := Approximate(diff, step);
    SignApart(delta, step);
    pred := if sign != 0 then valpred - vpdiff else valpred + vpdiff;
    if pred > 32767 {
      pred := 32767;
    } else if pred < -32768 {
      pred := -32768;
    }
    delta := delta + sign;
  }

  /** Step 2: the three bits, and how far they move the prediction. */
  method Approximate(diff0: nat, step: Step) returns (delta: int, vpdiff: nat)
    ensures delta == Magnitude(diff0, step) && vpdiff == Distance(delta, step)
  {
    var diff: int := diff0;
    delta := 0;
    vpdiff := step as int / 8;
    var s: int := step;
    if diff >= s {
      delta := 4;
      diff := diff - s;
      vpdiff := vpdiff + s;
    }
    var h: int := s / 2;
    if diff >= h {
      delta := delta + 2;
      diff := diff - h;
      vpdiff := vpdiff + h;
    }
    h := h / 2;
    if diff >= h {
      delta := delta + 1;
      vpdiff := vpdiff + h;
    }
  }

  /** `adpcm_decoder`. */
  method Decoder(indata: array<int>, outdata: array<int>, len: nat, state: State)
    requires Ok(state.Kept()) && (len + 1) / 2 <= indata.Length && len <= outdata.Length && indata != outdata
    modifies outdata, state
    ensures var c := Unpacked(indata[..], len);
      && outdata[..] == Decoded(old(state.Kept()), c) + old(outdata[len..])
      && state.Kept() == After(old(state.Kept()), c)
  {
    hide Follow, Decoded, StepSize, NextIndex, Short;
    ghost var m := state.Kept();
    ghost var c := Unpacked(indata[..], len);
    var valpred, index := state.valprev, state.index;
    var step: Step := StepSize(index);
    var bufferstep := false;
    var inputbuffer := 0;
    var i, inp := 0, 0;
    while i < len
      invariant 0 <= i <= len && inp == (i + 1) / 2 && bufferstep == (i % 2 == 1)
      invariant bufferstep ==> inputbuffer == indata[i / 2]
      invariant Memory(valpred, index) == After(m, c[..i]) && step == StepSize(index)
      invariant forall k :: 0 <= k < i ==> outdata[k] == Decoded(m, c)[k]
      invariant forall k :: i <= k < outdata.Length ==> outdata[k] == old(outdata[k])
    {
      ghost var before := After(m, c[..i]);
      var delta;
      if bufferstep {
        delta := inputbuffer % 16;
      } else {
        inputbuffer := indata[inp];
        inp := inp + 1;
        delta := inputbuffer / 16 % 16;
      }
      bufferstep := !bufferstep;
      assert delta == c[i];
      DecodedAt(m, c, i);
      index := NewIndex(index, delta);
      valpred := Moved(before, valpred, delta, step);
      step := StepSize(index);
      outdata[i] := valpred;
      i := i + 1;
    }
    state.valprev := valpred;
    state.index := index;
    assert c[..i] == c;
  }

  /** Step 4 of the decoder: the distance, from the three low bits. */
  method Spread(code: int, step: Step) returns (vpdiff: nat)
    requires 0 <= code < 16
    ensures vpdiff == Distance(code, step)
  {
    var delta := code % 8;
    LowBits(code);
    vpdiff := step as int / 8;
    if delta / 4 % 2 == 1 { vpdiff := vpdiff + step; }
    if delta / 2 % 2 == 1 { vpdiff := vpdiff + step / 2; }
    if delta % 2 == 1 { vpdiff := vpdiff + step / 4; }
  }

  lemma LowBits(code: int)
    requires 0 <= code < 16
    ensures code % 8 / 4 % 2 == code / 4 % 2 && code % 8 / 2 % 2 == code / 2 % 2 && code % 8 % 2 == code % 2
  {
    if code < 8 {
      assert code % 8 == code;
    } else {
      var l := code - 8;
      assert code % 8 == l && code / 4 == l / 4 + 2 && code / 2 == l / 2 + 4;
    }
  }

  /** Steps 3 to 5 of the decoder. */
  method Moved(ghost m: Memory, valpred: int, code: int, step: Step) returns (pred: int)
    requires Ok(m) && valpred == m.valpred && step == StepSize(m.index) && 0 <= code < 16
    ensures Follow(m, code) == Memory(pred, NextIndex(m.index, code))
  {
    hide NextIndex, StepSize, Distance;
    var sign := code / 8 * 8;
    var vpdiff := Spread(code, step);
    pred := if sign != 0 then valpred - vpdiff else valpred + vpdiff;
    if pred > 32767 {
      pred := 32767;
    } else if pred < -32768 {
      pred := -32768;
    }
  }

  /**
   Decoding the bytes of the coder from the coder's starting state gives the coder's own prediction after
   each sample, and ends in the coder's final state.
   */
  lemma LockStep(m: Memory, s: seq<int>, tail: seq<int>)
    requires Ok(m)
    ensures var c := Unpacked(Packed(Coded(m, s)) + tail, |s|);
      && After(m, c) == After(m, Coded(m, s))
      && (forall k :: 0 <= k < |s| ==> Decoded(m, c)[k] == After(m, Coded(m, s[..k + 1])).valpred)
  {
    hide *;
    var c := Coded(m, s);
    UnpackPack(c);
    UnpackHead(Packed(c), tail, |s|);
    forall k | 0 <= k < |s| ensures Decoded(m, c)[k] == After(m, Coded(m, s[..k + 1])).valpred {
      PredictionAt(m, s, k);
    }
  }

  lemma PredictionAt(m: Memory, s: seq<int>, k: nat)
    requires Ok(m) && k < |s|
    ensures Decoded(m, Coded(m, s))[k] == After(m, Coded(m, s[..k + 1])).valpred
  {
    hide Follow, Code;
    if k + 1 < |s| {
      CodedPrefix(m, s, k + 1);
    } else {
      assert s[..k + 1] == s;
      assert Coded(m, s)[..k + 1] == Coded(m, s);
    }
  }

  lemma UnpackHead(b: seq<int>, tail: seq<int>, n: nat)
    requires n <= 2 * |b|
    ensures Unpacked(b + tail, n) == Unpacked(b, n)
  {
    hide CodeAt;
    forall k | 0 <= k < n ensures CodeAt(b + tail, k) == CodeAt(b, k) {
      CodeAtHead(b, tail, k);
    }
  }

  lemma CodeAtHead(b: seq<int>, tail: seq<int>, k: nat)
    requires k / 2 < |b|
    ensures CodeAt(b + tail, k) == CodeAt(b, k)
  {
  }
}
