/**
 The library `qsort` of `libuser/src/qsort.c` (Bentley and McIlroy), on an array of elements:
 three-way partition with the equal elements kept at both ends, the two vector swaps, recursion on
 the smaller elements and a jump back for the greater ones, and the insertion sort for short or
 untouched ranges.  The range ends up sorted and a permutation, for any total preorder.
 */
module Qsort {
  ghost predicate TotalPreorder<T(!new)>(cmp: (T, T) -> int) {
    && (forall x, y :: cmp(x, y) < 0 <==> cmp(y, x) > 0)
    && (forall x, y, z :: cmp(x, y) <= 0 && cmp(y, z) <= 0 ==> cmp(x, z) <= 0)
  }

  ghost predicate SortedIn<T>(cmp: (T, T) -> int, s: seq<T>, lo: nat, hi: nat) {
    forall i, j :: lo <= i < j < hi <= |s| ==> cmp(s[i], s[j]) <= 0
  }

  function Swapped<T>(s: seq<T>, i: nat, j: nat): (r: seq<T>)
    requires i < |s| && j < |s|
    ensures |r| == |s|
  {
    s[i := s[j]][j := s[i]]
  }

  /** `s` is a permutation of `t`, and the same outside `[lo, hi)`. */
  ghost predicate Shuffled<T>(s: seq<T>, t: seq<T>, lo: nat, hi: nat) {
    && lo <= hi <= |s| == |t| && multiset(s) == multiset(t)
    && s[..lo] == t[..lo] && s[hi..] == t[hi..]
  }

  lemma ShuffledSwap<T>(s: seq<T>, t: seq<T>, lo: nat, hi: nat, i: nat, j: nat)
    requires Shuffled(s, t, lo, hi) && lo <= i < hi && lo <= j < hi
    ensures Shuffled(Swapped(s, i, j), t, lo, hi)
  {
    var r := Swapped(s, i, j);
    assert multiset(r) == multiset(s);
    assert r[..lo] == s[..lo] && r[hi..] == s[hi..];
  }

  lemma ShuffledTwice<T>(s: seq<T>, t: seq<T>, u: seq<T>, lo: nat, hi: nat, lo': nat, hi': nat)
    requires Shuffled(s, t, lo', hi') && Shuffled(t, u, lo, hi) && lo <= lo' && hi' <= hi
    ensures Shuffled(s, u, lo, hi)
  {
    assert s[..lo] == s[..lo'][..lo] && t[..lo] == t[..lo'][..lo];
    assert s[hi..] == s[hi'..][hi - hi'..] && t[hi..] == t[hi'..][hi - hi'..];
  }

  /** Within the range the elements are the same ones. */
  lemma ShuffledRange<T>(s: seq<T>, t: seq<T>, lo: nat, hi: nat)
    requires Shuffled(s, t, lo, hi)
    ensures multiset(s[lo..hi]) == multiset(t[lo..hi])
  {
    assert s == s[..lo] + s[lo..hi] + s[hi..] && t == t[..lo] + t[lo..hi] + t[hi..];
    assert multiset(s) == multiset(s[..lo]) + multiset(s[lo..hi]) + multiset(s[hi..]);
    assert multiset(t) == multiset(t[..lo]) + multiset(t[lo..hi]) + multiset(t[hi..]);
    forall e ensures multiset(s[lo..hi])[e] == multiset(t[lo..hi])[e] {
      assert multiset(s)[e] == multiset(s[..lo])[e] + multiset(s[lo..hi])[e] + multiset(s[hi..])[e];
      assert multiset(t)[e] == multiset(t[..lo])[e] + multiset(t[lo..hi])[e] + multiset(t[hi..])[e];
    }
  }

  /** So what held of every element of the range still does. */
  lemma ShuffledAll<T>(s: seq<T>, t: seq<T>, lo: nat, hi: nat, x: nat, y: nat, ok: T -> bool)
    requires Shuffled(s, t, lo, hi) && x <= lo && hi <= y <= |s|
    requires forall k :: x <= k < y ==> ok(t[k])
    ensures forall k :: x <= k < y ==> ok(s[k])
  {
    ShuffledRange(s, t, lo, hi);
    forall k | x <= k < y ensures ok(s[k]) {
      if k < lo {
        assert s[k] == s[..lo][k] == t[..lo][k];
      } else if hi <= k {
        assert s[k] == s[hi..][k - hi] == t[hi..][k - hi];
      } else {
        assert s[k] in multiset(s[lo..hi]);
        assert s[k] in t[lo..hi];
      }
    }
  }

  method Swap<T>(a: array<T>, i: nat, j: nat)
    requires i < a.Length && j < a.Length
    modifies a
    ensures a[..] == Swapped(old(a[..]), i, j)
  {
    var t := a[i];
    a[i] := a[j];
    a[j] := t;
  }

  // ---------- insertion sort ----------

  /** `[lo, pm]` is sorted but for the element at `pl`, which is less than all behind it. */
  ghost predicate Inserting<T>(cmp: (T, T) -> int, s: seq<T>, lo: nat, pl: nat, pm: nat) {
    && lo <= pl <= pm < |s|
    && (forall i, j :: lo <= i < j <= pm && i != pl && j != pl ==> cmp(s[i], s[j]) <= 0)
    && forall j :: pl < j <= pm ==> cmp(s[pl], s[j]) <= 0
  }

  lemma InsertStep<T(!new)>(cmp: (T, T) -> int, s: seq<T>, lo: nat, pl: nat, pm: nat)
    requires TotalPreorder(cmp) && Inserting(cmp, s, lo, pl, pm) && pl > lo && cmp(s[pl - 1], s[pl]) > 0
    ensures Inserting(cmp, Swapped(s, pl, pl - 1), lo, pl - 1, pm)
  {
    var r := Swapped(s, pl, pl - 1);
    forall j | pl - 1 < j <= pm ensures cmp(r[pl - 1], r[j]) <= 0 {
      if j > pl { assert cmp(s[pl], s[j]) <= 0; }
    }
  }

  lemma InsertStart<T>(cmp: (T, T) -> int, s: seq<T>, lo: nat, pm: nat)
    requires SortedIn(cmp, s, lo, pm) && lo <= pm < |s|
    ensures Inserting(cmp, s, lo, pm, pm)
  {
  }

  lemma InsertDone<T(!new)>(cmp: (T, T) -> int, s: seq<T>, lo: nat, pl: nat, pm: nat)
    requires TotalPreorder(cmp) && Inserting(cmp, s, lo, pl, pm) && (pl == lo || cmp(s[pl - 1], s[pl]) <= 0)
    ensures SortedIn(cmp, s, lo, pm + 1)
  {
    forall i, j | lo <= i < j < pm + 1 ensures cmp(s[i], s[j]) <= 0 {
      if j == pl && i < pl - 1 {
        assert cmp(s[i], s[pl - 1]) <= 0;
      }
    }
  }

  method InsertionSort<T(!new)>(a: array<T>, lo: nat, n: nat, cmp: (T, T) -> int)
    requires TotalPreorder(cmp) && lo + n <= a.Length
    modifies a
    ensures Shuffled(a[..], old(a[..]), lo, lo + n) && SortedIn(cmp, a[..], lo, lo + n)
  {
    hide Shuffled, TotalPreorder, SortedIn, Inserting;
    var pm := lo + 1;
    ShuffledSelf(a[..], lo, lo + n);
    ShortSorted(cmp, a[..], lo, lo + 1);
    while pm < lo + n
      invariant lo + 1 <= pm && (pm <= lo + n || n == 0)
      invariant Shuffled(a[..], old(a[..]), lo, lo + n) && SortedIn(cmp, a[..], lo, pm)
    {
      var pl := pm;
      InsertStart(cmp, a[..], lo, pm);
      while pl > lo && cmp(a[pl - 1], a[pl]) > 0
        invariant lo <= pl <= pm
        invariant Shuffled(a[..], old(a[..]), lo, lo + n) && Inserting(cmp, a[..], lo, pl, pm)
      {
        InsertStep(cmp, a[..], lo, pl, pm);
        ShuffledSwap(a[..], old(a[..]), lo, lo + n, pl, pl - 1);
        Swap(a, pl, pl - 1);
        pl := pl - 1;
      }
      InsertDone(cmp, a[..], lo, pl, pm);
      pm := pm + 1;
    }
    ShortSorted(cmp, a[..], lo, lo);
  }

  lemma ShuffledSelf<T>(s: seq<T>, lo: nat, hi: nat)
    requires lo <= hi <= |s|
    ensures Shuffled(s, s, lo, hi)
  {
  }

  // ---------- the pivot ----------

  /** `med3`: the place of the middle one of three. */
  function Med3<T>(s: seq<T>, a: nat, b: nat, c: nat, cmp: (T, T) -> int): (m: nat)
    requires a < |s| && b < |s| && c < |s|
    ensures m == a || m == b || m == c
  {
    if cmp(s[a], s[b]) < 0 then
      if cmp(s[b], s[c]) < 0 then b else if cmp(s[a], s[c]) < 0 then c else a
    else
      if cmp(s[b], s[c]) > 0 then b else if cmp(s[a], s[c]) < 0 then a else c
  }

  predicate Between<T>(s: seq<T>, x: nat, m: nat, y: nat, cmp: (T, T) -> int)
    requires x < |s| && m < |s| && y < |s|
  {
    (cmp(s[x], s[m]) <= 0 && cmp(s[m], s[y]) <= 0) || (cmp(s[y], s[m]) <= 0 && cmp(s[m], s[x]) <= 0)
  }

  /** Of the other two, one is not above it and one not below it. */
  lemma Med3IsMedian<T(!new)>(s: seq<T>, a: nat, b: nat, c: nat, cmp: (T, T) -> int)
    requires TotalPreorder(cmp) && a < |s| && b < |s| && c < |s|
    ensures var m := Med3(s, a, b, c, cmp);
      (m == a && Between(s, b, m, c, cmp)) || (m == b && Between(s, a, m, c, cmp)) || (m == c && Between(s, a, m, b, cmp))
  {
  }

  /** The choice of the pivot for `n` elements from `lo` on: the middle, a median of three, or a pseudo-median of nine. */
  function Pivot<T>(s: seq<T>, lo: nat, n: nat, cmp: (T, T) -> int): (m: nat)
    requires 7 <= n && lo + n <= |s|
    ensures lo <= m < lo + n
  {
    var pm := lo + n / 2;
    if n > 7 then
      var pl, pn := lo, lo + n - 1;
      if n > 40 then
        var d := n / 8;
        Med3(s, Med3(s, pl, pl + d, pl + 2 * d, cmp), Med3(s, pm - d, pm, pm + d, cmp), Med3(s, pn - 2 * d, pn - d, pn, cmp), cmp)
      else Med3(s, pl, pm, pn, cmp)
    else pm
  }

  // ---------- the partition ----------

  /** Equal, less, unknown, greater, equal: the state of the partition around the element at `lo`. */
  ghost predicate Parted<T>(cmp: (T, T) -> int, s: seq<T>, lo: nat, hi: nat, pa: nat, pb: nat, pc: nat, pd: nat) {
    && lo < pa <= pb <= pc + 1 && pc <= pd < hi <= |s|
    && (forall k :: lo <= k < pa ==> cmp(s[k], s[lo]) == 0)
    && (forall k :: pa <= k < pb ==> cmp(s[k], s[lo]) < 0)
    && (forall k :: pc < k <= pd ==> cmp(s[k], s[lo]) > 0)
    && (forall k :: pd < k < hi ==> cmp(s[k], s[lo]) == 0)
  }

  /** Less, equal, greater. */
  ghost predicate Split<T>(cmp: (T, T) -> int, s: seq<T>, lo: nat, x: nat, y: nat, hi: nat, p: T) {
    && lo <= x <= y <= hi <= |s|
    && (forall k :: lo <= k < x ==> cmp(s[k], p) < 0)
    && (forall k :: x <= k < y ==> cmp(s[k], p) == 0)
    && (forall k :: y <= k < hi ==> cmp(s[k], p) > 0)
  }

  function VecSwapped<T>(s: seq<T>, i: nat, j: nat, r: nat): (t: seq<T>)
    requires i + r <= j && j + r <= |s|
    ensures |t| == |s|
  {
    s[..i] + s[j..j + r] + s[i + r..j] + s[i..i + r] + s[j + r..]
  }

  lemma VecSwappedAt<T>(s: seq<T>, i: nat, j: nat, r: nat, k: nat)
    requires i + r <= j && j + r <= |s| && k < |s|
    ensures VecSwapped(s, i, j, r)[k] ==
      if i <= k < i + r then s[k - i + j] else if j <= k < j + r then s[k - j + i] else s[k]
  {
  }

  lemma VecNone<T>(s: seq<T>, i: nat, j: nat)
    requires i <= j <= |s|
    ensures VecSwapped(s, i, j, 0) == s
  {
  }

  lemma VecStep<T>(s: seq<T>, i: nat, j: nat, k: nat)
    requires i + k < j && j + k < |s|
    ensures Swapped(VecSwapped(s, i, j, k), i + k, j + k) == VecSwapped(s, i, j, k + 1)
  {
    var l, r := Swapped(VecSwapped(s, i, j, k), i + k, j + k), VecSwapped(s, i, j, k + 1);
    forall m | 0 <= m < |s| ensures l[m] == r[m] {
      VecSwappedAt(s, i, j, k, m);
      VecSwappedAt(s, i, j, k, i + k);
      VecSwappedAt(s, i, j, k, j + k);
      VecSwappedAt(s, i, j, k + 1, m);
    }
  }

  method VecSwap<T>(a: array<T>, i: nat, j: nat, r: nat, ghost lo: nat, ghost hi: nat, ghost t: seq<T>)
    requires i + r <= j && j + r <= a.Length && lo <= i && j + r <= hi && Shuffled(a[..], t, lo, hi)
    modifies a
    ensures a[..] == VecSwapped(old(a[..]), i, j, r) && Shuffled(a[..], t, lo, hi)
  {
    hide Shuffled, Swapped, VecSwapped;
    ghost var s := a[..];
    VecNone(s, i, j);
    var k := 0;
    while k < r
      invariant k <= r && Shuffled(a[..], t, lo, hi) && a[..] == VecSwapped(s, i, j, k)
    {
      ShuffledSwap(a[..], t, lo, hi, i + k, j + k);
      VecStep(s, i, j, k);
      Swap(a, i + k, j + k);
      k := k + 1;
    }
  }

  // ---------- the steps of the partition ----------

  lemma EqualLeft<T(!new)>(cmp: (T, T) -> int, s: seq<T>, lo: nat, hi: nat, pa: nat, pb: nat, pc: nat, pd: nat)
    requires TotalPreorder(cmp) && Parted(cmp, s, lo, hi, pa, pb, pc, pd) && pb <= pc && cmp(s[pb], s[lo]) == 0
    ensures Parted(cmp, Swapped(s, pa, pb), lo, hi, pa + 1, pb + 1, pc, pd)
  {
  }

  lemma EqualRight<T(!new)>(cmp: (T, T) -> int, s: seq<T>, lo: nat, hi: nat, pa: nat, pb: nat, pc: nat, pd: nat)
    requires TotalPreorder(cmp) && Parted(cmp, s, lo, hi, pa, pb, pc, pd) && pb <= pc && cmp(s[pc], s[lo]) == 0
    ensures Parted(cmp, Swapped(s, pc, pd), lo, hi, pa, pb, pc - 1, pd - 1)
  {
  }

  lemma Exchange<T(!new)>(cmp: (T, T) -> int, s: seq<T>, lo: nat, hi: nat, pa: nat, pb: nat, pc: nat, pd: nat)
    requires TotalPreorder(cmp) && Parted(cmp, s, lo, hi, pa, pb, pc, pd) && pb <= pc
    requires cmp(s[pb], s[lo]) > 0 && cmp(s[pc], s[lo]) < 0
    ensures pb < pc && Parted(cmp, Swapped(s, pb, pc), lo, hi, pa, pb + 1, pc - 1, pd)
  {
  }

  function Min(a: int, b: int): int {
    if a < b then a else b
  }

  /** Less, equal, greater, equal: the equal elements of the left end have been moved. */
  ghost predicate HalfSplit<T>(cmp: (T, T) -> int, s: seq<T>, lo: nat, x: nat, pb: nat, pd: int, hi: nat, p: T) {
    && lo <= x <= pb <= pd + 1 <= hi <= |s|
    && forall k :: lo <= k < hi ==>
         if k < x then cmp(s[k], p) < 0 else if k < pb then cmp(s[k], p) == 0
         else if k <= pd then cmp(s[k], p) > 0 else cmp(s[k], p) == 0
  }

  /** Moving the equal elements from the left end to the middle. */
  lemma GatheredLeft<T(!new)>(cmp: (T, T) -> int, s: seq<T>, lo: nat, hi: nat, pa: nat, pb: nat, pc: nat, pd: nat)
    requires Parted(cmp, s, lo, hi, pa, pb, pc, pd) && pb == pc + 1
    ensures var r := Min(pa - lo, pb - pa);
      && r >= 0 && lo + r <= pb - r && hi <= |s|
      && HalfSplit(cmp, VecSwapped(s, lo, pb - r, r), lo, lo + (pb - pa), pb, pd, hi, s[lo])
  {
    hide VecSwapped;
    var r := Min(pa - lo, pb - pa);
    var t := VecSwapped(s, lo, pb - r, r);
    forall k | lo <= k < hi
      ensures if k < lo + (pb - pa) then cmp(t[k], s[lo]) < 0 else if k < pb then cmp(t[k], s[lo]) == 0
        else if k <= pd then cmp(t[k], s[lo]) > 0 else cmp(t[k], s[lo]) == 0
    {
      VecSwappedAt(s, lo, pb - r, r, k);
    }
  }

  /** Moving those from the right end there too. */
  lemma GatheredRight<T(!new)>(cmp: (T, T) -> int, t: seq<T>, lo: nat, x: nat, hi: nat, pb: nat, pd: nat, p: T)
    requires HalfSplit(cmp, t, lo, x, pb, pd, hi, p)
    ensures var r := Min(pd + 1 - pb, hi - 1 - pd);
      && r >= 0 && pb + r <= hi - r && hi <= |t|
      && Split(cmp, VecSwapped(t, pb, hi - r, r), lo, x, hi - (pd + 1 - pb), hi, p)
  {
    hide VecSwapped;
    var r := Min(pd + 1 - pb, hi - 1 - pd);
    var u, y := VecSwapped(t, pb, hi - r, r), hi - (pd + 1 - pb);
    forall k | lo <= k < hi
      ensures if k < x then cmp(u[k], p) < 0 else if k < y then cmp(u[k], p) == 0 else cmp(u[k], p) > 0
    {
      VecSwappedAt(t, pb, hi - r, r, k);
    }
  }

  /** Both ends. */
  lemma Gathered<T(!new)>(cmp: (T, T) -> int, s: seq<T>, lo: nat, hi: nat, pa: nat, pb: nat, pc: nat, pd: nat, p: T)
    requires Parted(cmp, s, lo, hi, pa, pb, pc, pd) && pb == pc + 1 && p == s[lo]
    ensures var r1, r2 := Min(pa - lo, pb - pa), Min(pd - pc, hi - pd - 1);
      && r1 >= 0 && r2 >= 0 && lo + r1 <= pb - r1 && pb + r2 <= hi - r2 && hi <= |s|
      && Split(cmp, VecSwapped(VecSwapped(s, lo, pb - r1, r1), pb, hi - r2, r2), lo, lo + (pb - pa), hi - (pd - pc), hi, p)
  {
    hide VecSwapped, Split, HalfSplit;
    GatheredLeft(cmp, s, lo, hi, pa, pb, pc, pd);
    var r := Min(pa - lo, pb - pa);
    GatheredRight(cmp, VecSwapped(s, lo, pb - r, r), lo, lo + (pb - pa), hi, pb, pd, p);
  }

  // ---------- the sort ----------

  lemma PreorderReflexive<T(!new)>(cmp: (T, T) -> int, x: T)
    requires TotalPreorder(cmp)
    ensures cmp(x, x) == 0
  {
  }

  /** The loop of the partition, around the element at `lo`. */
  /** The indices of a four-way division, and a step over an element that is in order on its side. */
  lemma PartedSteps<T(!new)>(cmp: (T, T) -> int, s: seq<T>, lo: nat, hi: nat, pa: nat, pb: nat, pc: nat, pd: nat)
    requires Parted(cmp, s, lo, hi, pa, pb, pc, pd)
    ensures lo < pa <= pb <= pc + 1 && pc <= pd < hi <= |s| && lo < hi
    ensures pb <= pc && cmp(s[pb], s[lo]) < 0 ==> Parted(cmp, s, lo, hi, pa, pb + 1, pc, pd)
    ensures pb <= pc && cmp(s[pc], s[lo]) > 0 ==> Parted(cmp, s, lo, hi, pa, pb, pc - 1, pd)
  {
  }

  /** Up from the left over the elements that are not larger; equal ones are set aside. */
  method SkipUp<T(!new)>(a: array<T>, lo: nat, hi: nat, cmp: (T, T) -> int, pa0: nat, pb0: nat, pc: nat, pd: nat, ghost t: seq<T>)
    returns (pa: nat, pb: nat, swapped: bool)
    requires TotalPreorder(cmp) && hi <= a.Length
    requires Shuffled(a[..], t, lo, hi) && Parted(cmp, a[..], lo, hi, pa0, pb0, pc, pd)
    modifies a
    ensures Shuffled(a[..], t, lo, hi) && Parted(cmp, a[..], lo, hi, pa, pb, pc, pd)
    ensures pb0 <= pb <= pc + 1 && (pb <= pc ==> cmp(a[pb], a[lo]) > 0)
  {
    hide Shuffled, Swapped, TotalPreorder, Parted;
    pa, pb, swapped := pa0, pb0, false;
    PartedSteps(cmp, a[..], lo, hi, pa, pb, pc, pd);
    while pb <= pc && cmp(a[pb], a[lo]) <= 0
      invariant pb0 <= pb <= pc + 1 && Shuffled(a[..], t, lo, hi) && Parted(cmp, a[..], lo, hi, pa, pb, pc, pd)
      decreases pc + 1 - pb
    {
      PartedSteps(cmp, a[..], lo, hi, pa, pb, pc, pd);
      var r := cmp(a[pb], a[lo]);
      if r == 0 {
        swapped := true;
        EqualLeft(cmp, a[..], lo, hi, pa, pb, pc, pd);
        ShuffledSwap(a[..], t, lo, hi, pa, pb);
        Swap(a, pa, pb);
        pa := pa + 1;
      }
      pb := pb + 1;
    }
  }

  /** Down from the right over the elements that are not smaller; what `pb` points at stays. */
  method SkipDown<T(!new)>(a: array<T>, lo: nat, hi: nat, cmp: (T, T) -> int, pa: nat, pb: nat, pc0: nat, pd0: nat, ghost t: seq<T>)
    returns (pc: nat, pd: nat, swapped: bool)
    requires TotalPreorder(cmp) && hi <= a.Length
    requires Shuffled(a[..], t, lo, hi) && Parted(cmp, a[..], lo, hi, pa, pb, pc0, pd0)
    requires pb <= pc0 ==> pb < a.Length && lo < a.Length && cmp(a[pb], a[lo]) > 0
    modifies a
    ensures Shuffled(a[..], t, lo, hi) && Parted(cmp, a[..], lo, hi, pa, pb, pc, pd)
    ensures pb <= pc + 1 && pc <= pc0 && pc < a.Length && lo < a.Length
    ensures pb <= pc ==> cmp(a[pb], a[lo]) > 0 && cmp(a[pc], a[lo]) < 0
  {
    hide Shuffled, Swapped, TotalPreorder, Parted;
    pc, pd, swapped := pc0, pd0, false;
    PartedSteps(cmp, a[..], lo, hi, pa, pb, pc, pd);
    while pb <= pc && cmp(a[pc], a[lo]) >= 0
      invariant pb <= pc + 1 && pc <= pc0 && Shuffled(a[..], t, lo, hi) && Parted(cmp, a[..], lo, hi, pa, pb, pc, pd)
      invariant pb <= pc ==> cmp(a[pb], a[lo]) > 0
      decreases pc + 1 - pb
    {
      PartedSteps(cmp, a[..], lo, hi, pa, pb, pc, pd);
      var r := cmp(a[pc], a[lo]);
      if r == 0 {
        swapped := true;
        EqualRight(cmp, a[..], lo, hi, pa, pb, pc, pd);
        ShuffledSwap(a[..], t, lo, hi, pc, pd);
        SwappedKeeps(a[..], pc, pd, pb, lo);
        Swap(a, pc, pd);
        pd := pd - 1;
      }
      pc := pc - 1;
    }
  }

  method Partition<T(!new)>(a: array<T>, lo: nat, n: nat, cmp: (T, T) -> int, ghost t: seq<T>)
    returns (pa: nat, pb: nat, pc: nat, pd: nat, swapCnt: bool)
    requires TotalPreorder(cmp) && n >= 2 && lo + n <= a.Length && Shuffled(a[..], t, lo, lo + n)
    modifies a
    ensures Shuffled(a[..], t, lo, lo + n)
    ensures Parted(cmp, a[..], lo, lo + n, pa, pb, pc, pd) && pb == pc + 1
  {
    hide Shuffled, Swapped, TotalPreorder, Parted;
    var hi := lo + n;
    swapCnt := false;
    pa, pb := lo + 1, lo + 1;
    pc, pd := lo + n - 1, lo + n - 1;
    PartedAtFirst(cmp, a[..], lo, hi);
    while true
      invariant Shuffled(a[..], t, lo, hi) && Parted(cmp, a[..], lo, hi, pa, pb, pc, pd)
      decreases pc + 1 - pb
    {
      var up, down;
      PartedSteps(cmp, a[..], lo, hi, pa, pb, pc, pd);
      pa, pb, up := SkipUp(a, lo, hi, cmp, pa, pb, pc, pd, t);
      pc, pd, down := SkipDown(a, lo, hi, cmp, pa, pb, pc, pd, t);
      swapCnt := swapCnt || up || down;
      PartedSteps(cmp, a[..], lo, hi, pa, pb, pc, pd);
      if pb > pc { break; }
      Exchange(cmp, a[..], lo, hi, pa, pb, pc, pd);
      ShuffledSwap(a[..], t, lo, hi, pb, pc);
      Swap(a, pb, pc);
      swapCnt := true;
      pb := pb + 1;
      pc := pc - 1;
    }
  }

  lemma PartedAtFirst<T(!new)>(cmp: (T, T) -> int, s: seq<T>, lo: nat, hi: nat)
    requires TotalPreorder(cmp) && lo + 2 <= hi <= |s|
    ensures Parted(cmp, s, lo, hi, lo + 1, lo + 1, hi - 1, hi - 1)
  {
    PreorderReflexive(cmp, s[lo]);
  }

  lemma SwappedKeeps<T>(s: seq<T>, i: nat, j: nat, k: nat, l: nat)
    requires i < |s| && j < |s| && k < |s| && l < |s|
    ensures k != i && k != j ==> Swapped(s, i, j)[k] == s[k]
    ensures l != i && l != j ==> Swapped(s, i, j)[l] == s[l]
  {
  }

  /** No element of the first part is above one of the second. */
  ghost predicate Below<T>(cmp: (T, T) -> int, s: seq<T>, lo: nat, mid: nat, hi: nat) {
    forall i, j :: lo <= i < mid <= j < hi <= |s| ==> cmp(s[i], s[j]) <= 0
  }

  lemma BelowKept<T(!new)>(cmp: (T, T) -> int, s: seq<T>, t: seq<T>, lo: nat, mid: nat, hi: nat)
    requires Shuffled(s, t, mid, hi) && Below(cmp, t, lo, mid, hi) && SortedIn(cmp, t, lo, mid) && lo <= mid
    ensures Below(cmp, s, lo, mid, hi) && SortedIn(cmp, s, lo, mid)
  {
    forall i | 0 <= i < mid ensures s[i] == t[i] {
      assert s[i] == s[..mid][i] == t[..mid][i];
    }
    forall i, j | lo <= i < mid <= j < hi ensures cmp(s[i], s[j]) <= 0 {
      ShuffledAll(s, t, mid, hi, mid, hi, x => cmp(t[i], x) <= 0);
    }
  }

  lemma SortedJoins<T(!new)>(cmp: (T, T) -> int, s: seq<T>, lo: nat, mid: nat, hi: nat)
    requires SortedIn(cmp, s, lo, mid) && Below(cmp, s, lo, mid, hi) && SortedIn(cmp, s, mid, hi) && lo <= mid <= hi
    ensures SortedIn(cmp, s, lo, hi)
  {
  }

  lemma SplitKept<T(!new)>(cmp: (T, T) -> int, s: seq<T>, t: seq<T>, lo: nat, x: nat, y: nat, hi: nat, p: T)
    requires Shuffled(s, t, lo, x) && Split(cmp, t, lo, x, y, hi, p)
    ensures Split(cmp, s, lo, x, y, hi, p)
  {
    ShuffledAll(s, t, lo, x, lo, x, z => cmp(z, p) < 0);
    forall k | x <= k < hi ensures s[k] == t[k] {
      assert s[k] == s[x..][k - x] == t[x..][k - x];
    }
  }

  /** With the lesser elements sorted, everything up to the greater ones is. */
  lemma LeftSorted<T(!new)>(cmp: (T, T) -> int, s: seq<T>, lo0: nat, lo: nat, x: nat, y: nat, hi: nat, p: T)
    requires TotalPreorder(cmp) && Split(cmp, s, lo, x, y, hi, p) && SortedIn(cmp, s, lo, x) && lo0 <= lo
    requires SortedIn(cmp, s, lo0, lo) && Below(cmp, s, lo0, lo, hi)
    ensures SortedIn(cmp, s, lo0, y) && Below(cmp, s, lo0, y, hi)
  {
    forall i, j | lo <= i < y && i < j < hi && (j < y ==> x <= j) ensures cmp(s[i], s[j]) <= 0 {
      assert cmp(s[i], p) <= 0 && cmp(p, s[j]) <= 0;
    }
  }

  /** The equal elements of both ends moved to the middle. */
  method Gather<T(!new)>(a: array<T>, lo: nat, n: nat, cmp: (T, T) -> int, pa: nat, pb: nat, pc: nat, pd: nat, ghost t: seq<T>)
    requires TotalPreorder(cmp) && n > 0 && lo + n <= a.Length && Shuffled(a[..], t, lo, lo + n)
    requires Parted(cmp, a[..], lo, lo + n, pa, pb, pc, pd) && pb == pc + 1
    modifies a
    ensures Shuffled(a[..], t, lo, lo + n)
    ensures Split(cmp, a[..], lo, lo + (pb - pa), lo + n - (pd - pc), lo + n, old(a[lo]))
  {
    hide Shuffled, VecSwapped, TotalPreorder, Split, Parted;
    var pn := lo + n;
    ghost var s, p := a[..], a[lo];
    assert p == s[lo];
    Gathered(cmp, s, lo, pn, pa, pb, pc, pd, p);
    var r := Min(pa - lo, pb - pa);
    VecSwap(a, lo, pb - r, r, lo, pn, t);
    r := Min(pd - pc, pn - pd - 1);
    VecSwap(a, pb, pn - r, r, lo, pn, t);
  }

  /** `qsort`. */
  method Sort<T(!new)>(a: array<T>, lo0: nat, n0: nat, cmp: (T, T) -> int)
    requires TotalPreorder(cmp) && lo0 + n0 <= a.Length
    modifies a
    ensures Shuffled(a[..], old(a[..]), lo0, lo0 + n0) && SortedIn(cmp, a[..], lo0, lo0 + n0)
    decreases n0
  {
    hide Shuffled, TotalPreorder, Parted, Split, SortedIn, Below, Swapped, Pivot, Med3;
    var lo: nat, n: nat := lo0, n0;
    ghost var hi := lo0 + n0;
    ShuffledSelf(a[..], lo0, hi);
    NothingBelow(cmp, a[..], lo0, hi);
    while true
      invariant lo0 <= lo && lo + n == hi
      invariant Shuffled(a[..], old(a[..]), lo0, hi) && SortedIn(cmp, a[..], lo0, lo) && Below(cmp, a[..], lo0, lo, hi)
      decreases n
    {
      ghost var s := a[..];
      if n < 7 {
        InsertionSort(a, lo, n, cmp);
        SortedRest(cmp, a[..], s, old(a[..]), lo0, lo, hi);
        return;
      }
      var pm := Pivot(a[..], lo, n, cmp);
      ShuffledSelf(s, lo, hi);
      ShuffledSwap(s, s, lo, hi, lo, pm);
      Swap(a, lo, pm);
      var pa, pb, pc, pd, swapCnt := Partition(a, lo, n, cmp, s);
      if !swapCnt {
        ghost var u := a[..];
        InsertionSort(a, lo, n, cmp);
        ShuffledTwice(a[..], u, s, lo, hi, lo, hi);
        SortedRest(cmp, a[..], s, old(a[..]), lo0, lo, hi);
        return;
      }
      PartedBounds(cmp, a[..], lo, hi, pa, pb, pc, pd);
      ghost var p := a[lo];
      Gather(a, lo, n, cmp, pa, pb, pc, pd, s);
      ghost var x, y, u := lo + (pb - pa), hi - (pd - pc), a[..];
      var r := pb - pa;
      if r > 1 {
        Sort(a, lo, r, cmp);
      } else {
        ShuffledSelf(a[..], lo, x);
        ShortSorted(cmp, a[..], lo, x);
      }
      AfterLeft(cmp, a[..], u, s, old(a[..]), lo0, lo, x, y, hi, p);
      r := pd - pc;
      if r > 1 {
        lo := lo + n - r;
        n := r;
      } else {
        ShortSorted(cmp, a[..], y, hi);
        SortedJoins(cmp, a[..], lo0, y, hi);
        return;
      }
    }
  }

  lemma NothingBelow<T>(cmp: (T, T) -> int, s: seq<T>, lo: nat, hi: nat)
    ensures SortedIn(cmp, s, lo, lo) && Below(cmp, s, lo, lo, hi)
  {
  }

  lemma ShortSorted<T>(cmp: (T, T) -> int, s: seq<T>, lo: nat, hi: nat)
    requires hi <= lo + 1
    ensures SortedIn(cmp, s, lo, hi)
  {
  }

  lemma PartedBounds<T>(cmp: (T, T) -> int, s: seq<T>, lo: nat, hi: nat, pa: nat, pb: nat, pc: nat, pd: nat)
    requires Parted(cmp, s, lo, hi, pa, pb, pc, pd)
    ensures lo < pa <= pb && pc <= pd < hi && lo + 1 <= hi - (pd - pc) && lo + (pb - pa) < hi
  {
  }

  /** The last range sorted by insertion: everything is. */
  lemma SortedRest<T(!new)>(cmp: (T, T) -> int, r: seq<T>, s: seq<T>, t: seq<T>, lo0: nat, lo: nat, hi: nat)
    requires Shuffled(r, s, lo, hi) && SortedIn(cmp, r, lo, hi) && Shuffled(s, t, lo0, hi) && lo0 <= lo
    requires SortedIn(cmp, s, lo0, lo) && Below(cmp, s, lo0, lo, hi)
    ensures Shuffled(r, t, lo0, hi) && SortedIn(cmp, r, lo0, hi)
  {
    BelowKept(cmp, r, s, lo0, lo, hi);
    SortedJoins(cmp, r, lo0, lo, hi);
    ShuffledTwice(r, s, t, lo0, hi, lo, hi);
  }

  /** After the lesser elements: `s` before the partition, `u` after it, `r` with the lesser ones sorted. */
  lemma AfterLeft<T(!new)>(cmp: (T, T) -> int, r: seq<T>, u: seq<T>, s: seq<T>, t: seq<T>, lo0: nat, lo: nat, x: nat, y: nat,
                           hi: nat, p: T)
    requires TotalPreorder(cmp) && lo0 <= lo && Shuffled(r, u, lo, x) && SortedIn(cmp, r, lo, x)
    requires Shuffled(u, s, lo, hi) && Split(cmp, u, lo, x, y, hi, p)
    requires Shuffled(s, t, lo0, hi) && SortedIn(cmp, s, lo0, lo) && Below(cmp, s, lo0, lo, hi)
    ensures Shuffled(r, t, lo0, hi) && SortedIn(cmp, r, lo0, y) && Below(cmp, r, lo0, y, hi)
  {
    hide Shuffled;
    SplitKept(cmp, r, u, lo, x, y, hi, p);
    ShuffledTwice(r, u, s, lo, hi, lo, x);
    BelowKept(cmp, r, s, lo0, lo, hi);
    LeftSorted(cmp, r, lo0, lo, x, y, hi, p);
    ShuffledTwice(r, s, t, lo0, hi, lo, hi);
  }
}
