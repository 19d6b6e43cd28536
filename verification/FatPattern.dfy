/**
 File name patterns of `fatfs/src/ff.c`: `pattern_matching` decides whether a name
 matches a pattern with `?` and `*`, ignoring ASCII case.
 */
module FatPattern {
  /** A character of a C string; the terminator 0 is not one of them. */
  type Ch = x: int | 1 <= x < 256 witness 1
  type Text = seq<Ch>

  const QUESTION: Ch := 0x3F
  const STAR: Ch := 0x2A

  predicate Wild(c: Ch) {
    c == QUESTION || c == STAR
  }

  /** Upper case, for ASCII letters. */
  function Upper(c: Ch): Ch {
    if 0x61 <= c <= 0x7A then c - 0x20 else c
  }

  // ---------- meaning ----------

  /** Two characters are the same for the search if they are equal, or one letter in its two cases. */
  lemma UpperFolds(c: Ch, d: Ch)
    ensures Upper(c) == Upper(d) <==>
      c == d || (0x41 <= c <= 0x5A && d == c + 0x20) || (0x41 <= d <= 0x5A && c == d + 0x20)
  {
  }

  /** May the pattern character `c` stand for the piece `w` of a name? */
  predicate Fits(c: Ch, w: Text) {
    if c == STAR then true
    else if c == QUESTION then |w| == 1
    else |w| == 1 && Upper(w[0]) == Upper(c)
  }

  function Concat(ws: seq<Text>): Text {
    if ws == [] then [] else ws[0] + Concat(ws[1..])
  }

  /** The name can be cut into pieces, one for each pattern character, that all fit. */
  ghost predicate MatchedBy(p: Text, n: Text, ws: seq<Text>) {
    |ws| == |p| && Concat(ws) == n && forall i :: 0 <= i < |p| ==> Fits(p[i], ws[i])
  }

  /** The same, character by character. */
  ghost predicate Matches(p: Text, n: Text)
    decreases |p| + |n|
  {
    if p == [] then n == []
    else if p[0] == STAR then Matches(p[1..], n) || (n != [] && Matches(p, n[1..]))
    else n != [] && Fits(p[0], n[..1]) && Matches(p[1..], n[1..])
  }

  lemma {:induction false} MatchesHasPieces(p: Text, n: Text) returns (ws: seq<Text>)
    requires Matches(p, n)
    ensures MatchedBy(p, n, ws)
    decreases |p| + |n|
  {
    if p == [] {
      ws := [];
    } else if p[0] == STAR && !Matches(p[1..], n) {
      var vs := MatchesHasPieces(p, n[1..]);
      ws := [n[..1] + vs[0]] + vs[1..];
      assert Concat(ws) == n[..1] + Concat(vs);
    } else {
      var k := if p[0] == STAR then 0 else 1;
      var vs := MatchesHasPieces(p[1..], n[k..]);
      ws := [n[..k]] + vs;
      assert ws[1..] == vs;
    }
  }

  lemma {:induction false} PiecesMatch(p: Text, n: Text, ws: seq<Text>)
    requires MatchedBy(p, n, ws)
    ensures Matches(p, n)
    decreases |p| + |n|
  {
    if p != [] {
      assert MatchedBy(p[1..], Concat(ws[1..]), ws[1..]);
      if p[0] == STAR && ws[0] != [] {
        var vs := [ws[0][1..]] + ws[1..];
        assert n == ws[0][..1] + (ws[0][1..] + Concat(ws[1..]));
        assert vs[1..] == ws[1..];
        assert n[1..] == Concat(vs);
        PiecesMatch(p, n[1..], vs);
      } else {
        assert n == ws[0] + Concat(ws[1..]);
        assert n[|ws[0]|..] == Concat(ws[1..]);
        PiecesMatch(p[1..], Concat(ws[1..]), ws[1..]);
        assert |ws[0]| == 1 ==> n[..1] == ws[0];
      }
    }
  }

  /** The two readings of a pattern agree. */
  lemma MatchesIffPieces(p: Text, n: Text)
    ensures Matches(p, n) <==> exists ws :: MatchedBy(p, n, ws)
  {
    if Matches(p, n) {
      var ws := MatchesHasPieces(p, n);
    }
    if exists ws :: MatchedBy(p, n, ws) {
      var ws :| MatchedBy(p, n, ws);
      PiecesMatch(p, n, ws);
    }
  }

  /** `p` matches the rest of `n` after `skip` characters, or after more if `more` allows. */
  ghost predicate MatchesAfter(p: Text, n: Text, skip: nat, more: bool) {
    exists j :: skip <= j <= |n| && (more || j == skip) && Matches(p, n[j..])
  }

  // ---------- lemmas for the search ----------

  predicate Literal(p: Text) {
    forall i :: 0 <= i < |p| ==> !Wild(p[i])
  }

  ghost predicate SameUpper(p: Text, n: Text) {
    |p| == |n| && forall i :: 0 <= i < |p| ==> Upper(p[i]) == Upper(n[i])
  }

  lemma {:induction false} LiteralPrefix(a: Text, p: Text, m: Text, n: Text)
    requires Literal(a) && SameUpper(a, m)
    ensures Matches(a + p, m + n) <==> Matches(p, n)
  {
    if a == [] {
      assert a + p == p && m + n == n;
    } else {
      assert (a + p)[1..] == a[1..] + p && (m + n)[1..] == m[1..] + n;
      assert (m + n)[..1] == [m[0]];
      LiteralPrefix(a[1..], p, m[1..], n);
    }
  }

  /** A pattern that starts with more plain characters than the name has cannot match. */
  lemma {:induction false} TooShort(a: Text, p: Text, n: Text)
    requires Literal(a) && |n| < |a|
    ensures !Matches(a + p, n)
  {
    if n != [] {
      assert (a + p)[1..] == a[1..] + p;
      TooShort(a[1..], p, n[1..]);
    }
  }

  lemma {:induction false} StarMatches(p: Text, n: Text)
    ensures Matches([STAR] + p, n) <==> exists j :: 0 <= j <= |n| && Matches(p, n[j..])
  {
    assert ([STAR] + p)[1..] == p && n[0..] == n;
    if n != [] {
      StarMatches(p, n[1..]);
      assert forall j :: 0 <= j <= |n| - 1 ==> n[1..][j..] == n[j + 1..];
      if j :| 0 < j <= |n| && Matches(p, n[j..]) {
        assert n[1..][j - 1..] == n[j..];
      }
    }
  }

  function Questions(a: Text): nat {
    if a == [] then 0 else (if a[0] == QUESTION then 1 else 0) + Questions(a[1..])
  }

  /** A block of wildcards stands for as many characters as it has `?`, or at least so many with a `*` in it. */
  lemma {:induction false} WildBlock(a: Text, p: Text, n: Text)
    requires forall i :: 0 <= i < |a| ==> Wild(a[i])
    ensures Matches(a + p, n) <==> MatchesAfter(p, n, Questions(a), STAR in a)
  {
    if a == [] {
      assert a + p == p && n[0..] == n;
    } else {
      var q := a[1..] + p;
      assert a + p == [a[0]] + q && (a + p)[1..] == q;
      if a[0] == QUESTION {
        if n != [] {
          WildBlock(a[1..], p, n[1..]);
          assert forall j :: 0 <= j <= |n| - 1 ==> n[1..][j..] == n[j + 1..];
          ShiftAfter(p, n, Questions(a[1..]), STAR in a[1..]);
        }
      } else {
        StarMatches(q, n);
        forall j | 0 <= j <= |n| {
          WildBlock(a[1..], p, n[j..]);
        }
        StarAbsorbs(a[1..], p, n);
      }
    }
  }

  lemma ShiftAfter(p: Text, n: Text, skip: nat, more: bool)
    requires n != []
    ensures MatchesAfter(p, n[1..], skip, more) <==> MatchesAfter(p, n, skip + 1, more)
  {
    assert forall j :: 0 <= j <= |n| - 1 ==> n[1..][j..] == n[j + 1..];
    if j :| skip + 1 <= j <= |n| && (more || j == skip + 1) && Matches(p, n[j..]) {
      assert n[1..][j - 1..] == n[j..];
    }
  }

  lemma StarAbsorbs(a: Text, p: Text, n: Text)
    ensures (exists j :: 0 <= j <= |n| && MatchesAfter(p, n[j..], Questions(a), STAR in a))
      <==> MatchesAfter(p, n, Questions(a), true)
  {
    var s := Questions(a);
    if j :| 0 <= j <= |n| && MatchesAfter(p, n[j..], s, STAR in a) {
      var k :| s <= k <= |n[j..]| && Matches(p, n[j..][k..]);
      assert n[j..][k..] == n[j + k..];
    }
    if k :| s <= k <= |n| && Matches(p, n[k..]) {
      assert n[k - s..][s..] == n[k..];
      assert MatchesAfter(p, n[k - s..], s, STAR in a);
    }
  }

  lemma {:induction false} QuestionsSnoc(a: Text, c: Ch)
    ensures Questions(a + [c]) == Questions(a) + if c == QUESTION then 1 else 0
  {
    if a != [] {
      assert (a + [c])[1..] == a[1..] + [c];
      QuestionsSnoc(a[1..], c);
    }
  }

  // ---------- the search ----------

  /** The character at a place of a C string, upper-cased; 0 at its end and never read beyond. */
  function CharAt(s: Text, i: nat): nat
    requires i <= |s|
  {
    if i == |s| then 0 else Upper(s[i])
  }

  /** Analysing a block of wildcards: how many `?`, whether a `*`, and where the block ends. */
  method WildcardBlock(pat: Text, start: nat) returns (end: nat, nm: nat, nx: bool)
    requires start < |pat| && Wild(pat[start])
    ensures start < end <= |pat|
    ensures forall i :: start <= i < end ==> Wild(pat[i])
    ensures nm == Questions(pat[start..end]) && (nx <==> STAR in pat[start..end])
  {
    end, nm, nx := start, 0, false;
    while end < |pat| && Wild(pat[end])
      invariant start <= end <= |pat|
      invariant forall i :: start <= i < end ==> Wild(pat[i])
      invariant nm == Questions(pat[start..end]) && (nx <==> STAR in pat[start..end])
    {
      QuestionsSnoc(pat[start..end], pat[end]);
      assert pat[start..end + 1] == pat[start..end] + [pat[end]];
      if pat[end] == QUESTION { nm := nm + 1; } else { nx := true; }
      end := end + 1;
    }
  }

  /**
   `pattern_matching(pat + p0, nam + n0, skip, inf)`: does the rest of the pattern match the
   rest of the name after `skip` characters, or, with `inf`, after any larger number?
   */
  method PatternMatching(pat: Text, p0: nat, nam: Text, n0: nat, skip: nat, inf: bool) returns (r: bool)
    requires p0 <= |pat| && n0 <= |nam|
    ensures r <==> MatchesAfter(pat[p0..], nam[n0..], skip, inf)
    decreases |pat| - p0, 1
  {
    var n, k := n0, skip;
    while k > 0
      invariant n <= |nam| && 0 <= k <= skip && n - n0 == skip - k
    {
      if CharAt(nam, n) == 0 { return false; }
      n, k := n + 1, k - 1;
    }
    ghost var p := pat[p0..];
    hide Matches, MatchesAfter;
    if p0 == |pat| && inf {
      NothingLeft();
      FoundAt(p, nam, n0, skip, inf, |nam|);
      return true;
    }
    while true
      invariant n0 + skip <= n <= |nam|
      invariant inf || n == n0 + skip
      invariant forall j :: n0 + skip <= j < n ==> !Matches(p, nam[j..])
      decreases |nam| - n
    {
      var nc;
      r, nc := Branch(pat, p0, nam, n);
      if r {
        FoundAt(p, nam, n0, skip, inf, n);
        return true;
      }
      if !(inf && nc != 0) { break; }
      n := n + 1;
    }
    NotFound(p, nam, n0, skip, inf);
    r := false;
  }

  lemma NothingLeft()
    ensures Matches([], [])
  {
  }

  /** A match at place `n`, which the skip allows, is a match after the skip. */
  lemma FoundAt(p: Text, nam: Text, n0: nat, skip: nat, inf: bool, n: nat)
    requires n0 + skip <= n <= |nam| && (inf || n == n0 + skip) && Matches(p, nam[n..])
    ensures MatchesAfter(p, nam[n0..], skip, inf)
  {
    hide Matches;
    assert nam[n0..][n - n0..] == nam[n..];
  }

  /** No match at any place that the skip allows is no match after the skip. */
  lemma NotFound(p: Text, nam: Text, n0: nat, skip: nat, inf: bool)
    requires n0 + skip <= |nam|
    requires forall j :: n0 + skip <= j <= |nam| && (inf || j == n0 + skip) ==> !Matches(p, nam[j..])
    ensures !MatchesAfter(p, nam[n0..], skip, inf)
  {
    hide Matches;
    assert forall j :: 0 <= j <= |nam| - n0 ==> nam[n0..][j..] == nam[n0 + j..];
  }

  /**
   One try at a fixed place of the name.  On a mismatch `nc` is the name's character there;
   if that is the terminator, no later place of the name can match either.
   */
  method Branch(pat: Text, p0: nat, nam: Text, n: nat) returns (r: bool, nc: nat)
    requires p0 <= |pat| && n <= |nam|
    ensures r <==> Matches(pat[p0..], nam[n..])
    ensures !r && nc == 0 ==> forall j :: n < j <= |nam| ==> !Matches(pat[p0..], nam[j..])
    ensures !r && nc != 0 ==> n < |nam|
    decreases |pat| - p0, 0
  {
    var pp, np := p0, n;
    while true
      invariant p0 <= pp <= |pat| && n <= np <= |nam| && pp - p0 == np - n
      invariant Literal(pat[p0..pp]) && SameUpper(pat[p0..pp], nam[n..np])
      decreases |pat| - pp
    {
      assert pat[p0..] == pat[p0..pp] + pat[pp..] && nam[n..] == nam[n..np] + nam[np..];
      LiteralPrefix(pat[p0..pp], pat[pp..], nam[n..np], nam[np..]);
      if pp < |pat| && Wild(pat[pp]) {
        var end, nm, nx := WildcardBlock(pat, pp);
        r := PatternMatching(pat, end, nam, np, nm, nx);
        assert pat[pp..] == pat[pp..end] + pat[end..];
        WildBlock(pat[pp..end], pat[end..], nam[np..]);
        nc := CharAt(nam, np);
        if nc == 0 { LaterTooShort(pat, p0, pp, nam, n); }
        return;
      }
      var pc := CharAt(pat, pp);
      nc := CharAt(nam, np);
      if pc != nc {
        if nc == 0 {
          assert pat[p0..pp + 1] == pat[p0..pp] + [pat[pp]];
          LaterTooShort(pat, p0, pp, nam, n);
        }
        return false, nc;
      }
      if pc == 0 { return true, nc; }
      assert pat[p0..pp + 1] == pat[p0..pp] + [pat[pp]];
      assert nam[n..np + 1] == nam[n..np] + [nam[np]];
      pp, np := pp + 1, np + 1;
    }
  }

  lemma LaterTooShort(pat: Text, p0: nat, pp: nat, nam: Text, n: nat)
    requires p0 <= pp <= |pat| && n <= |nam| && pp - p0 >= |nam| - n && Literal(pat[p0..pp])
    ensures forall j :: n < j <= |nam| ==> !Matches(pat[p0..], nam[j..])
  {
    assert pat[p0..] == pat[p0..pp] + pat[pp..];
    forall j | n < j <= |nam| ensures !Matches(pat[p0..], nam[j..]) {
      TooShort(pat[p0..pp], pat[pp..], nam[j..]);
    }
  }

  /** The call made for a directory search: the whole pattern against the whole name. */
  method MatchName(pat: Text, nam: Text) returns (r: bool)
    ensures r <==> exists ws :: MatchedBy(pat, nam, ws)
  {
    r := PatternMatching(pat, 0, nam, 0, 0, false);
    assert pat[0..] == pat && nam[0..] == nam && nam[0..][0..] == nam;
    MatchesIffPieces(pat, nam);
  }
}
