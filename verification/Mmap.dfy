/**
 The page allocator of `memmgt/src/mmap.c`: a book with one record per page, in which following the
 lengths from page 0 walks through chunks that tile the pool.  `__mmap` takes the first unused chunk
 that is long enough and splits it; `__munmap` marks a chunk unused again.
 */
module Mmap {
  datatype PageStatus = Unused | Used | Released | Child
  datatype Page = Page(status: PageStatus, len: nat)

  datatype Chunk = Chunk(start: nat, len: nat, status: PageStatus)

  // ---------- the chunks of a book ----------

  /** From page `p` on the lengths lead exactly to the end. */
  ghost predicate Tiles(book: seq<Page>, p: nat)
    decreases |book| - p
  {
    p == |book| || (p < |book| && 0 < book[p].len && p + book[p].len <= |book| && Tiles(book, p + book[p].len))
  }

  ghost function Chunks(book: seq<Page>, p: nat): seq<Chunk>
    requires Tiles(book, p)
    decreases |book| - p
  {
    if p == |book| then [] else [Chunk(p, book[p].len, book[p].status)] + Chunks(book, p + book[p].len)
  }

  /** Chunks that follow each other without gap from `p` to `n`. */
  ghost predicate Adjacent(c: seq<Chunk>, p: nat, n: nat) {
    if c == [] then p == n else c[0].start == p && c[0].len > 0 && Adjacent(c[1..], p + c[0].len, n)
  }

  lemma {:induction false} ChunksAdjacent(book: seq<Page>, p: nat)
    requires Tiles(book, p)
    ensures Adjacent(Chunks(book, p), p, |book|)
    decreases |book| - p
  {
    if p < |book| {
      ChunksAdjacent(book, p + book[p].len);
    }
  }

  lemma {:induction false} AdjacentBounds(c: seq<Chunk>, p: nat, n: nat, i: nat)
    requires Adjacent(c, p, n) && i < |c|
    ensures p <= c[i].start && c[i].start + c[i].len <= n
    decreases i
  {
    if i > 0 {
      AdjacentBounds(c[1..], p + c[0].len, n, i - 1);
    } else {
      AdjacentEnd(c[1..], p + c[0].len, n);
    }
  }

  lemma {:induction false} AdjacentEnd(c: seq<Chunk>, p: nat, n: nat)
    requires Adjacent(c, p, n)
    ensures p <= n
    decreases |c|
  {
    if c != [] { AdjacentEnd(c[1..], p + c[0].len, n); }
  }

  /** Two chunks share no page. */
  lemma {:induction false} ChunksDisjoint(c: seq<Chunk>, p: nat, n: nat, i: nat, j: nat)
    requires Adjacent(c, p, n) && i < j < |c|
    ensures c[i].start + c[i].len <= c[j].start
    decreases i
  {
    if i == 0 {
      AdjacentBounds(c[1..], p + c[0].len, n, j - 1);
    } else {
      ChunksDisjoint(c[1..], p + c[0].len, n, i - 1, j - 1);
    }
  }

  // ---------- changing a chunk ----------

  /** Writing the record of page `q` does not touch the chunks from a later page on. */
  lemma {:induction false} ChunksBehind(book: seq<Page>, p: nat, q: nat, r: Page)
    requires Tiles(book, p) && q < p && q < |book|
    ensures Tiles(book[q := r], p) && Chunks(book[q := r], p) == Chunks(book, p)
    decreases |book| - p
  {
    if p < |book| {
      ChunksBehind(book, p + book[p].len, q, r);
    }
  }

  lemma {:induction false} FirstChunk(book: seq<Page>, p: nat)
    requires Tiles(book, p) && p < |book|
    ensures 0 < book[p].len && p + book[p].len <= |book| && Tiles(book, p + book[p].len)
    ensures Chunks(book, p) == [Chunk(p, book[p].len, book[p].status)] + Chunks(book, p + book[p].len)
  {
  }

  lemma {:induction false} OneMore(book: seq<Page>, p: nat, n: nat)
    requires p < |book| && 0 < n == book[p].len && p + n <= |book| && Tiles(book, p + n)
    ensures Tiles(book, p) && Chunks(book, p) == [Chunk(p, n, book[p].status)] + Chunks(book, p + n)
  {
  }

  /** Chunk `k` is at page `q`. */
  ghost predicate ChunkAt(book: seq<Page>, p: nat, k: nat, q: nat)
    requires Tiles(book, p)
  {
    k < |Chunks(book, p)| && Chunks(book, p)[k].start == q
  }

  /** The chunks with a new status for the one at page `q`, if there is one. */
  ghost function WithStatus(c: seq<Chunk>, q: nat, to: PageStatus): (d: seq<Chunk>)
    ensures |d| == |c|
    ensures forall i :: 0 <= i < |c| ==> d[i] == if c[i].start == q then c[i].(status := to) else c[i]
  {
    if c == [] then [] else [if c[0].start == q then c[0].(status := to) else c[0]] + WithStatus(c[1..], q, to)
  }

  /** A new status in the record of page `q` reaches the chunk at that page; in any other record it reaches none. */
  lemma {:induction false} SetStatus(book: seq<Page>, p: nat, q: nat, to: PageStatus)
    requires Tiles(book, p) && q < |book|
    ensures var b := book[q := book[q].(status := to)];
      Tiles(b, p) && Chunks(b, p) == WithStatus(Chunks(book, p), q, to)
    decreases |book| - p
  {
    if p < |book| {
      var n, b := book[p].len, book[q := book[q].(status := to)];
      SetStatus(book, p + n, q, to);
      FirstChunk(book, p);
      OneMore(b, p, n);
    }
  }

  /** Every chunk is the record of its first page. */
  lemma {:induction false} ChunkRecord(book: seq<Page>, p: nat, x: Chunk)
    requires Tiles(book, p) && x in Chunks(book, p)
    ensures p <= x.start < |book| && x == Chunk(x.start, book[x.start].len, book[x.start].status)
    decreases |book| - p
  {
    if x != Chunk(p, book[p].len, book[p].status) {
      FirstChunk(book, p);
      ChunkRecord(book, p + book[p].len, x);
    }
  }

  /** The chunks after chunk `k` has been cut for `want` pages. */
  ghost function Cut(c: seq<Chunk>, k: nat, want: nat): seq<Chunk>
    requires k < |c| && want <= c[k].len
  {
    var x := c[k];
    c[..k] + [Chunk(x.start, want, Used)]
    + (if want < x.len then [Chunk(x.start + want, x.len - want, Unused)] else []) + c[k + 1..]
  }

  /** The book after the cut, at page `q`. */
  function CutBook(book: seq<Page>, q: nat, want: nat): seq<Page>
    requires q < |book| && want <= book[q].len && q + book[q].len <= |book|
  {
    var b := book[q := Page(Used, want)];
    if want < book[q].len then b[q + want := Page(Unused, book[q].len - want)] else b
  }

  /** Cutting the first chunk. */
  lemma {:induction false} CutFirst(book: seq<Page>, q: nat, want: nat)
    requires Tiles(book, q) && q < |book| && 0 < want <= book[q].len
    ensures q + book[q].len <= |book|
    ensures Tiles(CutBook(book, q, want), q) && Chunks(CutBook(book, q, want), q) == Cut(Chunks(book, q), 0, want)
  {
    FirstChunk(book, q);
    hide Tiles, Chunks;
    var n := book[q].len;
    var b := book[q := Page(Used, want)];
    ChunksBehind(book, q + n, q, Page(Used, want));
    if want < n {
      ChunksBehind(b, q + n, q + want, Page(Unused, n - want));
      OneMore(CutBook(book, q, want), q + want, n - want);
    }
    OneMore(CutBook(book, q, want), q, want);
  }

  lemma {:induction false} CutChunk(book: seq<Page>, p: nat, k: nat, q: nat, want: nat)
    requires Tiles(book, p) && ChunkAt(book, p, k, q) && 0 < want <= Chunks(book, p)[k].len
    ensures p <= q < |book| && book[q].len == Chunks(book, p)[k].len && q + book[q].len <= |book|
    ensures Tiles(CutBook(book, q, want), p) && Chunks(CutBook(book, q, want), p) == Cut(Chunks(book, p), k, want)
    decreases |book| - p
  {
    if k == 0 {
      CutFirst(book, q, want);
    } else {
      var n := book[p].len;
      CutChunk(book, p + n, k - 1, q, want);
      CutLater(Chunks(book, p), k, want);
      assert Chunks(book, p)[1..] == Chunks(book, p + n);
      assert CutBook(book, q, want)[p] == book[p];
    }
  }

  lemma CutLater(c: seq<Chunk>, k: nat, want: nat)
    requires 0 < k < |c| && want <= c[k].len
    ensures Cut(c, k, want) == [c[0]] + Cut(c[1..], k - 1, want)
  {
  }

  // ---------- the allocator ----------

  function PagesWanted(length: nat, pagesz: nat): (w: nat)
    requires pagesz > 0
    ensures w > 0
  {
    var n := length / pagesz;
    (if n * pagesz < length then n + 1 else n) + 1
  }

  /** The pages asked for hold the length and leave one page over. */
  lemma SparePage(length: nat, pagesz: nat)
    requires pagesz > 0
    ensures length <= (PagesWanted(length, pagesz) - 1) * pagesz
    ensures length % pagesz == 0 ==> length + pagesz == pagesz * PagesWanted(length, pagesz)
  {
    var n := length / pagesz;
    assert length == n * pagesz + length % pagesz;
    assert (n + 1) * pagesz == n * pagesz + pagesz;
  }

  /** And no smaller number of pages would do. */
  lemma LeastPages(length: nat, pagesz: nat)
    requires pagesz > 0
    ensures length > 0 ==> PagesWanted(length, pagesz) >= 2 && (PagesWanted(length, pagesz) - 2) * pagesz < length
    ensures length == 0 ==> PagesWanted(length, pagesz) == 1
  {
    var n := length / pagesz;
    assert length == n * pagesz + length % pagesz;
    assert n > 0 ==> (n - 1) * pagesz == n * pagesz - pagesz;
  }

  predicate Fits(c: Chunk, want: nat) {
    c.status == Unused && want <= c.len
  }

  /** The number of the first chunk that fits, or how many chunks there are. */
  function FirstFit(c: seq<Chunk>, want: nat): (k: nat)
    ensures k <= |c| && (k < |c| ==> Fits(c[k], want))
  {
    if c == [] || Fits(c[0], want) then 0 else 1 + FirstFit(c[1..], want)
  }

  /** The search fails only if no unused chunk is long enough, and passes over none that is. */
  lemma {:induction false} FirstFitIs(c: seq<Chunk>, want: nat)
    ensures forall i :: 0 <= i < FirstFit(c, want) ==> !Fits(c[i], want)
    ensures FirstFit(c, want) == |c| <==> forall i :: 0 <= i < |c| ==> !Fits(c[i], want)
  {
    if c != [] && !Fits(c[0], want) {
      FirstFitIs(c[1..], want);
      assert forall i :: 0 < i < |c| ==> c[i] == c[1..][i - 1];
    }
  }

  datatype Flags = Flags(anonymous: bool, private_: bool, shared: bool)

  predicate FlagsOk(f: Flags) {
    f.anonymous && f.private_ != f.shared
  }

  datatype Mapping = Failed | Mapped(page: nat, length: nat)

  class Allocator {
    const pagesz: nat
    const book: array<Page>

    /** The mappings that have not been unmapped, by their first page. */
    ghost var live: map<nat, nat>

    ghost predicate Valid()
      reads this, book
    {
      pagesz > 0 && book.Length > 0 && Tiles(book[..], 0) && LiveOk(S(), pagesz, book.Length)
    }

    ghost function S(): Pool
      requires Tiles(book[..], 0)
      reads this, book
    {
      Pool(Chunks(book[..], 0), live)
    }

    /** The chunks of the pool. */
    ghost function All(): seq<Chunk>
      requires Valid()
      reads this, book
    {
      Chunks(book[..], 0)
    }

    /** `minit`, on a heap that holds `pages` pages with their records; the records beyond the first are arbitrary. */
    constructor (pagesz: nat, pages: nat, junk: Page)
      requires pagesz > 0 && pages > 0
      ensures Valid() && this.pagesz == pagesz && book.Length == pages && S() == NewPool(pages)
    {
      this.pagesz := pagesz;
      book := new Page[pages](_ => junk);
      live := map[];
      new;
      book[0] := Page(Unused, pages);
      assert Chunks(book[..], pages) == [];
      ChunksAdjacent(book[..], 0);
    }

    /** The search of `__mmap`: the first chunk that fits, or the end of the pool. */
    method Search(want: nat) returns (page: nat)
      requires Valid()
      ensures var k := FirstFit(All(), want); page == if k < |All()| then All()[k].start else book.Length
    {
      page := 0;
      ghost var k := 0;
      while page < book.Length
        invariant page <= book.Length && k <= |All()| && Tiles(book[..], page) && All()[k..] == Chunks(book[..], page)
        invariant FirstFit(All(), want) == k + FirstFit(All()[k..], want)
        decreases book.Length - page
      {
        assert All()[k] == All()[k..][0] == Chunk(page, book[page].len, book[page].status);
        if book[page].status != Unused || book[page].len < want {
          assert All()[k + 1..] == All()[k..][1..];
          page := page + book[page].len;
          k := k + 1;
        } else {
          return;
        }
      }
    }

    /** `__mmap`: first fit. */
    method MMap(length: nat, f: Flags) returns (m: Mapping)
      requires Valid()
      modifies this, book
      ensures Valid() && S() == Serve(old(S()), Map(length, f), pagesz)
      ensures m == Failed ==> All() == old(All()) && live == old(live)
      ensures var k := FirstFit(old(All()), PagesWanted(length, pagesz));
        if FlagsOk(f) && k < |old(All())| then
          m == Mapped(old(All())[k].start, length) && All() == Cut(old(All()), k, PagesWanted(length, pagesz))
        else m == Failed
    {
      ServeKeeps(S(), Map(length, f), pagesz, book.Length);
      hide LiveOk, FirstFit, PagesWanted, Cut, Tiles, Chunks;
      if !FlagsOk(f) {
        return Failed;
      }
      var pagesWanted := PagesWanted(length, pagesz);
      ghost var b, k := book[..], FirstFit(All(), pagesWanted);
      var page := Search(pagesWanted);
      if k < |All()| {
        CutChunk(b, 0, k, page, pagesWanted);
      }
      if page >= book.Length {
        return Failed;
      }
      var currLen := book[page].len;
      book[page] := Page(Used, pagesWanted);
      if pagesWanted < currLen {
        book[page + pagesWanted] := Page(Unused, currLen - pagesWanted);
      }
      assert book[..] == CutBook(b, page, pagesWanted);
      m := Mapped(page, length);
      live := live[page := length];
    }

    /**
     `__munmap` of the memory at any page; false if the length does not fit the page's record (a failed
     assertion).  The record of a page inside a chunk may be stale, but a status written there reaches no chunk.
     */
    method MUnmap(page: nat, length: nat) returns (ok: bool)
      requires Valid() && page < book.Length
      modifies this, book
      ensures Valid() && S() == Serve(old(S()), Unmap(page, length), pagesz)
      ensures ok <==> length + pagesz == pagesz * old(book[page].len)
      ensures Unmappable(old(All()), page, length, pagesz) ==> ok && All() == WithStatus(old(All()), page, Unused)
      ensures !Unmappable(old(All()), page, length, pagesz) ==> All() == old(All()) && live == old(live)
    {
      ServeKeeps(S(), Unmap(page, length), pagesz, book.Length);
      SetStatus(book[..], 0, page, Unused);
      UnmappableIs(book[..], page, length, pagesz);
      hide LiveOk, Unmappable, Tiles, Chunks, WithStatus;
      ok := length + pagesz == pagesz * book[page].len;
      if ok {
        ghost var b := book[..];
        live := if Unmappable(All(), page, length, pagesz) then live - {page} else live;
        book[page] := book[page].(status := Unused);
        assert book[..] == b[page := b[page].(status := Unused)];
      }
    }
  }

  // ---------- runs ----------

  datatype Request = Map(length: nat, flags: Flags) | Unmap(page: nat, length: nat)

  /** The chunks, and the mappings that are live: the length asked for, by the first page. */
  datatype Pool = Pool(chunks: seq<Chunk>, live: map<nat, nat>)

  ghost function NewPool(pages: nat): Pool {
    Pool([Chunk(0, pages, Unused)], map[])
  }

  /** Some chunk starts at the page and holds the length and the page to spare. */
  ghost predicate Unmappable(c: seq<Chunk>, page: nat, length: nat, pagesz: nat) {
    exists x :: x in c && x.start == page && length + pagesz == pagesz * x.len
  }

  /** What a request does to the pool. */
  ghost function Serve(s: Pool, r: Request, pagesz: nat): Pool
    requires pagesz > 0
  {
    match r
    case Map(length, f) =>
      var k := FirstFit(s.chunks, PagesWanted(length, pagesz));
      if FlagsOk(f) && k < |s.chunks|
      then Pool(Cut(s.chunks, k, PagesWanted(length, pagesz)), s.live[s.chunks[k].start := length])
      else s
    case Unmap(page, length) =>
      if Unmappable(s.chunks, page, length, pagesz)
      then Pool(WithStatus(s.chunks, page, Unused), s.live - {page})
      else s
  }

  /** The chunks tile the pool, and every live mapping is a used chunk of the pages it asked for. */
  ghost predicate LiveOk(s: Pool, pagesz: nat, pages: nat)
    requires pagesz > 0
  {
    && Adjacent(s.chunks, 0, pages)
    && forall p :: p in s.live ==> Chunk(p, PagesWanted(s.live[p], pagesz), Used) in s.chunks
  }

  /** A record that fits belongs to a chunk that fits, or to no chunk at all. */
  lemma {:induction false} UnmappableIs(book: seq<Page>, page: nat, length: nat, pagesz: nat)
    requires Tiles(book, 0) && page < |book|
    ensures Unmappable(Chunks(book, 0), page, length, pagesz) ==> length + pagesz == pagesz * book[page].len
    ensures !Unmappable(Chunks(book, 0), page, length, pagesz) && length + pagesz == pagesz * book[page].len ==>
      WithStatus(Chunks(book, 0), page, Unused) == Chunks(book, 0)
  {
    var c := Chunks(book, 0);
    forall x | x in c ensures x == Chunk(x.start, (if x.start < |book| then book[x.start].len else 0), x.status) && x.start < |book| {
      ChunkRecord(book, 0, x);
    }
    if !Unmappable(c, page, length, pagesz) && length + pagesz == pagesz * book[page].len {
      forall i | 0 <= i < |c| ensures c[i].start != page {
        assert c[i] in c;
      }
    }
  }

  lemma {:induction false} CutAdjacent(c: seq<Chunk>, p: nat, n: nat, k: nat, want: nat)
    requires Adjacent(c, p, n) && k < |c| && 0 < want <= c[k].len
    ensures Adjacent(Cut(c, k, want), p, n)
    decreases k
  {
    if k == 0 {
      var x, d := c[0], Cut(c, 0, want);
      if want < x.len {
        assert d[1..] == [Chunk(x.start + want, x.len - want, Unused)] + c[1..] && d[1..][1..] == c[1..];
      } else {
        assert d[1..] == c[1..];
      }
    } else {
      CutLater(c, k, want);
      CutAdjacent(c[1..], p + c[0].len, n, k - 1, want);
    }
  }

  lemma {:induction false} StatusAdjacent(c: seq<Chunk>, p: nat, n: nat, q: nat, to: PageStatus)
    requires Adjacent(c, p, n)
    ensures Adjacent(WithStatus(c, q, to), p, n)
    decreases |c|
  {
    if c != [] { StatusAdjacent(c[1..], p + c[0].len, n, q, to); }
  }

  /** Chunks are told apart by their first page. */
  lemma SameStart(c: seq<Chunk>, p: nat, n: nat, x: Chunk, y: Chunk)
    requires Adjacent(c, p, n) && x in c && y in c && x.start == y.start
    ensures x == y
  {
    var i :| 0 <= i < |c| && c[i] == x;
    var j :| 0 <= j < |c| && c[j] == y;
    LongEnough(c, p, n, i);
    LongEnough(c, p, n, j);
    if i < j {
      ChunksDisjoint(c, p, n, i, j);
    } else if j < i {
      ChunksDisjoint(c, p, n, j, i);
    }
  }

  lemma {:induction false} LongEnough(c: seq<Chunk>, p: nat, n: nat, i: nat)
    requires Adjacent(c, p, n) && i < |c|
    ensures c[i].len > 0
    decreases i
  {
    if i > 0 { LongEnough(c[1..], p + c[0].len, n, i - 1); }
  }

  /** Every request keeps tiling and live mappings. */
  lemma ServeKeeps(s: Pool, r: Request, pagesz: nat, pages: nat)
    requires pagesz > 0 && LiveOk(s, pagesz, pages)
    ensures LiveOk(Serve(s, r, pagesz), pagesz, pages)
  {
    match r
    case Map(length, f) => MapKeeps(s, length, f, pagesz, pages);
    case Unmap(page, length) => UnmapKeeps(s, page, length, pagesz, pages);
  }

  lemma MapKeeps(s: Pool, length: nat, f: Flags, pagesz: nat, pages: nat)
    requires pagesz > 0 && LiveOk(s, pagesz, pages)
    ensures LiveOk(Serve(s, Map(length, f), pagesz), pagesz, pages)
  {
    var c, want := s.chunks, PagesWanted(length, pagesz);
    var k, t := FirstFit(c, want), Serve(s, Map(length, f), pagesz);
    if FlagsOk(f) && k < |c| {
      CutAdjacent(c, 0, pages, k, want);
      CutKeepsOthers(c, k, want);
      hide Adjacent, Cut, FirstFit, PagesWanted;
      forall p | p in t.live ensures Chunk(p, PagesWanted(t.live[p], pagesz), Used) in t.chunks {
        if p != c[k].start {
          var x := Chunk(p, PagesWanted(s.live[p], pagesz), Used);
          assert x in c && x != c[k];
        }
      }
    }
  }

  lemma CutKeepsOthers(c: seq<Chunk>, k: nat, want: nat)
    requires k < |c| && want <= c[k].len
    ensures Chunk(c[k].start, want, Used) in Cut(c, k, want)
    ensures forall x :: x in c && x != c[k] ==> x in Cut(c, k, want)
  {
    var d, n := Cut(c, k, want), if want < c[k].len then 1 else 0;
    assert d[k] == Chunk(c[k].start, want, Used);
    forall x | x in c && x != c[k] ensures x in d {
      var i :| 0 <= i < |c| && c[i] == x;
      assert d[if i < k then i else i + n] == x;
    }
  }

  lemma UnmapKeeps(s: Pool, page: nat, length: nat, pagesz: nat, pages: nat)
    requires pagesz > 0 && LiveOk(s, pagesz, pages)
    ensures LiveOk(Serve(s, Unmap(page, length), pagesz), pagesz, pages)
  {
    var c, d := s.chunks, WithStatus(s.chunks, page, Unused);
    StatusAdjacent(c, 0, pages, page, Unused);
    forall p | p in s.live && p != page ensures Chunk(p, PagesWanted(s.live[p], pagesz), Used) in d {
      var x := Chunk(p, PagesWanted(s.live[p], pagesz), Used);
      var i :| 0 <= i < |c| && c[i] == x;
      assert d[i] == x;
    }
  }

  /** A run: from a new pool, request by request. */
  ghost predicate IsRun(states: seq<Pool>, reqs: seq<Request>, pagesz: nat, pages: nat)
    requires pagesz > 0
  {
    && |states| == |reqs| + 1 && pages > 0 && states[0] == NewPool(pages)
    && forall i :: 0 <= i < |reqs| ==> states[i + 1] == Serve(states[i], reqs[i], pagesz)
  }

  /** In every state of every run each live mapping is a used chunk of exactly the pages wanted for its length. */
  lemma {:induction false} RunsKeepLive(states: seq<Pool>, reqs: seq<Request>, pagesz: nat, pages: nat, k: nat)
    requires pagesz > 0 && IsRun(states, reqs, pagesz, pages) && k <= |reqs|
    ensures LiveOk(states[k], pagesz, pages)
    decreases k
  {
    if k > 0 {
      RunsKeepLive(states, reqs, pagesz, pages, k - 1);
      ServeKeeps(states[k - 1], reqs[k - 1], pagesz, pages);
    } else {
      assert NewPool(pages).chunks[1..] == [];
    }
  }

  /** A request that does not unmap a live mapping leaves it live, with its length. */
  lemma StaysLive(s: Pool, r: Request, pagesz: nat, pages: nat, p: nat)
    requires pagesz > 0 && LiveOk(s, pagesz, pages) && p in s.live && !(r.Unmap? && r.page == p)
    ensures var t := Serve(s, r, pagesz); p in t.live && t.live[p] == s.live[p]
  {
    var c := s.chunks;
    if r.Map? && FirstFit(c, PagesWanted(r.length, pagesz)) < |c| {
      var x := c[FirstFit(c, PagesWanted(r.length, pagesz))];
      var y := Chunk(p, PagesWanted(s.live[p], pagesz), Used);
      assert x in c && y in c;
      if x.start == p { SameStart(c, 0, pages, x, y); }
    }
  }

  /** Over a run, a mapping stays a used chunk of its own size until it is unmapped. */
  lemma {:induction false} MappingKept(states: seq<Pool>, reqs: seq<Request>, pagesz: nat, pages: nat, i: nat, j: nat, p: nat)
    requires pagesz > 0 && IsRun(states, reqs, pagesz, pages) && i <= j <= |reqs| && p in states[i].live
    requires forall m :: i <= m < j ==> !(reqs[m].Unmap? && reqs[m].page == p)
    ensures p in states[j].live && states[j].live[p] == states[i].live[p]
    ensures Chunk(p, PagesWanted(states[i].live[p], pagesz), Used) in states[j].chunks
    decreases j
  {
    RunsKeepLive(states, reqs, pagesz, pages, j);
    if i < j {
      MappingKept(states, reqs, pagesz, pages, i, j - 1, p);
      RunsKeepLive(states, reqs, pagesz, pages, j - 1);
      StaysLive(states[j - 1], reqs[j - 1], pagesz, pages, p);
    }
  }

  /** Serving a mapping makes it live with the length asked for, where no live mapping was. */
  lemma MapMakesLive(s: Pool, length: nat, f: Flags, pagesz: nat, pages: nat)
    requires pagesz > 0 && LiveOk(s, pagesz, pages)
    requires FlagsOk(f) && FirstFit(s.chunks, PagesWanted(length, pagesz)) < |s.chunks|
    ensures var p := s.chunks[FirstFit(s.chunks, PagesWanted(length, pagesz))].start;
      p !in s.live && Serve(s, Map(length, f), pagesz).live == s.live[p := length]
  {
    var c := s.chunks;
    var x := c[FirstFit(c, PagesWanted(length, pagesz))];
    assert x in c && x.status == Unused;
    forall y | y in c && y.start == x.start ensures y == x {
      SameStart(c, 0, pages, x, y);
    }
  }

  /** Page `x` belongs to a used chunk. */
  ghost predicate InUse(c: seq<Chunk>, x: nat) {
    exists i :: 0 <= i < |c| && Covers(c[i], x)
  }

  ghost predicate Covers(y: Chunk, x: nat) {
    y.status == Used && y.start <= x < y.start + y.len
  }

  /** A split takes just the pages asked for into use. */
  lemma CutUses(c: seq<Chunk>, k: nat, want: nat, x: nat)
    requires k < |c| && c[k].status == Unused && want <= c[k].len
    ensures InUse(Cut(c, k, want), x) <==> InUse(c, x) || c[k].start <= x < c[k].start + want
  {
    var d := Cut(c, k, want);
    var more := if want < c[k].len then 1 else 0;
    assert forall i :: 0 <= i < k ==> d[i] == c[i];
    assert forall i :: k < i < |c| ==> d[i + more] == c[i];
    assert d[k] == Chunk(c[k].start, want, Used);
    if InUse(c, x) {
      var i :| 0 <= i < |c| && Covers(c[i], x);
      assert Covers(d[if i < k then i else i + more], x);
    }
    if InUse(d, x) {
      var i :| 0 <= i < |d| && Covers(d[i], x);
      assert i < k ==> Covers(c[i], x);
      assert i > k + more ==> Covers(c[i - more], x);
    }
    if c[k].start <= x < c[k].start + want { assert Covers(d[k], x); }
  }

  /** Unmapping frees just the pages of the chunk at that page. */
  lemma FreeUses(c: seq<Chunk>, q: nat, x: nat)
    ensures InUse(WithStatus(c, q, Unused), x) <==> exists i :: 0 <= i < |c| && Covers(c[i], x) && c[i].start != q
  {
    var d := WithStatus(c, q, Unused);
    if InUse(d, x) {
      var i :| 0 <= i < |d| && Covers(d[i], x);
      assert Covers(c[i], x) && c[i].start != q;
    }
    if i :| 0 <= i < |c| && Covers(c[i], x) && c[i].start != q {
      assert Covers(d[i], x);
    }
  }

  /** Unmapping what was mapped for a whole number of pages is accepted and undoes the mapping, but for the split. */
  lemma MapUnmap(c: seq<Chunk>, k: nat, length: nat, pagesz: nat)
    requires pagesz > 0 && k < |c| && PagesWanted(length, pagesz) <= c[k].len
    ensures var d := Cut(c, k, PagesWanted(length, pagesz));
      && d[k].start == c[k].start && d[k].status == Used
      && (length % pagesz == 0 ==> length + pagesz == pagesz * d[k].len)
      && (length % pagesz != 0 ==> length + pagesz != pagesz * d[k].len)
  {
    SparePage(length, pagesz);
    if length % pagesz != 0 {
      var n := length / pagesz;
      assert pagesz * (n + 2) == n * pagesz + 2 * pagesz;
    }
  }

  /**
   The pages of two live mappings are apart and inside the pool, and between the bytes of a mapping and
   whatever comes next there is a page to spare.
   */
  lemma MappingsApart(s: Pool, pagesz: nat, pages: nat, p: nat, q: nat)
    requires pagesz > 0 && LiveOk(s, pagesz, pages) && p in s.live && q in s.live && p < q
    ensures p + PagesWanted(s.live[p], pagesz) <= q && q + PagesWanted(s.live[q], pagesz) <= pages
    ensures p * pagesz + s.live[p] + pagesz <= q * pagesz && q * pagesz + s.live[q] + pagesz <= pages * pagesz
  {
    var c, x, y := s.chunks, Chunk(p, PagesWanted(s.live[p], pagesz), Used), Chunk(q, PagesWanted(s.live[q], pagesz), Used);
    var i :| 0 <= i < |c| && c[i] == x;
    var j :| 0 <= j < |c| && c[j] == y;
    if j < i { ChunksDisjoint(c, 0, pages, j, i); }
    ChunksDisjoint(c, 0, pages, i, j);
    AdjacentBounds(c, 0, pages, j);
    hide Adjacent, PagesWanted;
    BytesApart(s.live[p], pagesz, p, q);
    BytesApart(s.live[q], pagesz, q, pages);
  }

  lemma BytesApart(length: nat, pagesz: nat, p: nat, q: nat)
    requires pagesz > 0 && p + PagesWanted(length, pagesz) <= q
    ensures p * pagesz + length + pagesz <= q * pagesz
  {
    var w := PagesWanted(length, pagesz);
    SparePage(length, pagesz);
    hide PagesWanted;
    assert (p + w) * pagesz == p * pagesz + w * pagesz && (w - 1) * pagesz == w * pagesz - pagesz;
    assert q * pagesz == (p + w) * pagesz + (q - p - w) * pagesz;
  }
}
