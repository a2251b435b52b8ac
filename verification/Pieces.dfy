/**
 The pieces a section's checksum row covers: its intersections with whole pages of the object.

 A plan is rounded to pieces and a check reads pieces; both cut the same pages.
 */
module Pieces {
  import opened Bytes
  import opened Chunked

  // ---------------------------------------------------------------- pages

  /** The page a byte of the object lies on. */
  function PageOf(x: nat, page: nat): nat
    requires page > 0
  {
    x / page
  }

  /** Where a page begins. */
  function PageAt(p: nat, page: nat): nat { ChunkLo(p, page) }

  lemma {:induction false} PageHolds(x: nat, page: nat)
    requires page > 0
    ensures PageAt(PageOf(x, page), page) <= x < PageAt(PageOf(x, page) + 1, page)
    ensures x - PageAt(PageOf(x, page), page) == x % page
  {
    ChunkLoIs(PageOf(x, page), page);
    assert x == page * (x / page) + x % page;
  }

  /** The pages that cover the first `x` bytes, rounded up. */
  lemma {:induction false} PagesCover(x: nat, page: nat)
    requires page > 0
    ensures x <= PageAt(Chunks(x, page), page)
    ensures x > 0 ==> Chunks(x, page) > 0 && PageAt(Chunks(x, page) - 1, page) < x
  {
    if x > 0 {
      ChunksReach(x, page, Chunks(x, page) - 1);
    }
  }

  lemma {:induction false} PageOrder(p: nat, q: nat, page: nat)
    requires page > 0 && PageAt(p, page) < PageAt(q, page)
    ensures p < q
  {
    if q <= p { ChunkOrder(q, p, page); }
  }

  // ---------------------------------------------------------------- a section's pieces

  /** A checksummed section's content: where it lies in the object, and how its pages are sized. */
  datatype Content = Content(off: nat, end: nat, page: nat) {
    predicate Valid() { page > 0 && off <= end }

    function FirstPage(): nat
      requires Valid()
    {
      PageOf(off, page)
    }

    /** Where piece `p` begins and ends: a page cut to the content. */
    function Start(p: nat): nat
      requires Valid()
    {
      Max(PageAt(FirstPage() + p, page), off)
    }

    function Stop(p: nat): nat
      requires Valid()
    {
      Min(PageAt(FirstPage() + p + 1, page), end)
    }

    /** How many pieces the content has. */
    function Count(): nat
      requires Valid()
    {
      if off == end then 0
      else
        FirstBelowEnd(this);
        Chunks(end, page) - FirstPage()
    }
  }

  lemma {:induction false} PageStep(p: nat, page: nat)
    ensures PageAt(p + 1, page) == PageAt(p, page) + page
  {}

  lemma {:induction false} FirstBelowEnd(c: Content)
    requires c.Valid() && c.off < c.end
    ensures c.FirstPage() < Chunks(c.end, c.page)
  {
    PageHolds(c.off, c.page);
    PagesCover(c.end, c.page);
    PageOrder(c.FirstPage(), Chunks(c.end, c.page), c.page);
  }

  /**
   The pieces partition non-empty content: the first begins where it does, each begins where the one
   before ends, none is empty, and the last ends where it does.
   */
  lemma {:induction false} PiecesPartition(c: Content, p: nat)
    requires c.Valid() && c.off < c.end && p < c.Count()
    ensures c.Start(0) == c.off && c.Stop(c.Count() - 1) == c.end
    ensures c.off <= c.Start(p) < c.Stop(p) <= c.end
    ensures p + 1 < c.Count() ==> c.Stop(p) == c.Start(p + 1)
  {
    var f, n := c.FirstPage(), Chunks(c.end, c.page);
    FirstBelowEnd(c);
    PageHolds(c.off, c.page);
    PagesCover(c.end, c.page);
    ChunkOrder(f, f + p, c.page);
    ChunkOrder(f + p, n - 1, c.page);
    ChunkOrder(f + 1, f + p + 1, c.page);
    PageStep(f + p, c.page);
    if p + 1 < c.Count() { ChunkOrder(f + p + 1, n - 1, c.page); }
  }

  /** `piece_count`: the section's offset within its page, and its length, in whole pages. */
  function PieceCount(len: nat, page: nat, base: nat): nat
    requires page > 0
  {
    Chunks(base % page + len, page)
  }

  lemma {:induction false} CountShift(f: nat, x: nat, page: nat)
    requires page > 0 && x > 0
    ensures Chunks(PageAt(f, page) + x, page) == f + Chunks(x, page)
  {
    if f > 0 { CountShift(f - 1, x, page); }
  }

  /** It is how many pieces the content has. */
  lemma {:induction false} CountIs(c: Content)
    requires c.Valid() && c.off < c.end
    ensures PieceCount(c.end - c.off, c.page, c.off) == c.Count()
  {
    PageHolds(c.off, c.page);
    CountShift(c.FirstPage(), c.off % c.page + (c.end - c.off), c.page);
  }

  // ---------------------------------------------------------------- the iterator

  /** The first pieces, listed up to `at`. */
  ghost predicate Listed(c: Content, v: seq<(nat, nat)>, at: nat)
    requires c.Valid()
  {
    && |v| <= c.Count() && c.off + at <= c.end
    && (|v| < c.Count() <==> c.off + at < c.end)
    && (|v| < c.Count() ==> at == c.Start(|v|) - c.off)
    && forall p :: 0 <= p < |v| ==> v[p] == (c.Start(p) - c.off, c.Stop(p) - c.off)
  }

  /** Where the piece after those listed ends. */
  function NextEnd(at: nat, first: nat, page: nat, len: nat): nat {
    if at == 0 then Min(first, len) else Min(at + page, len)
  }

  lemma {:induction false} ListNext(c: Content, v: seq<(nat, nat)>, at: nat, first: nat)
    requires c.Valid() && c.off < c.end && Listed(c, v, at) && c.off + at < c.end && first == c.page - c.off % c.page
    ensures var end := NextEnd(at, first, c.page, c.end - c.off); end > at && Listed(c, v + [(at, end)], end)
  {
    PieceEnds(c, |v|, at, first);
  }

  /** `pieces`: the first cut short by where the section starts in its page, each other a whole page, the last cut by the end. */
  method PieceList(len: nat, page: nat, base: nat) returns (v: seq<(nat, nat)>)
    requires page > 0
    ensures var c := Content(base, base + len, page);
      && |v| == c.Count() == (if len == 0 then 0 else PieceCount(len, page, base))
      && forall p :: 0 <= p < |v| ==> v[p] == (c.Start(p) - base, c.Stop(p) - base)
  {
    ghost var c := Content(base, base + len, page);
    v := [];
    if len == 0 {
      return;
    }
    CountIs(c);
    FirstBelowEnd(c);
    PiecesPartition(c, 0);
    var first := page - base % page;
    var at := 0;
    while at < len
      invariant at <= len && Listed(c, v, at)
      decreases len - at
    {
      ListNext(c, v, at, first);
      var end := NextEnd(at, first, page, len);
      v := v + [(at, end)];
      at := end;
    }
  }

  /** Where the piece that begins at `at` ends. */
  lemma {:induction false} PieceEnds(c: Content, p: nat, at: nat, first: nat)
    requires c.Valid() && c.off < c.end && p < c.Count() && at == c.Start(p) - c.off && first == c.page - c.off % c.page
    ensures c.Stop(p) - c.off == (if at == 0 then Min(first, c.end - c.off) else Min(at + c.page, c.end - c.off)) > at
    ensures p + 1 < c.Count() <==> c.Stop(p) < c.end
    ensures p + 1 < c.Count() ==> c.Stop(p) == c.Start(p + 1)
  {
    PiecesPartition(c, p);
    PiecesPartition(c, 0);
    if p + 1 < c.Count() { PiecesPartition(c, p + 1); }
    PageHolds(c.off, c.page);
    PageStep(c.FirstPage(), c.page);
    PageStep(c.FirstPage() + p, c.page);
    if p > 0 {
      ChunkOrder(c.FirstPage() + 1, c.FirstPage() + p, c.page);
    }
  }

  // ---------------------------------------------------------------- rounding

  /** Bytes `a..b` of the content, widened to whole pieces. */
  function Rounded(c: Content, a: nat, b: nat): (nat, nat)
    requires c.Valid()
  {
    (Max(PageAt(PageOf(a, c.page), c.page), c.off), Min(PageAt(Chunks(b, c.page), c.page), c.end))
  }

  /** The pieces a check of `a..b` reads. */
  function FirstPiece(c: Content, a: nat): int
    requires c.Valid()
  {
    PageOf(a, c.page) - c.FirstPage()
  }

  function EndPiece(c: Content, b: nat): int
    requires c.Valid()
  {
    Chunks(b, c.page) - c.FirstPage()
  }

  /**
   A check's pieces and a plan's rounding are the same pages: the first piece begins and the last ends
   where the rounding does, and the range lies inside.
   */
  lemma {:induction false} SamePages(c: Content, a: nat, b: nat)
    requires c.Valid() && c.off <= a < b <= c.end
    ensures 0 <= FirstPiece(c, a) < EndPiece(c, b) <= c.Count()
    ensures Rounded(c, a, b) == (c.Start(FirstPiece(c, a)), c.Stop(EndPiece(c, b) - 1))
    ensures Rounded(c, a, b).0 <= a && b <= Rounded(c, a, b).1
  {
    var f := c.FirstPage();
    PageHolds(c.off, c.page);
    PageHolds(a, c.page);
    PagesCover(b, c.page);
    PagesCover(c.end, c.page);
    PageOrder(f, PageOf(a, c.page) + 1, c.page);
    PageOrder(PageOf(a, c.page), Chunks(b, c.page), c.page);
    PageOrder(Chunks(b, c.page) - 1, Chunks(c.end, c.page), c.page);
  }

  lemma {:induction false} StartsOrder(c: Content, p: nat, q: nat)
    requires c.Valid() && p <= q
    ensures c.Start(p) <= c.Start(q) && c.Stop(p) <= c.Stop(q)
  {
    ChunkOrder(c.FirstPage() + p, c.FirstPage() + q, c.page);
    ChunkOrder(c.FirstPage() + p + 1, c.FirstPage() + q + 1, c.page);
  }
}
