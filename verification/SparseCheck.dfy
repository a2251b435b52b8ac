/** A sparse reader's checks: whole pieces, each read once, trusted only after its bytes matched the row. */
module SparseCheck {
  import opened Bytes
  import opened Pieces
  import opened BlobPlan
  import Chunked

  /** The checksummed content of the object's section, and its row; no row where nothing is checked. */
  datatype Row = Row(content: Content, crcs: seq<nat>)

  /** The row is whole, and the object holds the content. */
  ghost predicate RowFits(row: Row, obj: bytes) {
    && row.content.Valid() && row.content.end <= |obj|
    && (row.crcs != [] ==> |row.crcs| == row.content.Count())
  }

  /** A piece's bytes match the row. */
  ghost predicate Matches(row: Row, obj: bytes, p: nat)
    requires RowFits(row, obj)
  {
    && p < |row.crcs| && row.content.Start(p) <= row.content.Stop(p)
    && Chunked.Sum(obj[row.content.Start(p)..row.content.Stop(p)]) == row.crcs[p]
  }

  /** A piece is marked only where its bytes matched. */
  ghost predicate PiecesSound(row: Row, obj: bytes, bits: seq<bool>)
    requires RowFits(row, obj)
  {
    |bits| >= |row.crcs| && forall p {:trigger Matches(row, obj, p)} :: 0 <= p < |bits| && bits[p] ==> Matches(row, obj, p)
  }

  /** Every range lies in one span. */
  ghost predicate AllWithin(rs: seq<Range>, lo: nat, hi: nat) {
    forall i :: 0 <= i < |rs| ==> lo <= rs[i].at && rs[i].End() <= hi
  }

  lemma {:induction false} Widens(c: Content, p0: nat, p: nat, p1: nat, read: seq<Range>)
    requires c.Valid() && p0 <= p < p1 && AllWithin(read, c.Start(p), c.Stop(p))
    ensures AllWithin(read, c.Start(p0), c.Stop(p1 - 1))
  {
    StartsOrder(c, p0, p);
    StartsOrder(c, p, p1 - 1);
  }

  lemma {:induction false} JoinsWithin(a: seq<Range>, b: seq<Range>, lo: nat, hi: nat)
    requires AllWithin(a, lo, hi) && AllWithin(b, lo, hi)
    ensures AllWithin(a + b, lo, hi)
  {}

  class Checker {
    const obj: bytes
    const row: Row
    var verified: seq<bool>

    constructor (obj: bytes, row: Row)
      requires RowFits(row, obj)
      ensures this.obj == obj && this.row == row && PiecesSound(row, obj, verified)
    {
      this.obj, this.row := obj, row;
      verified := seq((|row.crcs| + 63) / 64 * 64, i => false);
    }

    ghost predicate Sound()
      reads this
    {
      RowFits(row, obj) && PiecesSound(row, obj, verified)
    }

    /** One piece, unless it has been checked before. */
    method CheckPiece(p: nat) returns (ok: bool, read: seq<Range>)
      requires Sound() && row.crcs != [] && p < row.content.Count()
      modifies this`verified
      ensures Sound() && AllWithin(read, row.content.Start(p), row.content.Stop(p))
      ensures ok <==> Matches(row, obj, p)
    {
      read := [];
      if verified[p] {
        assert Matches(row, obj, p);
        return true, read;
      }
      PiecesPartition(row.content, p);
      var start, stop := row.content.Start(p), row.content.Stop(p);
      read := [Range(start, stop - start)];
      ok := Chunked.Sum(obj[start..stop]) == row.crcs[p];
      if ok {
        verified := verified[p := true];
      }
    }

    /**
     `verify_span`: the pieces that cover a span of the section. It passes exactly where they match the
     row, and what it reads lies in the span rounded to pieces, as a plan rounds it.
     */
    method VerifySpan(rel: nat, len: nat) returns (ok: bool, read: seq<Range>)
      requires Sound()
      requires row.crcs != [] && rel < row.content.end - row.content.off ==> rel + len <= row.content.end - row.content.off
      modifies this`verified
      ensures Sound()
      ensures var c := row.content; var a := c.off + rel; var b := a + len;
        if row.crcs == [] || len == 0 || rel >= c.end - c.off then ok && read == []
        else
          && 0 <= FirstPiece(c, a)
          && (ok <==> forall p :: FirstPiece(c, a) <= p < EndPiece(c, b) ==> Matches(row, obj, p))
          && AllWithin(read, Rounded(c, a, b).0, Rounded(c, a, b).1)
    {
      var c := row.content;
      ok, read := true, [];
      if row.crcs == [] || len == 0 || rel >= c.end - c.off {
        return;
      }
      var a := c.off + rel;
      var b := Min(a + len, c.end);
      SamePages(c, a, b);
      ok, read := CheckPieces(FirstPiece(c, a), EndPiece(c, b));
    }

    /** One piece more, after what was read for those before it. */
    method CheckAfter(p0: nat, p: nat, p1: nat, before: seq<Range>) returns (ok: bool, read: seq<Range>)
      requires Sound() && row.crcs != [] && p0 <= p < p1 <= row.content.Count()
      requires AllWithin(before, row.content.Start(p0), row.content.Stop(p1 - 1))
      modifies this`verified
      ensures Sound() && AllWithin(read, row.content.Start(p0), row.content.Stop(p1 - 1))
      ensures ok <==> Matches(row, obj, p)
    {
      var more;
      ok, more := CheckPiece(p);
      Widens(row.content, p0, p, p1, more);
      JoinsWithin(before, more, row.content.Start(p0), row.content.Stop(p1 - 1));
      read := before + more;
    }

    /** The pieces from `p0` up to `p1`, in turn. */
    method CheckPieces(p0: nat, p1: nat) returns (ok: bool, read: seq<Range>)
      requires Sound() && row.crcs != [] && p0 < p1 <= row.content.Count()
      modifies this`verified
      ensures Sound() && AllWithin(read, row.content.Start(p0), row.content.Stop(p1 - 1))
      ensures ok <==> forall p :: p0 <= p < p1 ==> Matches(row, obj, p)
    {
      ok, read := true, [];
      var p := p0;
      while p < p1
        invariant p0 <= p <= p1 && ok && Sound()
        invariant forall q :: p0 <= q < p ==> Matches(row, obj, q)
        invariant AllWithin(read, row.content.Start(p0), row.content.Stop(p1 - 1))
      {
        ok, read := CheckAfter(p0, p, p1, read);
        if !ok {
          return;
        }
        p := p + 1;
      }
    }
  }

  /** `round_to_pieces`: a range of the content widened to whole pieces; any other as it was. */
  function Round(row: Row, named: bool, r: Range): Range
    requires row.content.Valid()
  {
    var c := row.content;
    if !named || r.at < c.off || r.at >= c.end || r.len == 0 then r
    else
      var (a, b) := Rounded(c, r.at, r.End());
      Range(a, if b > a then b - a else 0)
  }

  /** What is read for a range is in its plan: the range itself, and the pieces that check it. */
  lemma {:induction false} RoundCovers(row: Row, named: bool, r: Range)
    requires row.content.Valid()
    requires named ==> row.content.off <= r.at && r.End() <= row.content.end
    ensures var w := Round(row, named, r);
      && w.at <= r.at && r.End() <= w.End()
      && (named && r.len > 0 ==> (w.at, w.End()) == Rounded(row.content, r.at, r.End()))
  {
    if named && r.len > 0 { SamePages(row.content, r.at, r.End()); }
  }
}
