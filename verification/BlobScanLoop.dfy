/** The scan's loops, each proved against the plain walk. */
module BlobScanLoop {
  import opened Bytes
  import opened Wrappers
  import opened Runs
  import opened Records
  import opened BlobVerify
  import opened BlobScan
  import opened Chunked
  import opened BlobRead

  /** What the plain walk has handed out after `n` ranks. */
  function WalkOf(all: seq<seq<Entry>>, from: nat, n: nat): seq<Entry>
    requires n > 0 ==> from + n <= |all|
  {
    if n == 0 then [] else Joined(all[from..from + n])
  }

  lemma {:induction false} WalkNext(all: seq<seq<Entry>>, from: nat, n: nat)
    requires from + n < |all|
    ensures WalkOf(all, from, n + 1) == WalkOf(all, from, n) + all[from + n]
  {
    var s, t := all[from..from + n + 1], all[from..from + n];
    assert s != [] && s[..|s| - 1] == t && s[|s| - 1] == all[from + n];
    assert Joined(s) == Joined(t) + all[from + n];
    if n == 0 { assert t == []; }
  }

  // ---------------------------------------------------------------- one record

  /** A block an extent names, where it can be sliced: the one kept, or a plain one the source lends, checked and kept. */
  method KeptBlock(reader: Reader, id: nat, cached: Option<(nat, bytes)>, lent: seq<Option<bytes>>,
    ghost z: Codec, ghost data: seq<bytes>, ghost content: seq<bytes>)
    returns (ok: bool, run: Option<bytes>, kept: Option<(nat, bytes)>)
    requires Blocks(reader, z, data, content) && Keeps(cached, lent, content) && id < |data|
    requires Lends(lent, data)
    modifies reader`verified
    ensures Blocks(reader, z, data, content) && Keeps(kept, lent, content) && ok
    ensures run.Some? ==> run.value == content[id] && lent[id].Some?
    ensures run.None? ==> lent[id].None? || !reader.t.locs[id].IsPlain()
  {
    if cached.Some? && cached.value.0 == id {
      return true, Some(cached.value.1), cached;
    }
    if !reader.t.locs[id].IsPlain() || lent[id].None? {
      return true, None, cached;
    }
    ok := WholeBlock(reader, id, lent[id].value, data);
    if !ok {
      return false, None, cached;
    }
    run, kept := lent[id], Some((id, lent[id].value));
  }

  /**
   One extent's values: from its record's tail, from a block kept, or from a block read for it alone,
   which is refused exactly where that read does not pass.
   */
  method EmitOneExt(reader: Reader, k: bytes, tail: bytes, e: Ext, cached: Option<(nat, bytes)>, lent: seq<Option<bytes>>,
    z: Codec, data: seq<bytes>, ghost content: seq<bytes>) returns (ok: bool, out: seq<Entry>, kept: Option<(nat, bytes)>)
    requires Blocks(reader, z, data, content) && Keeps(cached, lent, content) && SaneExt(tail, content, e)
    requires Lends(lent, data)
    modifies reader`verified
    ensures Blocks(reader, z, data, content) && Keeps(kept, lent, content)
    ensures ok <==> Reached(reader.t, reader.checks, lent, e)
    ensures out == if ok then EmitExt(k, tail, content, e) else []
  {
    kept := cached;
    var from := tail;
    if !e.IsInline() {
      var bytes;
      ok, bytes, kept := KeptBlock(reader, e.block, cached, lent, z, data, content);
      if !ok {
        return false, [], kept;
      }
      if bytes.None? {
        var run := WithExtent(reader, z, e, data, content);
        if run.None? {
          return false, [], kept;
        }
        ok, out := EmitRun(k, run.value, e);
        return;
      }
      from := bytes.value;
    }
    if e.off + e.len > |from| {
      return false, [], kept;
    }
    ok, out := EmitRun(k, from[e.off..e.off + e.len], e);
  }

  /** A run's values beside its key. */
  method EmitRun(k: bytes, run: bytes, e: Ext) returns (ok: bool, out: seq<Entry>)
    ensures ok <==> ValuesOf(run, e).damage.None?
    ensures out == Pairs(k, ValuesOf(run, e).values)
  {
    var f, damage := EachValue(run, e);
    ok, out := damage.None?, Pairs(k, f);
  }

  /** How a record stands: its first `i` extents handed out whole, and the next refused, if it has ended. */
  ghost predicate Emitted(ok: bool, out: seq<Entry>, p: Parsed, i: nat, t: Table, checks: bool, lent: seq<Option<bytes>>,
    content: seq<bytes>)
  {
    && i <= |p.exts| && AllReached(t, checks, lent, p.exts[..i])
    && out == EmitExts(p.key, p.tail, content, p.exts[..i])
    && (!ok ==> i < |p.exts| && !Reached(t, checks, lent, p.exts[i]))
  }

  lemma {:induction false} EmittedEnds(ok: bool, out: seq<Entry>, p: Parsed, i: nat, t: Table, checks: bool, lent: seq<Option<bytes>>,
    content: seq<bytes>)
    requires Emitted(ok, out, p, i, t, checks, lent, content) && (ok ==> i == |p.exts|)
    ensures ok <==> AllReached(t, checks, lent, p.exts)
    ensures out <= Emit(p, content) && (ok ==> out == Emit(p, content))
  {
    EmitsFirst(p.key, p.tail, content, p.exts, i);
    if ok { assert p.exts[..i] == p.exts; }
  }

  lemma {:induction false} EmittedMore(ok: bool, out: seq<Entry>, vs: seq<Entry>, p: Parsed, i: nat, t: Table, checks: bool,
    lent: seq<Option<bytes>>, content: seq<bytes>)
    requires Emitted(true, out, p, i, t, checks, lent, content) && i < |p.exts|
    requires ok <==> Reached(t, checks, lent, p.exts[i])
    requires vs == if ok then EmitExt(p.key, p.tail, content, p.exts[i]) else []
    ensures Emitted(ok, out + vs, p, if ok then i + 1 else i, t, checks, lent, content)
  {
    if ok {
      ReachedMore(t, checks, lent, p.exts, i);
      EmitsMore(p.key, p.tail, content, p.exts, i);
    } else {
      assert out + vs == out;
    }
  }

  lemma {:induction false} ReachedMore(t: Table, checks: bool, lent: seq<Option<bytes>>, exts: seq<Ext>, i: nat)
    requires i < |exts| && AllReached(t, checks, lent, exts[..i]) && Reached(t, checks, lent, exts[i])
    ensures AllReached(t, checks, lent, exts[..i + 1])
  {
    var more := exts[..i + 1];
    forall j | 0 <= j < |more| ensures Reached(t, checks, lent, more[j]) {
      if j < i { assert more[j] == exts[..i][j]; }
    }
  }

  lemma {:induction false} EmitsMore(k: bytes, tail: bytes, content: seq<bytes>, exts: seq<Ext>, i: nat)
    requires i < |exts|
    ensures EmitExts(k, tail, content, exts[..i + 1]) == EmitExts(k, tail, content, exts[..i]) + EmitExt(k, tail, content, exts[i])
  {
    assert exts[..i + 1][..i] == exts[..i];
  }

  /** The next extent's values after those before it. */
  method EmitNext(reader: Reader, p: Parsed, i: nat, cached: Option<(nat, bytes)>, lent: seq<Option<bytes>>,
    z: Codec, data: seq<bytes>, ghost content: seq<bytes>, before: seq<Entry>)
    returns (ok: bool, out: seq<Entry>, kept: Option<(nat, bytes)>)
    requires Blocks(reader, z, data, content) && Keeps(cached, lent, content) && Lends(lent, data)
    requires i < |p.exts| && Sane(p, content) && Emitted(true, before, p, i, reader.t, reader.checks, lent, content)
    modifies reader`verified
    ensures Blocks(reader, z, data, content) && Keeps(kept, lent, content)
    ensures Emitted(ok, out, p, if ok then i + 1 else i, reader.t, reader.checks, lent, content)
  {
    var vs;
    assert SaneExt(p.tail, content, p.exts[i]);
    ok, vs, kept := EmitOneExt(reader, p.key, p.tail, p.exts[i], cached, lent, z, data, content);
    EmittedMore(ok, before, vs, p, i, reader.t, reader.checks, lent, content);
    out := before + vs;
  }

  /** A record's extents in turn, up to the first that is refused. */
  method EmitRecord(reader: Reader, p: Parsed, cached: Option<(nat, bytes)>, lent: seq<Option<bytes>>,
    z: Codec, data: seq<bytes>, ghost content: seq<bytes>) returns (ok: bool, out: seq<Entry>, kept: Option<(nat, bytes)>)
    requires Blocks(reader, z, data, content) && Keeps(cached, lent, content) && Sane(p, content)
    requires Lends(lent, data)
    modifies reader`verified
    ensures Blocks(reader, z, data, content) && Keeps(kept, lent, content)
    ensures ok <==> AllReached(reader.t, reader.checks, lent, p.exts)
    ensures out <= Emit(p, content) && (ok ==> out == Emit(p, content))
  {
    ok, out, kept := true, [], cached;
    var i := 0;
    assert p.exts[..0] == [];
    while i < |p.exts|
      invariant i <= |p.exts| && ok && Blocks(reader, z, data, content) && Keeps(kept, lent, content)
      invariant Emitted(true, out, p, i, reader.t, reader.checks, lent, content)
    {
      ok, out, kept := EmitNext(reader, p, i, kept, lent, z, data, content, out);
      if !ok {
        break;
      }
      i := i + 1;
    }
    EmittedEnds(ok, out, p, i, reader.t, reader.checks, lent, content);
  }

  // ---------------------------------------------------------------- the loops

  /** A rank whose every extent a scan can read. */
  ghost predicate RankReached(recs: bytes, dir: bytes, nkeys: nat, t: Table, checks: bool, lent: seq<Option<bytes>>, rank: nat) {
    At(recs, dir, nkeys, rank).Some? ==> AllReached(t, checks, lent, At(recs, dir, nkeys, rank).value.exts)
  }

  ghost predicate RanksReached(recs: bytes, dir: bytes, nkeys: nat, t: Table, checks: bool, lent: seq<Option<bytes>>, from: nat, n: nat) {
    forall r {:trigger RankReached(recs, dir, nkeys, t, checks, lent, r)} :: from <= r < from + n ==>
      RankReached(recs, dir, nkeys, t, checks, lent, r)
  }

  /** The next common record, where it is one. */
  method FastNext(recs: bytes, dir: bytes, nkeys: nat, rank: nat, ghost content: seq<bytes>, ghost all: seq<seq<Entry>>,
    ghost t: Table, ghost checks: bool, ghost lent: seq<Option<bytes>>)
    returns (r: Fast)
    requires WellFormed(recs, dir, nkeys, content, all) && rank < nkeys
    ensures !r.Damaged? && (r.Emits? ==> r.entries == all[rank] && RankReached(recs, dir, nkeys, t, checks, lent, rank))
  {
    assert Ranked(recs, dir, nkeys, content, rank, all[rank]);
    var off := OffAt(dir, nkeys, rank);
    r := FastRecord(recs, off.value, At(recs, dir, nkeys, rank).value, content);
  }

  /** The common records from a rank on, up to the first of another shape. */
  method FastLoop(recs: bytes, dir: bytes, nkeys: nat, from: nat, limit: nat, ghost content: seq<bytes>, ghost all: seq<seq<Entry>>,
    ghost t: Table, ghost checks: bool, ghost lent: seq<Option<bytes>>)
    returns (ok: bool, out: seq<Entry>, seen: nat)
    requires WellFormed(recs, dir, nkeys, content, all)
    ensures ok && seen <= Taken(nkeys, from, limit) && out == WalkOf(all, from, seen)
    ensures RanksReached(recs, dir, nkeys, t, checks, lent, from, seen)
  {
    var want := Taken(nkeys, from, limit);
    ok, out, seen := true, [], 0;
    while seen < want
      invariant ok && seen <= want && out == WalkOf(all, from, seen)
      invariant RanksReached(recs, dir, nkeys, t, checks, lent, from, seen)
    {
      var r := FastNext(recs, dir, nkeys, from + seen, content, all, t, checks, lent);
      if r.Other? {
        return;
      }
      if r.Damaged? {
        return false, out, seen;
      }
      WalkNext(all, from, seen);
      RanksMore(recs, dir, nkeys, t, checks, lent, from, seen);
      out := out + r.entries;
      seen := seen + 1;
    }
  }

  /** The next record of any shape; `None` past the last. */
  method GeneralNext(reader: Reader, recs: bytes, dir: bytes, nkeys: nat, rank: nat, cached: Option<(nat, bytes)>,
    lent: seq<Option<bytes>>, z: Codec, data: seq<bytes>, ghost content: seq<bytes>, ghost all: seq<seq<Entry>>)
    returns (ok: bool, out: Option<seq<Entry>>, kept: Option<(nat, bytes)>)
    requires WellFormed(recs, dir, nkeys, content, all) && Blocks(reader, z, data, content) && Keeps(cached, lent, content)
    requires Lends(lent, data)
    modifies reader`verified
    ensures Blocks(reader, z, data, content) && Keeps(kept, lent, content)
    ensures rank >= nkeys ==> ok && out.None?
    ensures rank < nkeys ==> out.Some? && (ok <==> RankReached(recs, dir, nkeys, reader.t, reader.checks, lent, rank))
    ensures rank < nkeys && out.Some? ==> out.value <= all[rank] && (ok ==> out.value == all[rank])
  {
    if rank < nkeys { assert Ranked(recs, dir, nkeys, content, rank, all[rank]); }
    var p := At(recs, dir, nkeys, rank);
    if p.None? {
      return true, None, cached;
    }
    var es;
    ok, es, kept := EmitRecord(reader, p.value, cached, lent, z, data, content);
    out := Some(es);
  }

  /** How a scan stands: the ranks handed out whole, and the rank it stopped in, if at a refusal. */
  ghost predicate Scanned(ok: bool, out: seq<Entry>, seen: nat, recs: bytes, dir: bytes, nkeys: nat, from: nat, want: nat,
    t: Table, checks: bool, lent: seq<Option<bytes>>, all: seq<seq<Entry>>)
  {
    && seen <= want && (want > 0 ==> from + want <= |all|)
    && RanksReached(recs, dir, nkeys, t, checks, lent, from, seen)
    && (ok ==> out == WalkOf(all, from, seen))
    && (!ok ==> seen < want)
    && (!ok ==> !RankReached(recs, dir, nkeys, t, checks, lent, from + seen))
    && (!ok ==> WalkOf(all, from, seen) <= out <= WalkOf(all, from, seen + 1))
  }

  lemma {:induction false} ScannedMore(ok: bool, out: seq<Entry>, es: seq<Entry>, seen: nat, recs: bytes, dir: bytes, nkeys: nat,
    from: nat, want: nat, t: Table, checks: bool, lent: seq<Option<bytes>>, all: seq<seq<Entry>>)
    requires Scanned(true, out, seen, recs, dir, nkeys, from, want, t, checks, lent, all) && seen < want
    requires ok <==> RankReached(recs, dir, nkeys, t, checks, lent, from + seen)
    requires es <= all[from + seen] && (ok ==> es == all[from + seen])
    ensures Scanned(ok, out + es, if ok then seen + 1 else seen, recs, dir, nkeys, from, want, t, checks, lent, all)
  {
    WalkNext(all, from, seen);
    Begins(WalkOf(all, from, seen), es, all[from + seen]);
    if ok { RanksMore(recs, dir, nkeys, t, checks, lent, from, seen); }
  }

  lemma {:induction false} Begins(w: seq<Entry>, es: seq<Entry>, x: seq<Entry>)
    requires es <= x
    ensures w <= w + es <= w + x
  {}

  lemma {:induction false} RanksMore(recs: bytes, dir: bytes, nkeys: nat, t: Table, checks: bool, lent: seq<Option<bytes>>,
    from: nat, seen: nat)
    requires RanksReached(recs, dir, nkeys, t, checks, lent, from, seen)
    requires RankReached(recs, dir, nkeys, t, checks, lent, from + seen)
    ensures RanksReached(recs, dir, nkeys, t, checks, lent, from, seen + 1)
  {}

  /** One rank more of a scan; `more` is false past the last. */
  method GeneralStep(reader: Reader, recs: bytes, dir: bytes, nkeys: nat, from: nat, seen: nat, limit: nat, before: seq<Entry>,
    cached: Option<(nat, bytes)>, lent: seq<Option<bytes>>, z: Codec, data: seq<bytes>, ghost content: seq<bytes>,
    ghost all: seq<seq<Entry>>) returns (ok: bool, more: bool, out: seq<Entry>, kept: Option<(nat, bytes)>)
    requires WellFormed(recs, dir, nkeys, content, all) && Blocks(reader, z, data, content) && Keeps(cached, lent, content)
    requires Lends(lent, data) && seen < limit
    requires Scanned(true, before, seen, recs, dir, nkeys, from, Taken(nkeys, from, limit), reader.t, reader.checks, lent, all)
    modifies reader`verified
    ensures Blocks(reader, z, data, content) && Keeps(kept, lent, content)
    ensures Scanned(ok, out, if ok && more then seen + 1 else seen, recs, dir, nkeys, from, Taken(nkeys, from, limit),
      reader.t, reader.checks, lent, all)
    ensures !more ==> ok && seen == Taken(nkeys, from, limit)
  {
    var es;
    ok, es, kept := GeneralNext(reader, recs, dir, nkeys, from + seen, cached, lent, z, data, content, all);
    if es.None? {
      return ok, false, before, kept;
    }
    more := true;
    ScannedMore(ok, before, es.value, seen, recs, dir, nkeys, from, Taken(nkeys, from, limit), reader.t, reader.checks, lent, all);
    out := before + es.value;
  }

  /** Every other record, from where the fast loop stopped. */
  method GeneralLoop(reader: Reader, recs: bytes, dir: bytes, nkeys: nat, from: nat, start: nat, limit: nat, before: seq<Entry>,
    lent: seq<Option<bytes>>, z: Codec, data: seq<bytes>, ghost content: seq<bytes>, ghost all: seq<seq<Entry>>)
    returns (ok: bool, out: seq<Entry>, seen: nat)
    requires WellFormed(recs, dir, nkeys, content, all) && Blocks(reader, z, data, content)
    requires Lends(lent, data)
    requires Scanned(true, before, start, recs, dir, nkeys, from, Taken(nkeys, from, limit), reader.t, reader.checks, lent, all)
    requires start <= Taken(nkeys, from, limit)
    modifies reader`verified
    ensures Blocks(reader, z, data, content)
    ensures Scanned(ok, out, seen, recs, dir, nkeys, from, Taken(nkeys, from, limit), reader.t, reader.checks, lent, all)
    ensures ok ==> seen == Taken(nkeys, from, limit)
  {
    ok, out, seen := true, before, start;
    var cached: Option<(nat, bytes)> := None;
    while seen < limit
      invariant ok && Blocks(reader, z, data, content) && Keeps(cached, lent, content) && seen <= Taken(nkeys, from, limit)
      invariant Scanned(true, out, seen, recs, dir, nkeys, from, Taken(nkeys, from, limit), reader.t, reader.checks, lent, all)
    {
      var more;
      ok, more, out, cached := GeneralStep(reader, recs, dir, nkeys, from, seen, limit, out, cached, lent, z, data, content, all);
      if !ok || !more {
        return;
      }
      seen := seen + 1;
    }
  }

  /**
   `scan_at`: over a well-formed section, from any rank, with any limit, exactly what the plain walk
   hands out, whichever loop each record took and whichever way each block was read. It ends early
   exactly where some rank it takes has an extent no scan can read, in the first such rank.
   */
  method ScanAt(reader: Reader, recs: bytes, dir: bytes, nkeys: nat, from: nat, limit: nat,
    lent: seq<Option<bytes>>, z: Codec, data: seq<bytes>, ghost content: seq<bytes>, ghost all: seq<seq<Entry>>)
    returns (ok: bool, out: seq<Entry>, seen: nat)
    requires WellFormed(recs, dir, nkeys, content, all) && Blocks(reader, z, data, content)
    requires Lends(lent, data)
    modifies reader`verified
    ensures Blocks(reader, z, data, content)
    ensures ok <==> RanksReached(recs, dir, nkeys, reader.t, reader.checks, lent, from, Taken(nkeys, from, limit))
    ensures ok ==> seen == Taken(nkeys, from, limit) && out == WalkOf(all, from, seen)
    ensures Scanned(ok, out, seen, recs, dir, nkeys, from, Taken(nkeys, from, limit), reader.t, reader.checks, lent, all)
  {
    var start;
    ok, out, start := FastLoop(recs, dir, nkeys, from, limit, content, all, reader.t, reader.checks, lent);
    if !ok {
      return false, out, start;
    }
    ok, out, seen := GeneralLoop(reader, recs, dir, nkeys, from, start, limit, out, lent, z, data, content, all);
  }
}
