/** Two keys' values read and counted: their runs where they lie, or every value decoded. */
module IntersectRead {
  import opened Bytes
  import opened Wrappers
  import opened Runs
  import opened Chunked
  import opened BlobVerify
  import opened BlobPlan
  import opened BlobRead
  import opened BlobScan
  import opened Intersect

  /** The values of a key's extents, in order. */
  function AllValues(tail: bytes, content: seq<bytes>, exts: seq<Ext>): seq<bytes> {
    if exts == [] then []
    else
      var run := RunBytes(tail, content, exts[|exts| - 1]);
      AllValues(tail, content, exts[..|exts| - 1]) + if run.None? then [] else ValuesOf(run.value, exts[|exts| - 1]).values
  }

  /** A key as a lookup finds it: its extents and its record's tail. */
  datatype Found = Found(exts: seq<Ext>, tail: bytes) {
    ghost predicate Decodes(content: seq<bytes>) {
      forall i :: 0 <= i < |exts| ==> SaneExt(tail, content, exts[i])
    }

    ghost function Values(content: seq<bytes>): seq<bytes> { AllValues(tail, content, exts) }
  }

  // ---------------------------------------------------------------- one extent

  ghost predicate AllReadable(t: Table, checks: bool, exts: seq<Ext>) {
    forall i :: 0 <= i < |exts| ==> Readable(t, checks, exts[i])
  }

  /** `with_run`: an inline run from its record's tail, any other from its block. */
  method WithRun(reader: Reader, z: Codec, e: Ext, tail: bytes, data: seq<bytes>, ghost content: seq<bytes>)
    returns (run: Option<bytes>)
    requires Blocks(reader, z, data, content) && SaneExt(tail, content, e)
    modifies reader`verified
    ensures Blocks(reader, z, data, content)
    ensures run == if Readable(reader.t, reader.checks, e) then RunBytes(tail, content, e) else None
    ensures run.Some? <==> Readable(reader.t, reader.checks, e)
  {
    if e.IsInline() {
      if e.off + e.len > |tail| {
        return None;
      }
      return Some(tail[e.off..e.off + e.len]);
    }
    run := WithExtent(reader, z, e, data, content);
  }

  /** A run where it lies: in its tail, or in a plain block the source lends, checked; `ok` is false on damage. */
  method RunSlice(reader: Reader, e: Ext, tail: bytes, lent: seq<Option<bytes>>,
    ghost z: Codec, ghost data: seq<bytes>, ghost content: seq<bytes>) returns (ok: bool, run: Option<bytes>)
    requires Blocks(reader, z, data, content) && SaneExt(tail, content, e) && Lends(lent, data)
    modifies reader`verified
    ensures Blocks(reader, z, data, content) && ok && (run.Some? ==> run == RunBytes(tail, content, e))
  {
    if e.IsInline() {
      if e.off + e.len > |tail| {
        return false, None;
      }
      return true, Some(tail[e.off..e.off + e.len]);
    }
    if !reader.t.locs[e.block].IsPlain() || lent[e.block].None? {
      return true, None;
    }
    var raw := lent[e.block].value;
    if e.off + e.len > |raw| {
      return false, None;
    }
    ok := LentPasses(reader, e.block, raw, e.off, e.off + e.len, data);
    run := Some(raw[e.off..e.off + e.len]);
  }

  /** A range of a lent block, checked. */
  method LentPasses(reader: Reader, id: nat, raw: bytes, lo: nat, hi: nat, ghost data: seq<bytes>) returns (ok: bool)
    requires Ready(reader, data) && id < |data| && raw == data[id] && lo <= hi <= |raw|
    modifies reader`verified
    ensures Ready(reader, data) && ok
  {
    assert data[id][0..0 + |raw|] == raw;
    ok := CheckSpan(reader, id, raw, 0, lo, hi, data);
  }

  // ---------------------------------------------------------------- a key's values

  lemma {:induction false} OneMore(tail: bytes, content: seq<bytes>, exts: seq<Ext>, i: nat)
    requires i < |exts|
    ensures var run := RunBytes(tail, content, exts[i]);
      AllValues(tail, content, exts[..i + 1])
        == AllValues(tail, content, exts[..i]) + if run.None? then [] else ValuesOf(run.value, exts[i]).values
  {
    assert exts[..i + 1][..i] == exts[..i];
  }

  lemma {:induction false} OneMoreRead(t: Table, checks: bool, exts: seq<Ext>, i: nat)
    requires i < |exts| && AllReadable(t, checks, exts[..i]) && Readable(t, checks, exts[i])
    ensures AllReadable(t, checks, exts[..i + 1])
  {
    var more := exts[..i + 1];
    forall j | 0 <= j < |more| ensures Readable(t, checks, more[j]) {
      if j < i { assert more[j] == exts[..i][j]; }
    }
  }

  /** `read_exts`: every value of every extent, in order; refused exactly where some extent cannot be read. */
  method ReadExts(reader: Reader, z: Codec, k: Found, data: seq<bytes>, ghost content: seq<bytes>)
    returns (ok: bool, vs: seq<bytes>)
    requires Blocks(reader, z, data, content) && k.Decodes(content)
    modifies reader`verified
    ensures Blocks(reader, z, data, content) && (ok <==> AllReadable(reader.t, reader.checks, k.exts))
    ensures ok ==> vs == k.Values(content)
  {
    ok, vs := true, [];
    var i := 0;
    assert k.exts[..0] == [];
    while i < |k.exts|
      invariant i <= |k.exts| && ok && Blocks(reader, z, data, content) && AllReadable(reader.t, reader.checks, k.exts[..i])
      invariant vs == AllValues(k.tail, content, k.exts[..i])
    {
      var run := WithRun(reader, z, k.exts[i], k.tail, data, content);
      if run.None? {
        return false, vs;
      }
      var f, damage := EachValue(run.value, k.exts[i]);
      if damage.Some? {
        return false, vs;
      }
      OneMore(k.tail, content, k.exts, i);
      OneMoreRead(reader.t, reader.checks, k.exts, i);
      vs := vs + f;
      i := i + 1;
    }
    assert k.exts[..i] == k.exts;
  }

  lemma {:induction false} RunsFirst(r: bytes, rest: seq<bytes>, w: nat)
    requires w > 0
    ensures Intersect.Values([r] + rest, w) == Cut(r, w) + Intersect.Values(rest, w)
  {
    assert ([r] + rest)[0] == r && ([r] + rest)[1..] == rest;
  }

  lemma {:induction false} Regroup(a: seq<bytes>, b: seq<bytes>, c: seq<bytes>)
    ensures a + (b + c) == a + b + c
  {}

  lemma {:induction false} RunsSnoc(runs: seq<bytes>, w: nat, r: bytes)
    requires w > 0
    ensures Intersect.Values(runs + [r], w) == Intersect.Values(runs, w) + Cut(r, w)
  {
    if runs == [] {
      RunsFirst(r, [], w);
      assert runs + [r] == [r] + [];
    } else {
      var first, rest := runs[0], runs[1..];
      RunsSnoc(rest, w, r);
      RunsFirst(first, rest, w);
      RunsFirst(first, rest + [r], w);
      Regroup(Cut(first, w), Intersect.Values(rest, w), Cut(r, w));
      assert runs == [first] + rest && runs + [r] == [first] + (rest + [r]);
    }
  }

  /** `fixed_runs`: every run of a key where it lies; `None` where one is not fixed at the width, or cannot be lent. */
  method FixedRuns(reader: Reader, k: Found, width: nat, lent: seq<Option<bytes>>,
    ghost z: Codec, ghost data: seq<bytes>, ghost content: seq<bytes>) returns (ok: bool, runs: Option<seq<bytes>>)
    requires Blocks(reader, z, data, content) && k.Decodes(content) && Lends(lent, data)
    modifies reader`verified
    ensures Blocks(reader, z, data, content) && ok
    ensures runs.Some? && width > 0 ==> Intersect.Values(runs.value, width) == k.Values(content)
    ensures runs.Some? && width > 0 ==> AllReadable(reader.t, reader.checks, k.exts)
  {
    var v: seq<bytes> := [];
    var i := 0;
    assert k.exts[..0] == [];
    while i < |k.exts|
      invariant i <= |k.exts| && Blocks(reader, z, data, content)
      invariant width > 0 ==> Intersect.Values(v, width) == AllValues(k.tail, content, k.exts[..i])
      invariant width > 0 ==> AllReadable(reader.t, reader.checks, k.exts[..i])
    {
      var e := k.exts[i];
      if e.FixedWidth() != Some(width) {
        return true, None;
      }
      var run;
      ok, run := RunSlice(reader, e, k.tail, lent, z, data, content);
      if !ok || run.None? {
        return ok, None;
      }
      OneMore(k.tail, content, k.exts, i);
      if width > 0 {
        RunsSnoc(v, width, run.value);
        OneMoreRead(reader.t, reader.checks, k.exts, i);
      }
      v := v + [run.value];
      i := i + 1;
    }
    assert k.exts[..i] == k.exts;
    ok, runs := true, Some(v);
  }

  // ---------------------------------------------------------------- two keys

  ghost predicate BothReadable(t: Table, checks: bool, a: Found, b: Found) {
    AllReadable(t, checks, a.exts) && AllReadable(t, checks, b.exts)
  }

  /** Both keys' values decoded, then walked. */
  method CountDecoded(reader: Reader, z: Codec, a: Found, b: Found, data: seq<bytes>, ghost content: seq<bytes>)
    returns (ok: bool, n: nat)
    requires Blocks(reader, z, data, content) && a.Decodes(content) && b.Decodes(content)
    modifies reader`verified
    ensures Blocks(reader, z, data, content) && (ok <==> BothReadable(reader.t, reader.checks, a, b))
    ensures ok ==> n == Walk(a.Values(content), b.Values(content), 0, 0)
  {
    n := 0;
    var va, vb;
    ok, va := ReadExts(reader, z, a, data, content);
    if !ok {
      return;
    }
    ok, vb := ReadExts(reader, z, b, data, content);
    if !ok {
      return;
    }
    n := CountLists(va, vb);
  }

  /**
   `intersect_fixed`: the walk's count of two keys' values, none where a key is missing, however each
   run is stored and read. It is never more than the keys share, and is that where both lists ascend.
   Refused exactly where both keys are there and some extent cannot be read by itself.
   */
  method IntersectFixed(reader: Reader, z: Codec, a: Option<Found>, b: Option<Found>, width: nat,
    lent: seq<Option<bytes>>, data: seq<bytes>, ghost content: seq<bytes>) returns (ok: bool, n: nat)
    requires Blocks(reader, z, data, content) && Lends(lent, data)
    requires (a.Some? ==> a.value.Decodes(content)) && (b.Some? ==> b.value.Decodes(content))
    modifies reader`verified
    ensures Blocks(reader, z, data, content)
    ensures ok <==> (a.Some? && b.Some? ==> BothReadable(reader.t, reader.checks, a.value, b.value))
    ensures a.None? || b.None? ==> n == 0
    ensures ok && a.Some? && b.Some? ==>
      var va, vb := a.value.Values(content), b.value.Values(content);
      n == Walk(va, vb, 0, 0) <= Shared(va, vb) && (Rising(va) && Rising(vb) ==> n == Shared(va, vb))
  {
    if a.None? || b.None? {
      return true, 0;
    }
    n := 0;
    NeverTooMany(a.value.Values(content), b.value.Values(content));
    var ra, rb;
    ok, ra := FixedRuns(reader, a.value, width, lent, z, data, content);
    if !ok {
      return;
    }
    ok, rb := FixedRuns(reader, b.value, width, lent, z, data, content);
    if !ok {
      return;
    }
    if width > 0 && ra.Some? && rb.Some? {
      n := CountRuns(ra.value, rb.value, width);
    } else {
      ok, n := CountDecoded(reader, z, a.value, b.value, data, content);
    }
  }
}
