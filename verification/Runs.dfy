/**
 Runs: a key's values as one string of bytes, and the extent that describes it.

 A run whose values share one non-zero width holds them back to back; any other puts a varint length
 before each.
 */
module Runs {
  import opened Bytes
  import opened Varint
  import opened Wrappers

  const TOMBSTONE: nat := 0x8000_0000
  const FIXED: nat := 0x4000_0000
  const INLINE: nat := 0xFFFF_FFFF

  /** The width that cuts `len` bytes into `n` values; `None` where none does. */
  function Each(len: nat, n: nat): Option<nat>
    requires n > 0
    decreases len
  {
    if len == 0 then Some(0)
    else if len < n then None
    else
      var r := Each(len - n, n);
      if r.None? then None else Some(r.value + 1)
  }

  /** It is the quotient, where there is no remainder. */
  lemma {:induction false} EachDivides(len: nat, n: nat)
    requires n > 0
    ensures Each(len, n) == if len % n == 0 then Some(len / n) else None
    decreases len
  {
    if len >= n {
      EachDivides(len - n, n);
      var q, r := (len - n) / n, (len - n) % n;
      MulStep(n, q);
      ModUnique(len, n, q + 1, r);
    } else {
      ModUnique(len, n, 0, len);
    }
  }

  /** One contiguous run of a key's values. `count` is the number of records under two flags. */
  datatype Ext = Ext(block: nat, off: nat, len: nat, last: nat, count: nat) {
    predicate IsInline() { block == INLINE }
    predicate IsTombstone() { (count / TOMBSTONE) % 2 == 1 }
    predicate IsFixed() { (count / FIXED) % 2 == 1 }

    function Records(): nat { count % FIXED }

    /** What every value is long, where the run says so and its length agrees. */
    function FixedWidth(): Option<nat> {
      if !IsFixed() || Records() == 0 then None else Each(len, Records())
    }

    /** Every field is a 32-bit word. */
    predicate Fits() { block < U32 && off < U32 && len < U32 && last < U32 && count < U32 }
  }

  /** The count word of `n` records under its flags. */
  function CountOf(n: nat, fixed: bool, tomb: bool): nat {
    n + (if fixed then FIXED else 0) + (if tomb then TOMBSTONE else 0)
  }

  lemma {:induction false} CountReads(n: nat, fixed: bool, tomb: bool, e: Ext)
    requires n < FIXED && e.count == CountOf(n, fixed, tomb)
    ensures e.Records() == n && e.IsFixed() == fixed && e.IsTombstone() == tomb && e.count < U32
  {}

  // ---------------------------------------------------------------- encoding

  /** Values end to end. */
  function Concat(vs: seq<bytes>): bytes {
    if vs == [] then [] else vs[0] + Concat(vs[1..])
  }

  /** A value behind its length. */
  function Prefixed(v: bytes): (b: bytes)
    ensures |b| > 0
  {
    Uvarint(|v|) + v
  }

  function AllPrefixed(vs: seq<bytes>): bytes {
    if vs == [] then [] else Prefixed(vs[0]) + AllPrefixed(vs[1..])
  }

  /** All values of one width, and not none or zero. */
  predicate OneWidth(vs: seq<bytes>) {
    && vs != [] && |vs[0]| > 0
    && forall i :: 0 <= i < |vs| ==> |vs[i]| == |vs[0]|
  }

  /** A key's values as a run. */
  function RunOf(vs: seq<bytes>): bytes {
    if OneWidth(vs) then Concat(vs) else AllPrefixed(vs)
  }

  /** Where the last value's record begins in its run. */
  function LastOf(vs: seq<bytes>): nat {
    if vs == [] then 0
    else if OneWidth(vs) then (|vs| - 1) * |vs[0]|
    else |AllPrefixed(vs[..|vs| - 1])|
  }

  /** The extent of a run: inline, from the start of its record's tail. */
  function InlineExt(vs: seq<bytes>, tomb: bool): Ext {
    Ext(INLINE, 0, |RunOf(vs)|, LastOf(vs), CountOf(|vs|, OneWidth(vs), tomb))
  }

  lemma {:induction false} ConcatSnoc(vs: seq<bytes>, v: bytes)
    ensures Concat(vs + [v]) == Concat(vs) + v
  {
    if vs == [] {
      assert vs + [v] == [v] && [v][1..] == [];
    } else {
      assert (vs + [v])[1..] == vs[1..] + [v];
      ConcatSnoc(vs[1..], v);
    }
  }

  lemma {:induction false} PrefixedSnoc(vs: seq<bytes>, v: bytes)
    ensures AllPrefixed(vs + [v]) == AllPrefixed(vs) + Prefixed(v)
  {
    if vs == [] {
      assert vs + [v] == [v] && [v][1..] == [];
    } else {
      assert (vs + [v])[1..] == vs[1..] + [v];
      PrefixedSnoc(vs[1..], v);
    }
  }

  lemma {:induction false} ConcatSlice(vs: seq<bytes>, i: nat)
    requires i < |vs|
    ensures |Concat(vs[..i])| + |vs[i]| <= |Concat(vs)|
    ensures Concat(vs)[|Concat(vs[..i])|..|Concat(vs[..i])| + |vs[i]|] == vs[i]
  {
    if i > 0 {
      ConcatSlice(vs[1..], i - 1);
      assert vs[..i][1..] == vs[1..][..i - 1];
    }
  }

  /** Every length the first, and that one not zero. */
  method AllOneWidth(lens: seq<nat>) returns (fixed: bool)
    ensures fixed <==> lens != [] && lens[0] > 0 && forall k :: 0 <= k < |lens| ==> lens[k] == lens[0]
  {
    fixed := |lens| > 0 && lens[0] > 0;
    var i := 0;
    while i < |lens| && fixed
      invariant 0 <= i <= |lens|
      invariant fixed <==> |lens| > 0 && lens[0] > 0 && forall k :: 0 <= k < i ==> lens[k] == lens[0]
    {
      fixed := lens[i] == lens[0];
      i := i + 1;
    }
  }

  /** A run from its values' bytes and lengths; where its last record begins; and the count's flag. */
  method EncodeRun(values: bytes, lens: seq<nat>, ghost vs: seq<bytes>) returns (out: bytes, last: nat, flag: nat)
    requires values == Concat(vs) && |lens| == |vs| && forall i :: 0 <= i < |vs| ==> lens[i] == |vs[i]|
    ensures out == RunOf(vs) && last == LastOf(vs)
    ensures flag == if OneWidth(vs) then FIXED else 0
  {
    var fixed := AllOneWidth(lens);
    assert fixed == OneWidth(vs);
    if fixed {
      return values, (|lens| - 1) * lens[0], FIXED;
    }
    out, last := PrefixRun(values, lens, vs);
    flag := 0;
  }

  lemma {:induction false} PrefixStep(vs: seq<bytes>, k: nat)
    requires k < |vs|
    ensures vs[..k + 1][..k] == vs[..k]
    ensures AllPrefixed(vs[..k + 1]) == AllPrefixed(vs[..k]) + Uvarint(|vs[k]|) + vs[k]
    ensures Concat(vs[..k + 1]) == Concat(vs[..k]) + vs[k]
    ensures |Concat(vs[..k])| + |vs[k]| <= |Concat(vs)|
    ensures Concat(vs)[|Concat(vs[..k])|..|Concat(vs[..k])| + |vs[k]|] == vs[k]
  {
    assert vs[..k + 1] == vs[..k] + [vs[k]];
    ConcatSlice(vs, k);
    ConcatSnoc(vs[..k], vs[k]);
    PrefixedSnoc(vs[..k], vs[k]);
  }

  /** A length before each value. */
  method PrefixRun(values: bytes, lens: seq<nat>, ghost vs: seq<bytes>) returns (out: bytes, last: nat)
    requires values == Concat(vs) && |lens| == |vs| && forall i :: 0 <= i < |vs| ==> lens[i] == |vs[i]|
    ensures out == AllPrefixed(vs)
    ensures last == if vs == [] then 0 else |AllPrefixed(vs[..|vs| - 1])|
  {
    out, last := [], 0;
    var at, k := 0, 0;
    while k < |lens|
      invariant 0 <= k <= |lens| && at == |Concat(vs[..k])|
      invariant out == AllPrefixed(vs[..k])
      invariant last == if k == 0 then 0 else |AllPrefixed(vs[..k - 1])|
    {
      PrefixStep(vs, k);
      last := |out|;
      out := PutUvarint(out, lens[k]);
      out := out + values[at..at + lens[k]];
      at := at + lens[k];
      k := k + 1;
    }
    assert vs[..|vs|] == vs;
  }

  // ---------------------------------------------------------------- decoding

  datatype Damage = NotMultiple | Mismatch | PastEnd

  /** What a decoder handed out, and how it ended. */
  datatype Decoded = Decoded(values: seq<bytes>, damage: Option<Damage>)

  /** A run cut into values of one width. */
  function Cut(run: bytes, w: nat): (vs: seq<bytes>)
    requires w > 0
  {
    if |run| < w then [] else [run[..w]] + Cut(run[w..], w)
  }

  /** The values of a prefixed run from `p` on, until it ends or a length runs past its end. */
  function Unprefixed(run: bytes, p: nat): Decoded
    requires p <= |run|
    decreases |run| - p
  {
    if p == |run| then Decoded([], None)
    else
      var (len, q) := GetUvarint(run, p);
      if q + len > |run| then Decoded([], Some(PastEnd))
      else
        var rest := Unprefixed(run, q + len);
        Decoded([run[q..q + len]] + rest.values, rest.damage)
  }

  /** Every value of a run, in order. */
  function ValuesOf(run: bytes, e: Ext): Decoded {
    if e.IsFixed() then
      if e.FixedWidth().None? then Decoded([], Some(NotMultiple))
      else if |run| != e.len || e.FixedWidth().value == 0 then Decoded([], Some(Mismatch))
      else Decoded(Cut(run, e.FixedWidth().value), None)
    else Unprefixed(run, 0)
  }

  lemma {:induction false} CutConcat(vs: seq<bytes>, w: nat)
    requires w > 0
    requires forall i :: 0 <= i < |vs| ==> |vs[i]| == w
    ensures Cut(Concat(vs), w) == vs
  {
    if vs != [] {
      CutConcat(vs[1..], w);
      var rest := Concat(vs[1..]);
      assert (vs[0] + rest)[..w] == vs[0] && (vs[0] + rest)[w..] == rest;
      assert vs == [vs[0]] + vs[1..];
    }
  }

  lemma {:induction false} CutStep(run: bytes, p: nat, w: nat)
    requires w > 0 && p <= |run|
    ensures p + w <= |run| ==> Cut(run[p..], w) == [run[p..p + w]] + Cut(run[p + w..], w)
    ensures p + w > |run| ==> Cut(run[p..], w) == []
  {
    if p + w <= |run| {
      assert run[p..][..w] == run[p..p + w] && run[p..][w..] == run[p + w..];
    }
  }

  /** A fixed run's values handed out in order. */
  method CutRun(run: bytes, w: nat) returns (f: seq<bytes>)
    requires w > 0
    ensures f == Cut(run, w)
  {
    f := [];
    var p := 0;
    assert run[0..] == run;
    while p + w <= |run|
      invariant 0 <= p <= |run|
      invariant f + Cut(run[p..], w) == Cut(run, w)
      decreases |run| - p
    {
      CutStep(run, p, w);
      f := f + [run[p..p + w]];
      p := p + w;
    }
    CutStep(run, p, w);
  }

  /** What is handed out up to `p`, and what the rest of the run still gives, are the whole. */
  ghost predicate HandedOut(run: bytes, p: nat, f: seq<bytes>) {
    && p <= |run|
    && Unprefixed(run, 0).values == f + Unprefixed(run, p).values
    && Unprefixed(run, 0).damage == Unprefixed(run, p).damage
  }

  lemma {:induction false} Append(f: seq<bytes>, v: bytes, rest: seq<bytes>)
    ensures f + ([v] + rest) == f + [v] + rest
  {}

  lemma {:induction false} OneValue(run: bytes, p: nat, len: nat, q: nat)
    requires p < |run| && (len, q) == GetUvarint(run, p)
    ensures q + len > |run| ==> Unprefixed(run, p).values == [] && Unprefixed(run, p).damage == Some(PastEnd)
    ensures q + len <= |run| ==>
      Unprefixed(run, p).values == [run[q..q + len]] + Unprefixed(run, q + len).values
    ensures q + len <= |run| ==> Unprefixed(run, p).damage == Unprefixed(run, q + len).damage
  {}

  lemma {:induction false} HandOut(run: bytes, p: nat, f: seq<bytes>, len: nat, q: nat)
    requires p < |run| && HandedOut(run, p, f) && (len, q) == GetUvarint(run, p)
    ensures q + len > |run| ==> Unprefixed(run, 0) == Decoded(f, Some(PastEnd))
    ensures q + len <= |run| ==> HandedOut(run, q + len, f + [run[q..q + len]])
  {
    OneValue(run, p, len, q);
    if q + len > |run| {
      assert f + [] == f;
    } else {
      Append(f, run[q..q + len], Unprefixed(run, q + len).values);
    }
  }

  /** A prefixed run's values handed out in order. */
  method UnprefixRun(run: bytes) returns (f: seq<bytes>, damage: Option<Damage>)
    ensures Decoded(f, damage) == Unprefixed(run, 0)
  {
    f := [];
    var p := 0;
    while p < |run|
      invariant HandedOut(run, p, f)
      decreases |run| - p
    {
      var len, q := ReadUvarint(run, p);
      HandOut(run, p, f, len, q);
      if q + len > |run| {
        return f, Some(PastEnd);
      }
      f := f + [run[q..q + len]];
      p := q + len;
    }
    damage := None;
  }

  /** Each value handed out in order: `f` is what has been handed out. */
  method EachValue(run: bytes, e: Ext) returns (f: seq<bytes>, damage: Option<Damage>)
    ensures Decoded(f, damage) == ValuesOf(run, e)
  {
    if e.IsFixed() {
      var w := e.FixedWidth();
      if w.None? {
        return [], Some(NotMultiple);
      }
      if |run| != e.len || w.value == 0 {
        return [], Some(Mismatch);
      }
      f := CutRun(run, w.value);
      damage := None;
    } else {
      f, damage := UnprefixRun(run);
    }
  }

  // ---------------------------------------------------------------- round trip

  lemma {:induction false} ConcatLength(vs: seq<bytes>, w: nat)
    requires forall i :: 0 <= i < |vs| ==> |vs[i]| == w
    ensures |Concat(vs)| == |vs| * w
  {
    if vs != [] {
      ConcatLength(vs[1..], w);
      MulStep(w, |vs| - 1);
    }
  }

  /** A prefixed value at its place in a run: read back, and where the next begins. */
  lemma {:induction false} PrefixedReads(pre: bytes, v: bytes, post: bytes)
    requires |v| < U64
    ensures var run := pre + Prefixed(v) + post;
      var (len, q) := GetUvarint(run, |pre|);
      len == |v| && q + len == |pre| + |Prefixed(v)| && run[q..q + len] == v
  {
    var run := pre + Prefixed(v) + post;
    assert run == pre + Uvarint(|v|) + (v + post);
    UvarintRoundTrip(pre, |v|, v + post);
  }

  /** At a prefixed value's place in a run: the value, and the rest of the run after it. */
  lemma {:induction false} ReadsAt(run: bytes, p: nat, v: bytes, rest: bytes)
    requires p <= |run| && run[p..] == Prefixed(v) + rest && |v| < U64
    ensures var (len, q) := GetUvarint(run, p);
      len == |v| && q + len <= |run| && run[q..q + len] == v && run[q + len..] == rest && p < q + len
  {
    var pre := run[..p];
    assert run == pre + Prefixed(v) + rest;
    PrefixedReads(pre, v, rest);
    assert run[p + |Prefixed(v)|..] == (Prefixed(v) + rest)[|Prefixed(v)|..];
  }

  /** One value read, the rest of the run giving the rest. */
  lemma {:induction false} ReadsOne(run: bytes, p: nat, v: bytes, rest: bytes) returns (next: nat)
    requires p <= |run| && run[p..] == Prefixed(v) + rest && |v| < U64
    ensures p < next <= |run| && run[next..] == rest
    ensures Unprefixed(run, p).values == [v] + Unprefixed(run, next).values
    ensures Unprefixed(run, p).damage == Unprefixed(run, next).damage
  {
    ReadsAt(run, p, v, rest);
    var r := GetUvarint(run, p);
    OneValue(run, p, r.0, r.1);
    next := r.0 + r.1;
  }

  lemma {:induction false} UnprefixedReads(run: bytes, p: nat, vs: seq<bytes>)
    requires p <= |run| && run[p..] == AllPrefixed(vs)
    requires forall i :: 0 <= i < |vs| ==> |vs[i]| < U64
    ensures Unprefixed(run, p).values == vs && Unprefixed(run, p).damage == None
    decreases |vs|
  {
    if vs != [] {
      var next := ReadsOne(run, p, vs[0], AllPrefixed(vs[1..]));
      UnprefixedReads(run, next, vs[1..]);
      assert vs == [vs[0]] + vs[1..];
    }
  }

  /** Fewer than 2^30 values, each of a 64-bit length. */
  predicate Storable(vs: seq<bytes>) {
    |vs| < FIXED && forall i :: 0 <= i < |vs| ==> |vs[i]| < U64
  }

  lemma {:induction false} FixedReads(n: nat, w: nat)
    requires n > 0
    ensures Each(n * w, n) == Some(w)
  {
    ModUnique(n * w, n, w, 0);
    EachDivides(n * w, n);
  }

  /** A run decodes to the values it was encoded from, whatever block or offset its extent names. */
  lemma {:induction false} RunRoundTrip(vs: seq<bytes>, tomb: bool, e: Ext)
    requires Storable(vs)
    requires e.len == |RunOf(vs)| && e.count == CountOf(|vs|, OneWidth(vs), tomb)
    ensures ValuesOf(RunOf(vs), e) == Decoded(vs, None)
    ensures e.Records() == |vs| && e.IsTombstone() == tomb
  {
    CountReads(|vs|, OneWidth(vs), tomb, e);
    if OneWidth(vs) {
      var w := |vs[0]|;
      ConcatLength(vs, w);
      FixedReads(|vs|, w);
      CutConcat(vs, w);
    } else {
      assert RunOf(vs)[0..] == AllPrefixed(vs);
      UnprefixedReads(RunOf(vs), 0, vs);
    }
  }
}
