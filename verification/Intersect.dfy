/**
 How many values two lists have in common: a two-pointer walk over both, and when it is right.

 Nothing checks that a list ascends. The walk never counts too many, counts exactly what two
 ascending lists share, and a list it is right about against every ascending one ascends itself.
 */
module Intersect {
  import opened Bytes
  import opened Heads
  import opened OrdSearch
  import opened Wrappers
  import opened Runs

  /** No value below the one before it. */
  ghost predicate Rising(vs: seq<bytes>) {
    forall i, j :: 0 <= i < j < |vs| ==> !Below(vs[j], vs[i])
  }

  /** What two lists have in common, each value as often as both hold it. */
  ghost function Shared(va: seq<bytes>, vb: seq<bytes>): nat { |multiset(va) * multiset(vb)| }

  /** What the walk counts from two positions on. */
  ghost function Walk(va: seq<bytes>, vb: seq<bytes>, i: nat, j: nat): nat
    requires i <= |va| && j <= |vb|
    decreases |va| - i + |vb| - j
  {
    if i == |va| || j == |vb| then 0
    else if va[i] == vb[j] then 1 + Walk(va, vb, i + 1, j + 1)
    else if Below(va[i], vb[j]) then Walk(va, vb, i + 1, j)
    else Walk(va, vb, i, j + 1)
  }

  // ---------------------------------------------------------------- the walk against the count

  /** A value more on one side, and on both. */
  lemma {:induction false} SharedGrows(a: multiset<bytes>, b: multiset<bytes>, x: bytes)
    ensures |(a + multiset{x}) * (b + multiset{x})| == |a * b| + 1
    ensures |a * b| <= |(a + multiset{x}) * b| && |a * b| <= |a * (b + multiset{x})|
    ensures x !in b ==> |(a + multiset{x}) * b| == |a * b|
    ensures x !in a ==> |a * (b + multiset{x})| == |a * b|
  {
    assert (a + multiset{x}) * (b + multiset{x}) == a * b + multiset{x};
    SubsetSize(a * b, (a + multiset{x}) * b);
    SubsetSize(a * b, a * (b + multiset{x}));
    if x !in b { assert (a + multiset{x}) * b == a * b; }
    if x !in a { assert a * (b + multiset{x}) == a * b; }
  }

  lemma {:induction false} SubsetSize(s: multiset<bytes>, t: multiset<bytes>)
    requires s <= t
    ensures |s| <= |t|
  {
    assert t == s + (t - s);
  }

  lemma {:induction false} TailOf(vs: seq<bytes>, i: nat)
    requires i < |vs|
    ensures multiset(vs[i..]) == multiset(vs[i + 1..]) + multiset{vs[i]}
  {
    assert vs[i..] == [vs[i]] + vs[i + 1..];
  }

  /** The first of a rising list is not above the rest, so whatever is below it is not among them. */
  lemma {:induction false} NotAmong(vs: seq<bytes>, j: nat, x: bytes)
    requires Rising(vs) && j < |vs| && Below(x, vs[j])
    ensures x !in multiset(vs[j..])
  {
    if x in vs[j..] {
      var k :| 0 <= k < |vs[j..]| && vs[j..][k] == x;
      assert vs[j + k] == x;
      if k == 0 { BelowIrreflexive(x); }
    }
  }

  /** Whatever the lists, the walk counts no more than they share; where both rise, it counts that. */
  lemma {:induction false} WalkCounts(va: seq<bytes>, vb: seq<bytes>, i: nat, j: nat)
    requires i <= |va| && j <= |vb|
    ensures Walk(va, vb, i, j) <= |multiset(va[i..]) * multiset(vb[j..])|
    ensures Rising(va) && Rising(vb) ==> Walk(va, vb, i, j) == |multiset(va[i..]) * multiset(vb[j..])|
    decreases |va| - i + |vb| - j
  {
    if i == |va| {
      assert multiset(va[i..]) * multiset(vb[j..]) == multiset{};
    } else if j == |vb| {
      assert multiset(va[i..]) * multiset(vb[j..]) == multiset{};
    } else {
      TailOf(va, i);
      TailOf(vb, j);
      if va[i] == vb[j] {
        WalkCounts(va, vb, i + 1, j + 1);
        SharedGrows(multiset(va[i + 1..]), multiset(vb[j + 1..]), va[i]);
      } else if Below(va[i], vb[j]) {
        WalkCounts(va, vb, i + 1, j);
        SharedGrows(multiset(va[i + 1..]), multiset(vb[j..]), va[i]);
        if Rising(vb) { NotAmong(vb, j, va[i]); }
      } else {
        WalkCounts(va, vb, i, j + 1);
        SharedGrows(multiset(va[i..]), multiset(vb[j + 1..]), vb[j]);
        BelowTotal(va[i], vb[j]);
        if Rising(va) { NotAmong(va, i, vb[j]); }
      }
    }
  }

  lemma {:induction false} NeverTooMany(va: seq<bytes>, vb: seq<bytes>)
    ensures Walk(va, vb, 0, 0) <= Shared(va, vb)
    ensures Rising(va) && Rising(vb) ==> Walk(va, vb, 0, 0) == Shared(va, vb)
  {
    WalkCounts(va, vb, 0, 0);
    assert va[0..] == va && vb[0..] == vb;
  }

  // ---------------------------------------------------------------- when it is right

  /** Two lists step together while they agree. */
  lemma {:induction false} InStep(va: seq<bytes>, vb: seq<bytes>, m: nat)
    requires m <= |va| && m <= |vb| && va[..m] == vb[..m]
    ensures Walk(va, vb, 0, 0) == m + Walk(va, vb, m, m)
  {
    if m > 0 {
      assert va[..m][..m - 1] == va[..m - 1] && vb[..m][..m - 1] == vb[..m - 1];
      assert va[m - 1] == va[..m][m - 1] == vb[m - 1];
      InStep(va, vb, m - 1);
    }
  }

  /** The first value some later one is below, and one such. */
  lemma {:induction false} FirstFall(va: seq<bytes>) returns (m: nat, k: nat)
    requires !Rising(va)
    ensures m < k < |va| && Below(va[k], va[m])
    ensures forall i, j :: 0 <= i < m && i < j < |va| ==> !Below(va[j], va[i])
  {
    m := 0;
    while forall j :: m < j < |va| ==> !Below(va[j], va[m])
      invariant m <= |va|
      invariant forall i, j :: 0 <= i < m && i < j < |va| ==> !Below(va[j], va[i])
      decreases |va| - m
    {
      if m == |va| { assert false; }
      m := m + 1;
    }
    k :| m < k < |va| && Below(va[k], va[m]);
  }

  /** The list up to a fall, then the two values of the fall in order. */
  ghost function Righted(va: seq<bytes>, m: nat, k: nat): seq<bytes>
    requires m < k < |va|
  {
    va[..m] + [va[k], va[m]]
  }

  lemma {:induction false} RightedRises(va: seq<bytes>, m: nat, k: nat)
    requires m < k < |va| && Below(va[k], va[m])
    requires forall i, j :: 0 <= i < m && i < j < |va| ==> !Below(va[j], va[i])
    ensures Rising(Righted(va, m, k))
  {
    BelowAsymmetric(va[k], va[m]);
  }

  /** Every value of the righted list is one of the list's own. */
  lemma {:induction false} RightedIsShared(va: seq<bytes>, m: nat, k: nat)
    requires m < k < |va|
    ensures Shared(va, Righted(va, m, k)) == m + 2
  {
    var vb := Righted(va, m, k);
    assert va == va[..m] + ([va[m]] + va[m + 1..k] + [va[k]] + va[k + 1..]);
    assert multiset(vb) == multiset(va[..m]) + multiset{va[k], va[m]};
    assert multiset(va) == multiset(vb) + multiset(va[m + 1..k]) + multiset(va[k + 1..]);
    assert multiset(va) * multiset(vb) == multiset(vb);
  }

  /** The walk misses the one of the two that the list has too late. */
  lemma {:induction false} RightedIsMissed(va: seq<bytes>, m: nat, k: nat)
    requires m < k < |va| && Below(va[k], va[m])
    ensures Walk(va, Righted(va, m, k), 0, 0) == m + 1
  {
    var vb := Righted(va, m, k);
    assert vb[..m] == va[..m] && vb[m] == va[k] && vb[m + 1] == va[m] && |vb| == m + 2;
    InStep(va, vb, m);
    BelowAsymmetric(va[k], va[m]);
    assert Walk(va, vb, m, m) == Walk(va, vb, m, m + 1);
    assert Walk(va, vb, m, m + 1) == 1 + Walk(va, vb, m + 1, m + 2);
  }

  /** The count is right against every rising list exactly where the list rises itself. */
  lemma {:induction false} RightWhereRising(va: seq<bytes>)
    ensures Rising(va) <==> forall vb :: Rising(vb) ==> Walk(va, vb, 0, 0) == Shared(va, vb)
  {
    if Rising(va) {
      forall vb | Rising(vb) ensures Walk(va, vb, 0, 0) == Shared(va, vb) {
        NeverTooMany(va, vb);
      }
    } else {
      var m, k := FirstFall(va);
      RightedRises(va, m, k);
      RightedIsShared(va, m, k);
      RightedIsMissed(va, m, k);
    }
  }

  /** Two values out of order, against the same two in order: one of the two is counted. */
  lemma {:induction false} FallMisses()
    ensures Walk([[2], [1]], [[1], [2]], 0, 0) == 1 && Shared([[2], [1]], [[1], [2]]) == 2
  {
    var va: seq<bytes> := [[2], [1]];
    assert Righted(va, 0, 1) == [[1], [2]];
    RightedIsMissed(va, 0, 1);
    RightedIsShared(va, 0, 1);
  }

  // ---------------------------------------------------------------- the two walks

  lemma {:induction false} WalkStep(va: seq<bytes>, vb: seq<bytes>, i: nat, j: nat, o: Ordering)
    requires i < |va| && j < |vb| && o == Compare(va[i], vb[j])
    ensures o.Equal? ==> Walk(va, vb, i, j) == 1 + Walk(va, vb, i + 1, j + 1)
    ensures o.Less? ==> Walk(va, vb, i, j) == Walk(va, vb, i + 1, j)
    ensures o.Greater? ==> Walk(va, vb, i, j) == Walk(va, vb, i, j + 1)
  {
    if va[i] == vb[j] { BelowIrreflexive(va[i]); }
  }

  /** Over two decoded lists. */
  method CountLists(va: seq<bytes>, vb: seq<bytes>) returns (n: nat)
    ensures n == Walk(va, vb, 0, 0)
  {
    var i, j := 0, 0;
    n := 0;
    while i < |va| && j < |vb|
      invariant i <= |va| && j <= |vb| && n + Walk(va, vb, i, j) == Walk(va, vb, 0, 0)
      decreases |va| - i + |vb| - j
    {
      var o := Compare(va[i], vb[j]);
      WalkStep(va, vb, i, j, o);
      match o
      case Equal => n, i, j := n + 1, i + 1, j + 1;
      case Less => i := i + 1;
      case Greater => j := j + 1;
    }
  }

  /** Two values of one width: four or eight bytes as big-endian words, others as bytes. */
  method CompareWidth(w: nat, x: bytes, y: bytes) returns (o: Ordering)
    requires |x| == |y| == w
    ensures o == Compare(x, y)
  {
    if w == 4 || w == 8 {
      BeOrder(x, y);
      var a, b := BeNat(x), BeNat(y);
      BelowTotal(x, y);
      o := if a < b then Less else if a == b then Equal else Greater;
    } else {
      o := Compare(x, y);
    }
  }

  // ---------------------------------------------------------------- streams of runs

  /** The values of runs of one width, end to end. */
  function Values(runs: seq<bytes>, w: nat): seq<bytes>
    requires w > 0
  {
    if runs == [] then [] else Cut(runs[0], w) + Values(runs[1..], w)
  }

  /** A place in a stream of runs: a run, and how far into it. */
  datatype Cursor = Cursor(run: nat, at: nat)

  /** What a stream still hands out. */
  ghost function Rest(runs: seq<bytes>, w: nat, c: Cursor): seq<bytes>
    requires w > 0 && InRuns(runs, c)
  {
    if c.run == |runs| then [] else Cut(runs[c.run][c.at..], w) + Values(runs[c.run + 1..], w)
  }

  ghost predicate InRuns(runs: seq<bytes>, c: Cursor) { c.run <= |runs| && (c.run < |runs| ==> c.at <= |runs[c.run]|) }

  /** A run with no room for another value gives way to the next. */
  lemma {:induction false} RunEnds(runs: seq<bytes>, w: nat, c: Cursor)
    requires w > 0 && InRuns(runs, c) && c.run < |runs| && c.at + w > |runs[c.run]|
    ensures Rest(runs, w, c) == Rest(runs, w, Cursor(c.run + 1, 0))
  {
    CutStep(runs[c.run], c.at, w);
    var later := runs[c.run + 1..];
    if later != [] {
      assert later[0][0..] == later[0] && later[1..] == runs[c.run + 2..];
    }
  }

  lemma {:induction false} RunGives(runs: seq<bytes>, w: nat, c: Cursor)
    requires w > 0 && InRuns(runs, c) && c.run < |runs| && c.at + w <= |runs[c.run]|
    ensures Rest(runs, w, c) == [runs[c.run][c.at..c.at + w]] + Rest(runs, w, c.(at := c.at + w))
  {
    CutStep(runs[c.run], c.at, w);
  }

  /** The next value of a stream, past the runs that have ended. */
  method Peek(runs: seq<bytes>, w: nat, c: Cursor) returns (v: Option<bytes>, d: Cursor)
    requires w > 0 && InRuns(runs, c)
    ensures InRuns(runs, d) && Rest(runs, w, d) == Rest(runs, w, c)
    ensures v.None? ==> Rest(runs, w, c) == []
    ensures v.Some? ==>
      |v.value| == w && d.run < |runs| && d.at + w <= |runs[d.run]|
      && Rest(runs, w, c) == [v.value] + Rest(runs, w, d.(at := d.at + w))
  {
    d := c;
    while d.run < |runs| && d.at + w > |runs[d.run]|
      invariant InRuns(runs, d) && Rest(runs, w, d) == Rest(runs, w, c)
      decreases |runs| - d.run
    {
      RunEnds(runs, w, d);
      d := Cursor(d.run + 1, 0);
    }
    if d.run == |runs| {
      return None, d;
    }
    RunGives(runs, w, d);
    v := Some(runs[d.run][d.at..d.at + w]);
  }

  /** A place in a stream, the value there and the place in the stream's list. */
  ghost predicate Peeked(runs: seq<bytes>, w: nat, c: Cursor, v: Option<bytes>, vs: seq<bytes>, i: nat)
    requires w > 0
  {
    && i <= |vs| && (v.None? ==> i == |vs|)
    && (v.Some? ==>
          i < |vs| && vs[i] == v.value && |v.value| == w && c.run < |runs| && c.at + w <= |runs[c.run]|
          && Rest(runs, w, c.(at := c.at + w)) == vs[i + 1..])
  }

  lemma {:induction false} HeadIs(vs: seq<bytes>, i: nat, v: bytes, rest: seq<bytes>)
    requires i <= |vs| && vs[i..] == [v] + rest
    ensures i < |vs| && vs[i] == v && vs[i + 1..] == rest
  {
    assert vs[i..][0] == v && vs[i..][1..] == rest;
  }

  method PeekFrom(runs: seq<bytes>, w: nat, c: Cursor, ghost vs: seq<bytes>, ghost i: nat) returns (v: Option<bytes>, d: Cursor)
    requires w > 0 && InRuns(runs, c) && i <= |vs| && Rest(runs, w, c) == vs[i..]
    ensures Peeked(runs, w, d, v, vs, i)
  {
    v, d := Peek(runs, w, c);
    if v.Some? { HeadIs(vs, i, v.value, Rest(runs, w, d.(at := d.at + w))); }
  }

  lemma {:induction false} RestOfAll(runs: seq<bytes>, w: nat)
    requires w > 0
    ensures InRuns(runs, Cursor(0, 0)) && Rest(runs, w, Cursor(0, 0)) == Values(runs, w)[0..]
  {
    if runs != [] { assert runs[0][0..] == runs[0]; }
  }

  /** Over two streams of runs, where they lie. */
  method CountRuns(ra: seq<bytes>, rb: seq<bytes>, w: nat) returns (n: nat)
    requires w > 0
    ensures n == Walk(Values(ra, w), Values(rb, w), 0, 0)
  {
    ghost var va, vb, i, j := Values(ra, w), Values(rb, w), 0, 0;
    RestOfAll(ra, w);
    RestOfAll(rb, w);
    var x, a := PeekFrom(ra, w, Cursor(0, 0), va, 0);
    var y, b := PeekFrom(rb, w, Cursor(0, 0), vb, 0);
    n := 0;
    while x.Some? && y.Some?
      invariant Peeked(ra, w, a, x, va, i) && Peeked(rb, w, b, y, vb, j)
      invariant n + Walk(va, vb, i, j) == Walk(va, vb, 0, 0)
      decreases |va| - i + |vb| - j
    {
      var o := CompareWidth(w, x.value, y.value);
      WalkStep(va, vb, i, j, o);
      if o.Equal? { n := n + 1; }
      if !o.Greater? {
        i := i + 1;
        x, a := PeekFrom(ra, w, a.(at := a.at + w), va, i);
      }
      if !o.Less? {
        j := j + 1;
        y, b := PeekFrom(rb, w, b.(at := b.at + w), vb, j);
      }
    }
  }
}
