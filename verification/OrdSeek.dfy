/**
 The seeks of a segment's ordered index.

 Each is proved against the plain search: the first rank whose key is not below the query, over the
 sorted list of whole keys. `keyAt` reads the segment's own key at a rank.
 */
module OrdSeek {
  import opened Bytes
  import opened Heads
  import opened OrdSearch
  import opened OrdIndex
  import opened Wrappers

  // ---------------------------------------------------------------- the plain search

  /** What a seek says of the key at its answer, when it says, is so. */
  ghost predicate NeverWrong(keys: seq<bytes>, q: bytes, r: nat, hi: nat, found: Option<bool>)
    requires hi <= |keys|
  {
    found.Some? ==> (found.value <==> r < hi && keys[r] == q)
  }

  ghost predicate Resolves(keyAt: nat -> Option<bytes>, keys: seq<bytes>) {
    forall i :: 0 <= i < |keys| ==> keyAt(i) == Some(keys[i])
  }

  // ---------------------------------------------------------------- a query and the prefix

  /** A query without the keys' prefix: its first bytes against the prefix place it. */
  lemma {:induction false} OutsidePrefix(p: bytes, k: bytes, q: bytes)
    requires p <= k
    ensures var m := if |p| <= |q| then |p| else |q|;
      && (Below(q[..m], p[..m]) ==> Below(q, k))
      && (Below(p[..m], q[..m]) ==> Below(k, q))
      && (q[..m] == p[..m] && m < |p| ==> Below(q, k))
      && (q[..m] == p[..m] && m == |p| ==> p <= q)
  {
    var m := if |p| <= |q| then |p| else |q|;
    BelowIrreflexive(q[..m]);
    assert q == q[..m] + q[m..] && k == p[..m] + k[m..];
    if q[..m] != p[..m] {
      BelowWithin(q[..m], p[..m], q[m..], k[m..]);
      BelowWithin(p[..m], q[..m], k[m..], q[m..]);
    } else if m < |p| {
      assert q == p[..m] && q < k;
      PrefixBelow(q, k);
    }
  }

  /** Head `i` of a file. */
  function HeadAt(file: bytes, i: nat): nat
    requires HEADER + HEAD * i + HEAD <= |file|
  {
    BeNat(file[HEADER + HEAD * i..HEADER + HEAD * i + HEAD])
  }

  /** Heads that never fall. */
  ghost predicate Climbs(n: nat, head: nat -> nat) {
    forall i, j :: 0 <= i <= j < n ==> head(i) <= head(j)
  }

  /** Where a run of equal heads gives way to a larger one. */
  method TiedEnd(n: nat, head: nat -> nat, h: nat, from: nat) returns (r: nat)
    requires Climbs(n, head) && from < n && head(from) == h
    ensures from < r <= n
    ensures forall i :: from <= i < r ==> head(i) == h
    ensures r < n ==> head(r) > h
  {
    var lo, step := from, 1;
    while from + step < n && head(from + step) == h
      invariant step >= 1 && from <= lo < n && lo < from + step && head(lo) == h
      decreases n - step
    {
      lo := from + step;
      step := step * 2;
    }
    var hi := if from + step < n then from + step else n;
    var a := lo + 1;
    while a < hi
      invariant lo < a <= hi <= n && head(a - 1) == h
      invariant hi < n ==> head(hi) != h
    {
      var m := (a + hi) / 2;
      if head(m) == h {
        a := m + 1;
      } else {
        hi := m;
      }
    }
    r := a;
  }

  /** The first head from `base` up to `hi` not below `h`. */
  method FirstNotBelow(n: nat, head: nat -> nat, base: nat, hi: nat, h: nat) returns (r: nat)
    requires Climbs(n, head) && base <= hi <= n
    ensures base <= r <= hi
    ensures forall i :: base <= i < r ==> head(i) < h
    ensures r < hi ==> head(r) >= h
  {
    var below := (i: nat) => head(base + i) < h;
    var k := SelectLowerBound(hi - base, below);
    r := base + k;
    forall i | base <= i < r ensures head(i) < h { assert below(i - base); }
    if k < hi - base { assert !below(k); }
  }

  /** The index as it is read. */
  class Index {
    const file: bytes
    const n: nat
    const pfx: nat
    const uniformLen: Option<nat>
    const top: seq<nat>
    var prefix: Option<bytes>

    /** What opening found, with the top level built. */
    constructor (file: bytes, header: Header, top: seq<nat>)
      ensures this.file == file && n == header.n && pfx == header.pfx && uniformLen == header.uniformLen
      ensures this.top == top && prefix == None
    {
      this.file, this.top := file, top;
      n, pfx, uniformLen := header.n, header.pfx, header.uniformLen;
      prefix := None;
    }

    /** The file holds every head. */
    predicate HoldsHeads() { HEADER + HEAD * n <= |file| }

    /** Head `i`. */
    function Head(i: nat): nat
      requires HoldsHeads() && i < n
    {
      HeadAt(file, i)
    }

    /** What opening leaves: the header's fields, and every stride's first head. */
    ghost predicate OpenedFrom(file: bytes, header: Header)
      reads this
    {
      && this.file == file && prefix == None
      && Header(n, pfx, uniformLen) == header
      && HoldsHeads()
      && (forall t :: 0 <= t < |top| ==> t * TOP_STRIDE < n && top[t] == Head(t * TOP_STRIDE))
      && |top| * TOP_STRIDE >= n
    }

    /** The index is the index of these keys. */
    ghost predicate Describes(keys: seq<bytes>)
      reads this
    {
      && Ascending(keys)
      && |keys| == n && HoldsHeads()
      && (n == 0 ==> pfx == 0)
      && (n > 0 ==> pfx <= |keys[0]|)
      && (forall i :: 0 <= i < n ==> keys[0][..pfx] <= keys[i])
      && (forall i :: 0 <= i < n ==> Head(i) == HeadOf(keys[i], pfx))
      && (uniformLen.Some? ==> pfx <= uniformLen.value <= pfx + HEAD && SameLength(keys, uniformLen.value))
      && (prefix.Some? ==> prefix.value == if n > 0 then keys[0][..pfx] else [])
      && (forall t :: 0 <= t < |top| ==> t * TOP_STRIDE < n && top[t] == Head(t * TOP_STRIDE))
      && (|top| * TOP_STRIDE >= n)
    }

    /** The records need not be read, or they can be. */
    ghost predicate CanAsk(keys: seq<bytes>, keyAt: nat -> Option<bytes>)
      reads this
    {
      (uniformLen.Some? && prefix.Some?) || Resolves(keyAt, keys)
    }

    // -------------------------------------------------------------- what the heads say

    lemma {:induction false} HeadsAscend(keys: seq<bytes>, i: nat, j: nat)
      requires Describes(keys) && i <= j < n
      ensures Head(i) <= Head(j)
    {
      if i < j {
        BelowAsymmetric(keys[i], keys[j]);
        HeadMonotone(keys[0][..pfx], keys[i], keys[j]);
      }
    }

    /** A query with the prefix, against the key at a rank. */
    lemma {:induction false} HeadSays(keys: seq<bytes>, q: bytes, i: nat)
      requires Describes(keys) && i < n && keys[0][..pfx] <= q
      ensures Head(i) < HeadOf(q, pfx) ==> Below(keys[i], q)
      ensures Head(i) > HeadOf(q, pfx) ==> Below(q, keys[i]) && !Below(keys[i], q)
      ensures Head(i) != HeadOf(q, pfx) ==> keys[i] != q
      ensures Head(i) == HeadOf(q, pfx) && uniformLen.Some? ==>
        (Below(keys[i], q) <==> |q| > uniformLen.value) && (keys[i] == q <==> |q| == uniformLen.value)
    {
      var p := keys[0][..pfx];
      if Head(i) < HeadOf(q, pfx) {
        HeadDecides(p, keys[i], q);
      } else if Head(i) > HeadOf(q, pfx) {
        HeadDecides(p, q, keys[i]);
        BelowAsymmetric(q, keys[i]);
      } else if uniformLen.Some? {
        TieOfWhole(p, keys[i], q);
      }
    }

    /** Keys not below a query stay so. */
    lemma {:induction false} NotBelowFrom(keys: seq<bytes>, q: bytes, i: nat, j: nat)
      requires Ascending(keys) && i <= j < |keys|
      ensures !Below(keys[i], q) ==> !Below(keys[j], q)
      ensures Below(keys[j], q) ==> Below(keys[i], q)
    {
      if i < j { BelowThrough(keys[i], keys[j], q); if Below(keys[j], q) { BelowTransitive(keys[i], keys[j], q); } }
    }

    /** Where the heads that are below the query's end, so do the keys whose heads do not tie it. */
    lemma {:induction false} HeadsBound(keys: seq<bytes>, q: bytes, lo: nat, hi: nat, r: nat)
      requires Describes(keys) && lo <= r <= hi <= n
      requires n > 0 ==> keys[0][..pfx] <= q
      requires forall i :: lo <= i < r ==> Head(i) < HeadOf(q, pfx)
      requires r < hi ==> Head(r) > HeadOf(q, pfx)
      ensures LowerBound(keys, q, lo, hi, r) && (r < hi ==> keys[r] != q)
    {
      forall i | lo <= i < r ensures Below(keys[i], q) { HeadSays(keys, q, i); }
      if r < hi {
        HeadSays(keys, q, r);
        forall i | r <= i < hi ensures !Below(keys[i], q) { NotBelowFrom(keys, q, r, i); }
      }
    }

    // -------------------------------------------------------------- the parts of a seek

    /** The heads by rank. */
    function Heads(): nat -> nat
      requires HoldsHeads()
    {
      (i: nat) => if i < n then Head(i) else 0
    }

    lemma {:induction false} HeadsClimb(keys: seq<bytes>)
      requires Describes(keys)
      ensures Climbs(n, Heads())
    {
      forall i, j | 0 <= i <= j < n ensures Heads()(i) <= Heads()(j) { HeadsAscend(keys, i, j); }
    }

    /** The first rank past `from` with a larger head: galloping doubles its step, then the gap is halved. */
    method RunEnd(h: nat, from: nat, ghost keys: seq<bytes>) returns (r: nat)
      requires Describes(keys) && from < n && Head(from) == h
      ensures from < r <= n
      ensures forall i :: from <= i < r ==> Head(i) == h
      ensures r < n ==> Head(r) > h
    {
      HeadsClimb(keys);
      var head := Heads();
      r := TiedEnd(n, head, h, from);
      forall i | from <= i < r ensures Head(i) == h { assert head(i) == h; }
      if r < n { assert head(r) > h; }
    }

    /** The common prefix, learned or read off the first key. */
    method FirstBytes(keyAt: nat -> Option<bytes>, ghost keys: seq<bytes>) returns (first: Option<bytes>)
      requires Describes(keys) && n > 0 && CanAsk(keys, keyAt)
      ensures first.Some? && pfx <= |first.value| && first.value[..pfx] == keys[0][..pfx]
    {
      if prefix.Some? {
        first := prefix;
      } else {
        first := keyAt(0);
      }
    }

    /** A query without the prefix is below or above every key; `None` for one that carries it. */
    method Outside(q: bytes, keyAt: nat -> Option<bytes>, lo: nat, hi: nat, ghost keys: seq<bytes>)
      returns (end: Option<nat>)
      requires Describes(keys) && CanAsk(keys, keyAt)
      requires lo <= hi <= n && n > 0
      ensures end.None? <==> keys[0][..pfx] <= q
      ensures end.Some? ==> LowerBound(keys, q, lo, hi, end.value)
      ensures end.Some? ==> forall i :: 0 <= i < n ==> keys[i] != q
    {
      if pfx == 0 {
        return None;
      }
      var first := FirstBytes(keyAt, keys);
      var m := Min(Min(pfx, |q|), |first.value|);
      forall i | 0 <= i < n ensures
        var p := keys[0][..pfx];
        && (Below(q[..m], p[..m]) ==> Below(q, keys[i]) && !Below(keys[i], q) && q != keys[i])
        && (Below(p[..m], q[..m]) ==> Below(keys[i], q) && q != keys[i])
        && (q[..m] == p[..m] && m < pfx ==> Below(q, keys[i]) && !Below(keys[i], q) && q != keys[i])
      {
        OutsidePrefix(keys[0][..pfx], keys[i], q);
        if Below(q, keys[i]) { BelowAsymmetric(q, keys[i]); }
        if Below(keys[i], q) { BelowAsymmetric(keys[i], q); }
      }
      OutsidePrefix(keys[0][..pfx], keys[0], q);
      assert first.value[..m] == keys[0][..pfx][..m];
      var o := CmpShort(q[..m], first.value[..m]);
      BelowTotal(q[..m], first.value[..m]);
      match o
      case Less => end := Some(lo);
      case Greater => end := Some(hi);
      case Equal => end := if m < pfx then Some(lo) else None;
    }

    /** Among keys whose heads tie the query's, the keys themselves: the first not below it. */
    method SearchTied(lo: nat, hi: nat, q: bytes, keyAt: nat -> Option<bytes>, ghost keys: seq<bytes>)
      returns (r: nat)
      requires Ascending(keys) && Resolves(keyAt, keys)
      requires lo <= hi <= |keys|
      ensures LowerBound(keys, q, lo, hi, r)
    {
      var a, b := lo, hi;
      while a < b
        invariant lo <= a <= b <= hi
        invariant forall i :: lo <= i < a ==> Below(keys[i], q)
        invariant forall i :: b <= i < hi ==> !Below(keys[i], q)
      {
        var m := (a + b) / 2;
        var k := keyAt(m);
        if k.Some? && Below(k.value, q) {
          forall i | lo <= i <= m ensures Below(keys[i], q) { NotBelowFrom(keys, q, i, m); }
          a := m + 1;
        } else {
          forall i | m <= i < hi ensures !Below(keys[i], q) { NotBelowFrom(keys, q, m, i); }
          b := m;
        }
      }
      r := a;
    }

    // -------------------------------------------------------------- the seeks

    /**
     A head search decided: given that every head before `lo` is below the query's and the one there is not,
     the query's rank, and whether its key is there, never left out where keys share a length.
     */
    method ExactAt(lo: nat, h: nat, q: bytes, keyAt: nat -> Option<bytes>, ghost keys: seq<bytes>)
      returns (r: nat, found: Option<bool>)
      requires Describes(keys) && CanAsk(keys, keyAt)
      requires n > 0 && keys[0][..pfx] <= q && h == HeadOf(q, pfx)
      requires lo <= n && (forall i :: 0 <= i < lo ==> Head(i) < h) && (lo < n ==> Head(lo) >= h)
      ensures LowerBound(keys, q, 0, n, r) && NeverWrong(keys, q, r, n, found)
      ensures uniformLen.Some? ==> found.Some?
      ensures lo <= r && (lo < r ==> Head(lo) == h && Below(keys[lo], q))
    {
      if lo >= n || Head(lo) != h {
        HeadsBound(keys, q, 0, n, lo);
        return lo, if uniformLen.Some? then Some(false) else None;
      }
      forall i | 0 <= i < lo ensures Below(keys[i], q) { HeadSays(keys, q, i); }
      HeadSays(keys, q, lo);
      if uniformLen.Some? {
        if |q| <= uniformLen.value {
          forall i | lo <= i < n ensures !Below(keys[i], q) { NotBelowFrom(keys, q, lo, i); }
          return lo, Some(|q| == uniformLen.value);
        }
        r := RunEnd(h, lo, keys);
        PastTied(keys, q, lo, r, n);
        return r, Some(false);
      }
      var end := RunEnd(h, lo, keys);
      r := SearchTied(lo, end, q, keyAt, keys);
      found := None;
      if r < end {
        forall i | r <= i < n ensures !Below(keys[i], q) { NotBelowFrom(keys, q, r, i); }
      } else {
        AfterRun(keys, q, end, n);
      }
    }

    /** A run of heads that tie a query longer than its keys is below it; what follows is not. */
    lemma {:induction false} PastTied(keys: seq<bytes>, q: bytes, lo: nat, r: nat, hi: nat)
      requires Describes(keys) && lo < r <= hi <= n && keys[0][..pfx] <= q
      requires uniformLen.Some? && |q| > uniformLen.value
      requires forall i :: lo <= i < r ==> Head(i) == HeadOf(q, pfx)
      requires r < n ==> Head(r) > HeadOf(q, pfx)
      ensures LowerBound(keys, q, lo, hi, r)
      ensures forall i :: lo <= i < hi ==> keys[i] != q
    {
      forall i | lo <= i < r ensures Below(keys[i], q) { HeadSays(keys, q, i); }
      AfterRun(keys, q, r, hi);
    }

    lemma {:induction false} AfterRun(keys: seq<bytes>, q: bytes, r: nat, hi: nat)
      requires Describes(keys) && r <= hi <= n && n > 0 && keys[0][..pfx] <= q
      requires r < n ==> Head(r) > HeadOf(q, pfx)
      ensures forall i :: r <= i < hi ==> !Below(keys[i], q)
    {
      if r < n {
        HeadSays(keys, q, r);
        forall i | r <= i < hi ensures !Below(keys[i], q) { NotBelowFrom(keys, q, r, i); }
      }
    }

    /** Is sample `t` of the top level below `h`? */
    function TopBelow(h: nat): nat -> bool {
      (t: nat) => t < |top| && top[t] < h
    }

    lemma {:induction false} TopPartition(keys: seq<bytes>, h: nat)
      requires Describes(keys)
      ensures Partitioned(|top|, TopBelow(h))
    {
      forall i, j | 0 <= i < j < |top| && top[j] < h ensures top[i] < h {
        HeadsAscend(keys, i * TOP_STRIDE, j * TOP_STRIDE);
      }
    }

    /** The ranks the first head not below `h` lies in: past the last sample below, up to the next. */
    function Window(t: nat): (w: (nat, nat)) {
      if t == 0 then (0, 0) else ((t - 1) * TOP_STRIDE + 1, Min(t * TOP_STRIDE, n))
    }

    /** The top level's search bounds the first head not below `h` to one stride. */
    lemma {:induction false} StrideWindow(keys: seq<bytes>, h: nat, t: nat)
      requires Describes(keys) && n > 0
      requires IsPartition(|top|, TopBelow(h), t)
      ensures var (lo, hi) := Window(t);
        && lo <= hi <= n && hi - lo < TOP_STRIDE
        && (forall i :: 0 <= i < lo ==> Head(i) < h)
        && (hi < n ==> Head(hi) >= h)
    {
      var (lo, hi) := Window(t);
      var below := TopBelow(h);
      if t > 0 {
        assert below(t - 1);
        assert top[t - 1] == Head((t - 1) * TOP_STRIDE);
        forall i | 0 <= i < lo ensures Head(i) < h { HeadsAscend(keys, i, (t - 1) * TOP_STRIDE); }
      }
      if hi < n {
        assert t < |top| && !below(t);
      }
    }

    /** The first head of a window not below `h`. */
    method SearchHeads(base: nat, hi: nat, h: nat, ghost keys: seq<bytes>) returns (r: nat)
      requires Describes(keys) && base <= hi <= n
      ensures base <= r <= hi
      ensures forall i :: base <= i < r ==> Head(i) < h
      ensures r < hi ==> Head(r) >= h
    {
      HeadsClimb(keys);
      var head := Heads();
      r := FirstNotBelow(n, head, base, hi, h);
      forall i | base <= i < r ensures Head(i) < h { assert head(i) < h; }
      if r < hi { assert head(r) >= h; }
    }

    /** The first head not below `h`: the top level to one stride, then the stride. */
    method SearchTop(h: nat, ghost keys: seq<bytes>) returns (r: nat, base: nat, hi: nat, ghost t: nat)
      requires Describes(keys) && n > 0
      ensures IsPartition(|top|, TopBelow(h), t) && (base, hi) == Window(t)
      ensures base <= r <= hi <= n && hi - base < TOP_STRIDE
      ensures forall i :: 0 <= i < r ==> Head(i) < h
      ensures r < n ==> Head(r) >= h
    {
      TopPartition(keys, h);
      var at := SelectLowerBound(|top|, TopBelow(h));
      StrideWindow(keys, h, at);
      var w := Window(at);
      base, hi, t := w.0, w.1, at;
      r := SearchHeads(base, hi, h, keys);
    }

    /**
     `seek_exact`, with the window of heads it searches: one stride of the top level, told for every
     query that carries the prefix. The answer is past the window's end exactly where the head there
     ties the query's and the key there is below it; in a uniform index, where the query is longer too.
     */
    method SeekExactHint(q: bytes, keyAt: nat -> Option<bytes>, ghost keys: seq<bytes>)
      returns (r: nat, found: Option<bool>, window: Option<(nat, nat)>, ghost t: nat)
      requires Describes(keys) && CanAsk(keys, keyAt)
      ensures LowerBound(keys, q, 0, n, r) && NeverWrong(keys, q, r, n, found)
      ensures uniformLen.Some? ==> found.Some?
      ensures window.Some? <==> n > 0 && keys[0][..pfx] <= q
      ensures window.Some? ==> IsPartition(|top|, TopBelow(HeadOf(q, pfx)), t) && window.value == Window(t)
      ensures window.Some? ==>
        var (lo, hi) := window.value;
        && lo <= r && lo <= hi <= n && hi - lo < TOP_STRIDE
        && (hi < r <==> hi < n && Head(hi) == HeadOf(q, pfx) && Below(keys[hi], q))
        && (uniformLen.Some? ==> (hi < r <==> hi < n && Head(hi) == HeadOf(q, pfx) && |q| > uniformLen.value))
    {
      if n == 0 {
        return 0, Some(false), None, 0;
      }
      var end := Outside(q, keyAt, 0, n, keys);
      if end.Some? {
        return end.value, Some(false), None, 0;
      }
      var lo, base, hi;
      lo, base, hi, t := SearchTop(HeadOf(q, pfx), keys);
      r, found := ExactAt(lo, HeadOf(q, pfx), q, keyAt, keys);
      if hi < n {
        HeadsAscend(keys, lo, hi);
        HeadSays(keys, q, hi);
      }
      window := Some((base, hi));
    }

    /** `seek_exact`. */
    method SeekExact(q: bytes, keyAt: nat -> Option<bytes>, ghost keys: seq<bytes>)
      returns (r: nat, found: Option<bool>)
      requires Describes(keys) && CanAsk(keys, keyAt)
      ensures LowerBound(keys, q, 0, n, r) && NeverWrong(keys, q, r, n, found)
      ensures uniformLen.Some? ==> found.Some?
    {
      var window;
      ghost var t;
      r, found, window, t := SeekExactHint(q, keyAt, keys);
    }

    /**
     A seek that guesses the answer is no earlier than `from`, and starts over where the guess may be wrong.
     */
    method SeekExactFrom(from: nat, q: bytes, keyAt: nat -> Option<bytes>, ghost keys: seq<bytes>)
      returns (r: nat, found: Option<bool>)
      requires Describes(keys) && CanAsk(keys, keyAt)
      ensures LowerBound(keys, q, 0, n, r) && NeverWrong(keys, q, r, n, found)
      ensures uniformLen.Some? ==> found.Some?
    {
      if from == 0 || from >= n {
        r, found := SeekExact(q, keyAt, keys);
        return;
      }
      var end := Outside(q, keyAt, 0, n, keys);
      if end.Some? {
        return end.value, Some(false);
      }
      var h := HeadOf(q, pfx);
      if Head(from - 1) >= h {
        r, found := SeekExact(q, keyAt, keys);
        return;
      }
      var lo := SearchFrom(from, h, keys);
      r, found := ExactAt(lo, h, q, keyAt, keys);
    }

    /** The first head not below `h`, where the one before `from` is below it. */
    method SearchFrom(from: nat, h: nat, ghost keys: seq<bytes>) returns (lo: nat)
      requires Describes(keys) && 0 < from < n && Head(from - 1) < h
      ensures lo <= n && (forall i :: 0 <= i < lo ==> Head(i) < h) && (lo < n ==> Head(lo) >= h)
    {
      if Head(from) >= h {
        forall i | 0 <= i < from ensures Head(i) < h { HeadsAscend(keys, i, from - 1); }
        return from;
      }
      var base, hi := Gallop(from, h, keys);
      lo := SearchHeads(base, hi, h, keys);
    }

    /** Heads probed twice as far each time, until one is not below `h`. */
    method Gallop(from: nat, h: nat, ghost keys: seq<bytes>) returns (base: nat, hi: nat)
      requires Describes(keys) && from < n && Head(from) < h
      ensures from < base <= hi <= n
      ensures forall i :: 0 <= i < base ==> Head(i) < h
      ensures hi < n ==> Head(hi) >= h
    {
      var lo, step := from, 1;
      hi := n;
      while lo + step < n
        invariant from <= lo < n && step >= 1 && hi == n
        invariant Head(lo) < h
        decreases n - lo
      {
        var p := lo + step;
        if Head(p) < h {
          lo := p;
          step := step * 2;
        } else {
          hi := p;
          break;
        }
      }
      base := lo + 1;
      forall i | 0 <= i < base ensures Head(i) < h { HeadsAscend(keys, i, lo); }
    }

    /** `seek_in_exact`: the lower bound within a window of ranks. */
    method SeekInExact(lo: nat, hi: nat, q: bytes, keyAt: nat -> Option<bytes>, ghost keys: seq<bytes>)
      returns (r: nat, found: Option<bool>)
      requires Describes(keys) && CanAsk(keys, keyAt)
      ensures lo < Min(hi, n) ==> LowerBound(keys, q, lo, Min(hi, n), r) && NeverWrong(keys, q, r, Min(hi, n), found)
      ensures lo >= Min(hi, n) ==> r == Min(hi, n) && found == Some(false)
      ensures uniformLen.Some? ==> found.Some?
    {
      var end := Min(hi, n);
      if lo >= end {
        return end, Some(false);
      }
      var out := Outside(q, keyAt, lo, end, keys);
      if out.Some? {
        return out.value, Some(false);
      }
      var h := HeadOf(q, pfx);
      var a := SearchWindow(lo, end, h, keys);
      if a >= end || Head(a) != h {
        HeadsBound(keys, q, lo, end, a);
        return a, Some(false);
      }
      forall i | lo <= i < a ensures Below(keys[i], q) { HeadSays(keys, q, i); }
      HeadSays(keys, q, a);
      if uniformLen.Some? {
        if |q| <= uniformLen.value {
          forall i | a <= i < end ensures !Below(keys[i], q) { NotBelowFrom(keys, q, a, i); }
          return a, Some(|q| == uniformLen.value);
        }
        var run := RunEnd(h, a, keys);
        r := Min(run, end);
        if run <= end {
          PastTied(keys, q, a, run, end);
        } else {
          forall i | a <= i < end ensures Below(keys[i], q) { HeadSays(keys, q, i); }
        }
        if r < end { HeadSays(keys, q, r); }
        return r, Some(false);
      }
      var run := RunEnd(h, a, keys);
      var stop := Min(run, end);
      r := SearchTied(a, stop, q, keyAt, keys);
      if r < stop {
        forall i | r <= i < end ensures !Below(keys[i], q) { NotBelowFrom(keys, q, r, i); }
      } else if stop < end {
        AfterRun(keys, q, stop, end);
      }
      found := if r >= end then Some(false) else None;
    }

    /** The window's first head not below `h`, the step a branch. */
    method SearchWindow(lo: nat, hi: nat, h: nat, ghost keys: seq<bytes>) returns (a: nat)
      requires Describes(keys) && lo <= hi <= n
      ensures lo <= a <= hi
      ensures forall i :: lo <= i < a ==> Head(i) < h
      ensures a < hi ==> Head(a) >= h
    {
      var b := hi;
      a := lo;
      while a < b
        invariant lo <= a <= b <= hi
        invariant forall i :: lo <= i < a ==> Head(i) < h
        invariant b < hi ==> Head(b) >= h
      {
        var m := (a + b) / 2;
        if Head(m) < h {
          forall i | lo <= i <= m ensures Head(i) < h { HeadsAscend(keys, i, m); }
          a := m + 1;
        } else {
          b := m;
        }
      }
    }

    /** The walk by keys alone, where no prefix was learned. */
    method AdvanceByKeys(from: nat, q: bytes, keyAt: nat -> Option<bytes>, ghost keys: seq<bytes>)
      returns (r: nat)
      requires Describes(keys) && CanAsk(keys, keyAt)
      requires from <= n && prefix.None?
      ensures LowerBound(keys, q, from, n, r)
    {
      r := from;
      while r < n && keyAt(r).Some? && Below(keyAt(r).value, q)
        invariant from <= r <= n
        invariant forall i :: from <= i < r ==> Below(keys[i], q)
      {
        r := r + 1;
      }
      if r < n {
        forall i | r <= i < n ensures !Below(keys[i], q) { NotBelowFrom(keys, q, r, i); }
      }
    }

    /** Whether a rank's key is below the query, asking for it only where its head is the query's. */
    method BelowAt(r: nat, hq: nat, q: bytes, keyAt: nat -> Option<bytes>, ghost keys: seq<bytes>)
      returns (below: bool)
      requires Describes(keys) && CanAsk(keys, keyAt)
      requires r < n && prefix.Some? && keys[0][..pfx] <= q && hq == HeadOf(q, pfx)
      ensures below <==> Below(keys[r], q)
    {
      var h := Head(r);
      HeadSays(keys, q, r);
      if h > hq {
        return false;
      }
      below := h < hq || if uniformLen.Some? then |q| > uniformLen.value
                         else keyAt(r).Some? && Below(keyAt(r).value, q);
    }

    /** The walk by heads. */
    method AdvanceByHeads(from: nat, q: bytes, keyAt: nat -> Option<bytes>, ghost keys: seq<bytes>)
      returns (r: nat)
      requires Describes(keys) && CanAsk(keys, keyAt)
      requires from <= n && prefix.Some? && n > 0 && keys[0][..pfx] <= q
      ensures LowerBound(keys, q, from, n, r)
    {
      r := from;
      var hq := HeadOf(q, pfx);
      while r < n
        invariant from <= r <= n
        invariant forall i :: from <= i < r ==> Below(keys[i], q)
      {
        var below := BelowAt(r, hq, q, keyAt, keys);
        if !below {
          break;
        }
        r := r + 1;
      }
      if r < n {
        forall i | r <= i < n ensures !Below(keys[i], q) { NotBelowFrom(keys, q, r, i); }
      }
    }

    /** `advance_below`: a walk along the heads to the first rank from `from` not below the query. */
    method AdvanceBelow(from: nat, q: bytes, keyAt: nat -> Option<bytes>, ghost keys: seq<bytes>)
      returns (r: nat)
      requires Describes(keys) && CanAsk(keys, keyAt)
      requires from <= n
      ensures LowerBound(keys, q, from, n, r)
    {
      if prefix.None? {
        r := AdvanceByKeys(from, q, keyAt, keys);
        return;
      }
      if n == 0 {
        return from;
      }
      var end := Outside(q, keyAt, from, n, keys);
      if end.Some? {
        return end.value;
      }
      r := AdvanceByHeads(from, q, keyAt, keys);
    }

    // -------------------------------------------------------------- what opening and learning give

    /** The bytes every key begins with, taken from the first of them. */
    method LearnPrefix(first: bytes, ghost keys: seq<bytes>)
      requires Describes(keys)
      requires n > 0 ==> first == keys[0]
      modifies this`prefix
      ensures Describes(keys) && prefix.Some?
    {
      prefix := Some(first[..Min(pfx, |first|)]);
    }

    /** The key at a rank from its head alone: that key, wherever it answers. */
    method WholeKeyAt(rank: nat, ghost keys: seq<bytes>) returns (key: Option<bytes>)
      requires Describes(keys)
      ensures key.Some? <==> uniformLen.Some? && prefix.Some? && rank < n
      ensures key.Some? ==> key.value == keys[rank]
    {
      if uniformLen.None? || prefix.None? || rank >= n || |prefix.value| != pfx {
        return None;
      }
      var h := if rank % TOP_STRIDE == 0 then top[rank / TOP_STRIDE] else Head(rank);
      WholeKey(prefix.value, keys[rank]);
      key := Some(prefix.value + BeBytes(h, HEAD)[..uniformLen.value - pfx]);
    }
  }

  /** `OrdIndex::open`: the header checked, the top level built. */
  method Open(file: bytes, keys: nat) returns (r: Result<Index, OpenError>)
    ensures r.Success? <==> OpenHeader(file, keys).Success?
    ensures r.Failure? ==> r.error == OpenHeader(file, keys).error
    ensures r.Success? ==> r.value.OpenedFrom(file, OpenHeader(file, keys).value)
  {
    var h := OpenHeader(file, keys);
    if h.Failure? {
      return Failure(h.error);
    }
    var top: seq<nat> := [];
    var i := 0;
    while i < h.value.n
      invariant i == |top| * TOP_STRIDE
      invariant HEADER + HEAD * h.value.n <= |file|
      invariant forall t :: 0 <= t < |top| ==> t * TOP_STRIDE < h.value.n
      invariant forall t :: 0 <= t < |top| ==> top[t] == HeadAt(file, t * TOP_STRIDE)
    {
      top := top + [HeadAt(file, i)];
      i := i + TOP_STRIDE;
    }
    var index := new Index(file, h.value, top);
    r := Success(index);
  }

  /** Composed, opened and searched: the index of a sorted list is an index of those keys. */
  lemma {:induction false} OpenedDescribes(index: Index, keys: seq<bytes>)
    requires Ascending(keys) && Fits64(keys)
    requires OpenHeader(FileOf(keys), |keys|).Success?
    requires index.OpenedFrom(FileOf(keys), OpenHeader(FileOf(keys), |keys|).value)
    ensures index.Describes(keys)
    ensures index.uniformLen.Some? <==> Uniform(keys)
  {
    FileOpens(keys);
    forall i | 0 <= i < index.n
      ensures keys[0][..index.pfx] <= keys[i] && index.Head(i) == HeadOf(keys[i], index.pfx)
    {
      EveryKeyHasPrefix(keys, i);
      FileHeads(keys, i);
    }
  }

  /** A sorted list composed into a file and opened: every seek of it answers as the list does. */
  method ComposeAndOpen(keys: seq<bytes>) returns (index: Index)
    requires Ascending(keys) && Fits64(keys)
    ensures index.Describes(keys)
    ensures index.uniformLen.Some? <==> Uniform(keys)
  {
    var file := Compose(keys);
    FileOpens(keys);
    var r := Open(file, |keys|);
    index := r.value;
    OpenedDescribes(index, keys);
  }

  lemma {:induction false} ZeroTies(pfx: nat)
    requires pfx <= 1
    ensures HeadOf([97], pfx) == HeadOf([97, 0], pfx) && Below([97], [97, 0])
  {
    var a, b: bytes := [97], [97, 0];
    assert a[1..] == [] && b[1..] == [0] && a[0..] == a && b[0..] == b;
    assert Padded(a[pfx..]) == Padded(b[pfx..]);
    assert b[1..] != [] && a[1..] == [];
  }

  /** The window a partition of one sample gives a head no sample is below. */
  lemma {:induction false} OneSample(index: Index, keys: seq<bytes>, h: nat, t: nat)
    requires index.Describes(keys) && index.n == 1 && h == index.Head(0)
    requires IsPartition(|index.top|, index.TopBelow(h), t)
    ensures index.Window(t) == (0, 0)
  {
    assert index.top[0] == index.Head(0);
    var below := index.TopBelow(h);
    assert !below(0);
  }

  /**
   The window a seek reports need not hold its answer: over the index of one key, that key with a zero
   byte after it is answered at rank one, past a window that ends at zero.
   */
  method WindowCanBeLeft() returns (r: nat, window: Option<(nat, nat)>)
    ensures r == 1 && window == Some((0, 0))
  {
    ghost var keys: seq<bytes> := [[97]];
    var index := ComposeAndOpen([[97]]);
    var keyAt: nat -> Option<bytes> := (i: nat) => if i == 0 then Some([97]) else None;
    var found;
    ghost var t;
    ZeroTies(index.pfx);
    assert keys[0][..index.pfx] <= [97, 0];
    r, found, window, t := index.SeekExactHint([97, 0], keyAt, keys);
    assert Below(keys[0], [97, 0]);
    assert index.Head(0) == HeadOf(keys[0], index.pfx);
    OneSample(index, keys, HeadOf([97, 0], index.pfx), t);
  }
}
