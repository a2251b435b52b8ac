/** The searches the ordered index is made of, over heads and over short byte strings. */
module OrdSearch {
  import opened Bytes
  import opened Heads

  datatype Ordering = Less | Equal | Greater

  /** The order of two byte strings. */
  function Compare(a: bytes, b: bytes): Ordering {
    if Below(a, b) then Less else if a == b then Equal else Greater
  }

  // ---------------------------------------------------------------- short compares

  /** A shared prefix, then words that differ: the words decide. */
  lemma {:induction false} WordDecides(a: bytes, b: bytes, i: nat)
    requires |a| == |b| && i + 8 <= |a|
    requires a[..i] == b[..i] && a[i..i + 8] != b[i..i + 8]
    ensures Compare(a, b) == if BeNat(a[i..i + 8]) < BeNat(b[i..i + 8]) then Less else Greater
  {
    var x, y := a[i..i + 8], b[i..i + 8];
    assert a == a[..i] + (x + a[i + 8..]) && b == b[..i] + (y + b[i + 8..]);
    BelowPast(a[..i], x + a[i + 8..], y + b[i + 8..]);
    BelowWithin(x, y, a[i + 8..], b[i + 8..]);
    BeOrder(x, y);
  }

  lemma {:induction false} ByteDecides(a: bytes, b: bytes, i: nat)
    requires |a| == |b| && i < |a|
    requires a[..i] == b[..i] && a[i] != b[i]
    ensures Compare(a, b) == if a[i] < b[i] then Less else Greater
  {
    assert a == a[..i] + a[i..] && b == b[..i] + b[i..];
    BelowPast(a[..i], a[i..], b[i..]);
  }

  lemma {:induction false} WordsDiffer(a: bytes, b: bytes)
    requires |a| == |b|
    ensures BeNat(a) != BeNat(b) <==> a != b
  {
    BeOrder(a, b);
  }

  /** Two slices of one length, a word at a time, the tail as an overlapping word or a byte at a time. */
  method CmpShort(a: bytes, b: bytes) returns (o: Ordering)
    requires |a| == |b|
    ensures o == Compare(a, b)
  {
    BelowIrreflexive(a);
    var n := |a|;
    var i := 0;
    while i + 8 <= n
      invariant 0 <= i <= n
      invariant a[..i] == b[..i]
    {
      var x, y := BeNat(a[i..i + 8]), BeNat(b[i..i + 8]);
      WordsDiffer(a[i..i + 8], b[i..i + 8]);
      if x != y {
        WordDecides(a, b, i);
        return if x < y then Less else Greater;
      }
      assert a[..i + 8] == a[..i] + a[i..i + 8] && b[..i + 8] == b[..i] + b[i..i + 8];
      i := i + 8;
    }
    if i < n {
      if n >= 8 {
        var x, y := BeNat(a[n - 8..n]), BeNat(b[n - 8..n]);
        WordsDiffer(a[n - 8..n], b[n - 8..n]);
        assert a[..n - 8] == a[..i][..n - 8] && b[..n - 8] == b[..i][..n - 8];
        if x != y {
          WordDecides(a, b, n - 8);
          return if x < y then Less else Greater;
        }
        assert a == a[..n - 8] + a[n - 8..n] && b == b[..n - 8] + b[n - 8..n];
      } else {
        while i < n
          invariant 0 <= i <= n
          invariant a[..i] == b[..i]
        {
          if a[i] != b[i] {
            ByteDecides(a, b, i);
            return if a[i] < b[i] then Less else Greater;
          }
          assert a[..i + 1] == a[..i] + [a[i]] && b[..i + 1] == b[..i] + [b[i]];
          i := i + 1;
        }
        assert a == a[..n] && b == b[..n];
      }
    } else {
      assert a == a[..n] && b == b[..n];
    }
    o := Equal;
  }

  // ---------------------------------------------------------------- select search

  /** Once false, false from there on. */
  ghost predicate Partitioned(n: nat, below: nat -> bool) {
    forall i, j :: 0 <= i < j < n && below(j) ==> below(i)
  }

  /** Where the true part ends. */
  ghost predicate IsPartition(n: nat, below: nat -> bool, r: nat) {
    && r <= n
    && (forall i :: 0 <= i < r ==> below(i))
    && (forall i :: r <= i < n ==> !below(i))
  }

  /** The partition point, the step a select and not a branch (`select_lower_bound`). */
  method SelectLowerBound(n: nat, below: nat -> bool) returns (r: nat)
    requires Partitioned(n, below)
    ensures IsPartition(n, below, r)
  {
    var lo: nat, len: nat := 0, n;
    while len > 1
      invariant lo + len <= n && (n > 0 ==> len > 0)
      invariant forall i :: 0 <= i < lo ==> below(i)
      invariant forall i :: lo + len <= i < n ==> !below(i)
      decreases len
    {
      var half := len / 2;
      if below(lo + half - 1) {
        lo := lo + half;
      }
      len := len - half;
    }
    r := lo + if len == 1 && below(lo) then 1 else 0;
  }
}
