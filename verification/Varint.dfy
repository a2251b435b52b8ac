/** Variable-length integers: seven bits a byte, lowest first, the top bit saying more follow. */
module Varint {
  import opened Bytes

  /** A 64-bit value needs at most ten groups of seven bits. */
  const GROUPS: nat := 10

  /** The bytes of a value. */
  function Uvarint(v: nat): (b: bytes)
    ensures |b| > 0
  {
    if v < 0x80 then [v] else [v % 0x80 + 0x80] + Uvarint(v / 0x80)
  }

  /** A value's bytes appended to `out`. */
  method PutUvarint(out: bytes, v: nat) returns (r: bytes)
    ensures r == out + Uvarint(v)
  {
    r := out;
    var w := v;
    while w >= 0x80
      invariant r + Uvarint(w) == out + Uvarint(v)
    {
      assert r + ([w % 0x80 + 0x80] + Uvarint(w / 0x80)) == (r + [w % 0x80 + 0x80]) + Uvarint(w / 0x80);
      r := r + [w % 0x80 + 0x80];
      w := w / 0x80;
    }
    r := r + [w];
  }

  /** How many bytes a value takes. */
  method UvarintLen(v: nat) returns (n: nat)
    ensures n == |Uvarint(v)|
  {
    n := 1;
    var w := v;
    while w >= 0x80
      invariant n >= 1 && n - 1 + |Uvarint(w)| == |Uvarint(v)|
    {
      w := w / 0x80;
      n := n + 1;
    }
  }

  /**
   The groups at `pos`, at most `left` of them, as one number, and where they end: at a byte without
   the top bit, at the end of the buffer, or after `left` groups.
   */
  function Groups(buf: bytes, pos: nat, left: nat): (r: (nat, nat))
    requires pos <= |buf|
    ensures pos <= r.1 <= |buf| && (pos < |buf| && left > 0 ==> pos < r.1)
    decreases left, buf
  {
    if pos == |buf| || left == 0 then (0, pos)
    else if buf[pos] < 0x80 then (buf[pos], pos + 1)
    else
      var (v, p) := Groups(buf, pos + 1, left - 1);
      (buf[pos] - 0x80 + 0x80 * v, p)
  }

  /** What is left of a value in 64 bits. */
  function Wrapped(v: nat): (w: nat)
    ensures w < U64
    decreases v
  {
    if v < U64 then v else Wrapped(v - U64)
  }

  lemma {:induction false} WrappedIsMod(v: nat)
    ensures Wrapped(v) == v % U64
    decreases v
  {
    if v >= U64 {
      WrappedIsMod(v - U64);
      var u := v - U64;
      assert u == U64 * (u / U64) + u % U64;
      ModUnique(v, U64, u / U64 + 1, u % U64);
    } else {
      SmallMod(v, U64);
    }
  }

  /** The value at `pos` as a 64-bit word, and where it ends; what there is, where it is cut short. */
  function GetUvarint(buf: bytes, pos: nat): (r: (nat, nat))
    requires pos <= |buf|
    ensures r.0 < U64 && pos <= r.1 <= |buf| && (pos < |buf| ==> pos < r.1)
  {
    var (v, p) := Groups(buf, pos, GROUPS);
    (Wrapped(v), p)
  }

  function Pow128(k: nat): (p: nat)
    ensures p > 0
  {
    if k == 0 then 1 else 0x80 * Pow128(k - 1)
  }

  lemma {:induction false} Powers()
    ensures Pow128(9) == 0x8000_0000_0000_0000 && 2 * Pow128(9) == U64 && Pow128(10) == 0x80 * Pow128(9)
  {
    assert Pow128(3) == 0x20_0000;
    assert Pow128(6) == 0x20_0000 * Pow128(3);
  }

  lemma {:induction false} Pow128Monotone(j: nat, k: nat)
    requires j <= k
    ensures Pow128(j) <= Pow128(k)
  {
    if j < k { Pow128Monotone(j, k - 1); }
  }

  /** A group in its place, cut to 64 bits, over the groups below it. */
  lemma {:induction false} GroupPlaced(v: nat, k: nat, d: nat)
    requires k < GROUPS && v < Pow128(k) && d < 0x80
    ensures v + (d * Pow128(k)) % U64 == (v + d * Pow128(k)) % U64
    ensures k < 9 ==> v + d * Pow128(k) < Pow128(k + 1) <= Pow128(9) && (d * Pow128(k)) % U64 == d * Pow128(k)
  {
    Powers();
    var p := Pow128(k);
    if k < 9 {
      Pow128Monotone(k + 1, 9);
      assert d * p <= 0x7f * p;
      SmallMod(d * p, U64);
      SmallMod(v + d * p, U64);
    } else {
      var q, r := d / 2, d % 2;
      assert d * p == q * U64 + r * p;
      ModUnique(d * p, U64, q, r * p);
      ModUnique(v + d * p, U64, q, v + r * p);
    }
  }

  lemma {:induction false} Associate3(d: nat, g: nat, p: nat)
    ensures (d + 0x80 * g) * p == d * p + g * (0x80 * p)
  {}

  /** One byte read: what it adds, and what the groups after it still add. */
  lemma {:induction false} ReadStep(buf: bytes, p: nat, k: nat, v: nat)
    requires p < |buf| && k < GROUPS && v < Pow128(k)
    ensures var d, g := buf[p] % 0x80, Groups(buf, p, GROUPS - k);
      var w := v + (d * Pow128(k)) % U64;
      && (buf[p] < 0x80 || k == 9 ==> w == (v + g.0 * Pow128(k)) % U64 && g.1 == p + 1)
      && (buf[p] >= 0x80 && k < 9 ==>
            var rest := Groups(buf, p + 1, GROUPS - (k + 1));
            w < Pow128(k + 1) && w + rest.0 * Pow128(k + 1) == v + g.0 * Pow128(k) && g.1 == rest.1)
  {
    var d := buf[p] % 0x80;
    GroupPlaced(v, k, d);
    if buf[p] >= 0x80 {
      var rest := Groups(buf, p + 1, GROUPS - (k + 1));
      Associate3(d, rest.0, Pow128(k));
    }
  }

  /** The decoding loop: the value of `GetUvarint`, read a byte at a time. */
  method ReadUvarint(buf: bytes, pos: nat) returns (v: nat, p: nat)
    requires pos <= |buf|
    ensures (v, p) == GetUvarint(buf, pos)
  {
    v, p := 0, pos;
    var k := 0;
    ghost var all := Groups(buf, pos, GROUPS);
    WrappedIsMod(all.0);
    while p < |buf|
      invariant k < GROUPS && p <= |buf| && v < Pow128(k)
      invariant v + Groups(buf, p, GROUPS - k).0 * Pow128(k) == all.0
      invariant Groups(buf, p, GROUPS - k).1 == all.1
      decreases GROUPS - k
    {
      var b := buf[p];
      ReadStep(buf, p, k, v);
      p := p + 1;
      v := v + ((b % 0x80) * Pow128(k)) % U64;
      if b < 0x80 {
        return;
      }
      k := k + 1;
      if k == GROUPS {
        return;
      }
    }
    Powers();
    Pow128Monotone(k, 9);
    SmallMod(v, U64);
  }

  /** What was put is got back, wherever it lies, and no byte more is taken. */
  lemma {:induction false} GroupsRoundTrip(pre: bytes, v: nat, post: bytes, left: nat)
    requires v < Pow128(left) && left > 0
    ensures Groups(pre + Uvarint(v) + post, |pre|, left) == (v, |pre| + |Uvarint(v)|)
    decreases v
  {
    var buf := pre + Uvarint(v) + post;
    if v >= 0x80 {
      var b := v % 0x80 + 0x80;
      assert buf == (pre + [b]) + Uvarint(v / 0x80) + post;
      GroupsRoundTrip(pre + [b], v / 0x80, post, left - 1);
    }
  }

  lemma {:induction false} UvarintRoundTrip(pre: bytes, v: nat, post: bytes)
    requires v < U64
    ensures GetUvarint(pre + Uvarint(v) + post, |pre|) == (v, |pre| + |Uvarint(v)|)
  {
    Powers();
    GroupsRoundTrip(pre, v, post, GROUPS);
  }
}
