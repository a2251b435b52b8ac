/**
 The ordered index of a segment: one head a key, and the seeks over the heads.

 Every seek is proved against the plain one, the first rank whose key is not below the query in the
 sorted list of whole keys.
 */
module OrdIndex {
  import opened Bytes
  import opened Heads
  import opened Wrappers
  import Crc

  const MAGIC: nat := 0x3144_524f_4450_5553
  const HEADER: nat := 64
  const TOP_STRIDE: nat := 64
  const UNIFORM_AT: nat := 32

  // ---------------------------------------------------------------- the file

  /** How many bytes two keys share. */
  function CommonPrefix(a: bytes, b: bytes): (n: nat)
    ensures n <= |a| && n <= |b| && a[..n] == b[..n]
    ensures n < |a| && n < |b| ==> a[n] != b[n]
  {
    if a == [] || b == [] || a[0] != b[0] then 0
    else
      var n := CommonPrefix(a[1..], b[1..]);
      assert a[..1 + n] == [a[0]] + a[1..][..n] && b[..1 + n] == [b[0]] + b[1..][..n];
      1 + n
  }

  /** The prefix a sorted list's keys share: what the first and the last do. */
  function PrefixLen(keys: seq<bytes>): nat {
    if keys == [] then 0 else CommonPrefix(keys[0], keys[|keys| - 1])
  }

  /** Every key of one length, and no longer than the prefix and a head. */
  predicate Uniform(keys: seq<bytes>) {
    && keys != []
    && |keys[0]| <= PrefixLen(keys) + HEAD
    && SameLength(keys, |keys[0]|)
  }

  function UniformWord(keys: seq<bytes>): nat {
    if Uniform(keys) then |keys[0]| + 1 else 0
  }

  function HeadBytes(keys: seq<bytes>, pfx: nat): (b: bytes)
    ensures |b| == HEAD * |keys|
  {
    if keys == [] then []
    else HeadBytes(keys[..|keys| - 1], pfx) + BeBytes(HeadOf(keys[|keys| - 1], pfx), HEAD)
  }

  function HeaderWords(v0: nat, v1: nat, v2: nat, v3: nat, v4: nat): (b: bytes)
    ensures |b| == HEADER
  {
    Words([v0, v1, v2, v3, v4, 0, 0, 0], 8)
  }

  function HeaderOf(n: nat, pfx: nat, uniform: nat): (b: bytes)
    ensures |b| == HEADER
  {
    HeaderWords(MAGIC, n, pfx, HEADER, uniform)
  }

  function Checksum(b: bytes): (c: bytes)
    ensures |c| == 4
  {
    LeBytes(Crc.Crc32(b) as nat, 4)
  }

  /** The file of a sorted list of keys: header, heads in rank order, and the checksum of all before it. */
  function FileOf(keys: seq<bytes>): bytes {
    var body := HeaderOf(|keys|, PrefixLen(keys), UniformWord(keys)) + HeadBytes(keys, PrefixLen(keys));
    body + Checksum(body)
  }

  const NO_WORDS: seq<nat> := [0, 0, 0, 0, 0, 0, 0, 0]

  /** The header before its words are known. */
  function Zeros(): (z: bytes)
    ensures |z| == HEADER
  {
    Words(NO_WORDS, 8)
  }

  /** Five words stored over the first words of a file, in turn. */
  function FiveStored(b: bytes, v0: nat, v1: nat, v2: nat, v3: nat, v4: nat): bytes
    requires |b| >= HEADER
  {
    var b1 := Stored(b, 0, v0, 8);
    var b4 := Stored(Stored(Stored(b1, 8, v1, 8), 16, v2, 8), 24, v3, 8);
    Stored(b4, UNIFORM_AT, v4, 8)
  }

  lemma {:induction false} Patch(b: bytes, ws: seq<nat>, rest: bytes, k: nat, at: nat, v: nat)
    requires b == Words(ws, 8) + rest && k < |ws| && at == WordPlace(8, k)
    ensures at + 8 <= |b| && Stored(b, at, v, 8) == Words(ws[k := v], 8) + rest
  {
    WordPatched(ws, 8, k, v, rest);
  }

  lemma {:induction false} FivePatched(b: bytes, ws: seq<nat>, rest: bytes, v0: nat, v1: nat, v2: nat, v3: nat, v4: nat)
    requires |ws| == 8 && b == Words(ws, 8) + rest && |b| >= HEADER
    ensures FiveStored(b, v0, v1, v2, v3, v4) == Words(ws[0 := v0][1 := v1][2 := v2][3 := v3][4 := v4], 8) + rest
  {
    var b1, w1 := Stored(b, 0, v0, 8), ws[0 := v0];
    Patch(b, ws, rest, 0, 0, v0);
    var b2, w2 := Stored(b1, 8, v1, 8), w1[1 := v1];
    Patch(b1, w1, rest, 1, 8, v1);
    var b3, w3 := Stored(b2, 16, v2, 8), w2[2 := v2];
    Patch(b2, w2, rest, 2, 16, v2);
    var b4, w4 := Stored(b3, 24, v3, 8), w3[3 := v3];
    Patch(b3, w3, rest, 3, 24, v3);
    Patch(b4, w4, rest, 4, UNIFORM_AT, v4);
  }

  /** Over the header's zeros they make the header. */
  lemma {:induction false} HeaderStored(rest: bytes, v0: nat, v1: nat, v2: nat, v3: nat, v4: nat)
    ensures FiveStored(Zeros() + rest, v0, v1, v2, v3, v4) == HeaderWords(v0, v1, v2, v3, v4) + rest
  {
    FivePatched(Zeros() + rest, NO_WORDS, rest, v0, v1, v2, v3, v4);
    assert NO_WORDS[0 := v0][1 := v1][2 := v2][3 := v3][4 := v4] == [v0, v1, v2, v3, v4, 0, 0, 0];
  }

  lemma {:induction false} PushHeads(keys: seq<bytes>, key: bytes, pfx: nat)
    ensures HeadBytes(keys + [key], pfx) == HeadBytes(keys, pfx) + BeBytes(HeadOf(key, pfx), HEAD)
  {
    assert (keys + [key])[..|keys|] == keys;
  }

  lemma {:induction false} PushFile(keys: seq<bytes>, key: bytes, pfx: nat)
    ensures Zeros() + HeadBytes(keys + [key], pfx)
         == Zeros() + HeadBytes(keys, pfx) + BeBytes(HeadOf(key, pfx), HEAD)
  {
    PushHeads(keys, key, pfx);
  }

  /** Every key of one length. */
  predicate SameLength(keys: seq<bytes>, len: nat) {
    forall i :: 0 <= i < |keys| ==> |keys[i]| == len
  }

  lemma {:induction false} PushLength(keys: seq<bytes>, key: bytes, len: nat)
    ensures SameLength(keys + [key], len) <==> SameLength(keys, len) && |key| == len
  {
    var all := keys + [key];
    assert all[|keys|] == key;
    assert forall i :: 0 <= i < |keys| ==> all[i] == keys[i];
  }

  /** A composer that is handed keys one by one and keeps none. */
  class Composer {
    var out: bytes
    const pfx: nat
    const len0: nat
    var uniform: bool
    const n: nat
    var pushed: nat

    constructor (n: nat, first: bytes, last: bytes)
      ensures this.n == n && pushed == 0
      ensures pfx == if n == 0 then 0 else CommonPrefix(first, last)
      ensures len0 == if n == 0 then 0 else |first|
      ensures uniform == (n > 0 && len0 <= pfx + HEAD)
      ensures out == Zeros()
    {
      this.n := n;
      var p := if n == 0 then 0 else CommonPrefix(first, last);
      var l := if n == 0 then 0 else |first|;
      pfx, len0 := p, l;
      uniform := n > 0 && l <= p + HEAD;
      pushed := 0;
      out := Zeros();
    }

    /** What has been pushed so far. */
    ghost predicate Holds(keys: seq<bytes>)
      reads this
    {
      && pushed == |keys|
      && out == Zeros() + HeadBytes(keys, pfx)
      && uniform == (n > 0 && len0 <= pfx + HEAD && SameLength(keys, len0))
    }

    /** The next key in key order. */
    method Push(key: bytes, ghost keys: seq<bytes>)
      requires Holds(keys)
      modifies this`out, this`uniform, this`pushed
      ensures Holds(keys + [key])
    {
      PushFile(keys, key, pfx);
      uniform := uniform && |key| == len0;
      out := out + BeBytes(HeadOf(key, pfx), HEAD);
      pushed := pushed + 1;
      PushLength(keys, key, len0);
    }

    /** The header's words, stored in turn. */
    method StoreFive(v0: nat, v1: nat, v2: nat, v3: nat, v4: nat)
      requires |out| >= HEADER
      modifies this`out
      ensures out == FiveStored(old(out), v0, v1, v2, v3, v4)
    {
      out := Stored(out, 0, v0, 8);
      out := Stored(out, 8, v1, 8);
      out := Stored(out, 16, v2, 8);
      out := Stored(out, 24, v3, 8);
      out := Stored(out, UNIFORM_AT, v4, 8);
    }

    /** The file: the header's words stored over the zeros, then the checksum. */
    method Finish(ghost keys: seq<bytes>) returns (file: bytes)
      requires Holds(keys) && pushed == n
      requires pfx == PrefixLen(keys) && (keys != [] ==> len0 == |keys[0]|)
      modifies this`out
      ensures file == FileOf(keys)
    {
      var w := if uniform then len0 + 1 else 0;
      HeaderStored(HeadBytes(keys, pfx), MAGIC, n, pfx, HEADER, w);
      StoreFive(MAGIC, n, pfx, HEADER, w);
      file := out + Checksum(out);
    }
  }

  /** A list's file, through the composer (`Builder::finish_from`). */
  method Compose(keys: seq<bytes>) returns (file: bytes)
    ensures file == FileOf(keys)
  {
    var c: Composer;
    if |keys| == 0 {
      c := new Composer(0, [], []);
    } else {
      c := new Composer(|keys|, keys[0], keys[|keys| - 1]);
    }
    var i := 0;
    while i < |keys|
      invariant 0 <= i <= |keys| && fresh(c)
      invariant c.Holds(keys[..i])
    {
      ghost var front := keys[..i];
      assert front + [keys[i]] == keys[..i + 1];
      c.Push(keys[i], front);
      i := i + 1;
    }
    assert keys[..i] == keys;
    file := c.Finish(keys);
  }

  // ---------------------------------------------------------------- opening

  datatype OpenError = TooShort | BadChecksum | WrongMagic | OtherSegment | BadUniform | Overflows | BadHeads

  datatype Header = Header(n: nat, pfx: nat, uniformLen: Option<nat>)

  function HeaderWord(b: bytes, at: nat): nat
    requires at + 8 <= |b|
  {
    LeNat(b[at..at + 8])
  }

  /** What a file says of itself, or why it is refused. `keys` is the segment's own key count. */
  function OpenHeader(b: bytes, keys: nat): Result<Header, OpenError> {
    if |b| < HEADER + 4 then Failure(TooShort)
    else
      var body := |b| - 4;
      if Checksum(b[..body]) != b[body..] then Failure(BadChecksum)
      else if HeaderWord(b, 0) != MAGIC then Failure(WrongMagic)
      else
        var n, pfx, headsAt, w := HeaderWord(b, 8), HeaderWord(b, 16), HeaderWord(b, 24), HeaderWord(b, UNIFORM_AT);
        if n != keys then Failure(OtherSegment)
        else if w != 0 && (w - 1 < pfx || w - 1 > pfx + HEAD) then Failure(BadUniform)
        else if n * HEAD >= U64 then Failure(Overflows)
        else if headsAt != HEADER || headsAt + n * HEAD != body then Failure(BadHeads)
        else Success(Header(n, pfx, if w == 0 then None else Some(w - 1)))
  }

  /** Keys whose count and lengths a 64-bit header can hold. */
  predicate Fits64(keys: seq<bytes>) {
    HEAD * |keys| < U64 && forall i :: 0 <= i < |keys| ==> |keys[i]| < U64 - 1
  }

  lemma {:induction false} HeaderReads(n: nat, pfx: nat, w: nat, rest: bytes)
    requires n < U64 && pfx < U64 && w < U64
    ensures var b := HeaderOf(n, pfx, w) + rest;
      HeaderWord(b, 0) == MAGIC && HeaderWord(b, 8) == n && HeaderWord(b, 16) == pfx && HeaderWord(b, 24) == HEADER && HeaderWord(b, 32) == w
  {
    var vs := [MAGIC, n, pfx, HEADER, w, 0, 0, 0];
    WordSizes();
    WordRead(vs, 8, 0, rest);
    WordRead(vs, 8, 1, rest);
    WordRead(vs, 8, 2, rest);
    WordRead(vs, 8, 3, rest);
    WordRead(vs, 8, 4, rest);
  }

  lemma {:induction false} OpensWith(n: nat, pfx: nat, w: nat, heads: bytes, sum: bytes)
    requires n * HEAD < U64 && pfx < U64 && w < U64
    requires |heads| == HEAD * n && |sum| == 4
    requires w != 0 ==> pfx <= w - 1 <= pfx + HEAD
    requires sum == Checksum(HeaderOf(n, pfx, w) + heads)
    ensures OpenHeader(HeaderOf(n, pfx, w) + heads + sum, n)
         == Success(Header(n, pfx, if w == 0 then None else Some(w - 1)))
  {
    var body := HeaderOf(n, pfx, w) + heads;
    var file := body + sum;
    assert file[..|body|] == body && file[|body|..] == sum;
    HeaderReads(n, pfx, w, heads + sum);
    assert file == HeaderOf(n, pfx, w) + (heads + sum);
  }

  /** A composed file opens, and says of itself what it was composed of. */
  lemma {:induction false} FileOpens(keys: seq<bytes>)
    requires Fits64(keys)
    ensures OpenHeader(FileOf(keys), |keys|)
         == Success(Header(|keys|, PrefixLen(keys), if Uniform(keys) then Some(|keys[0]|) else None))
  {
    var n, pfx, w := |keys|, PrefixLen(keys), UniformWord(keys);
    var heads := HeadBytes(keys, pfx);
    if Uniform(keys) { assert pfx <= |keys[0]|; }
    OpensWith(n, pfx, w, heads, Checksum(HeaderOf(n, pfx, w) + heads));
  }

  lemma {:induction false} HeadBytesAt(keys: seq<bytes>, pfx: nat, i: nat)
    requires i < |keys|
    ensures HeadBytes(keys, pfx)[HEAD * i..HEAD * i + HEAD] == BeBytes(HeadOf(keys[i], pfx), HEAD)
  {
    if i < |keys| - 1 {
      HeadBytesAt(keys[..|keys| - 1], pfx, i);
      assert keys[..|keys| - 1][i] == keys[i];
    }
  }

  lemma {:induction false} SliceMiddle(a: bytes, b: bytes, c: bytes, i: nat, j: nat)
    requires i <= j <= |b|
    ensures (a + b + c)[|a| + i..|a| + j] == b[i..j]
  {}

  /** Head `i` of a file is key `i`'s. */
  lemma {:induction false} FileHeads(keys: seq<bytes>, i: nat)
    requires i < |keys|
    ensures HEADER + HEAD * i + HEAD <= |FileOf(keys)|
    ensures BeNat(FileOf(keys)[HEADER + HEAD * i..HEADER + HEAD * i + HEAD]) == HeadOf(keys[i], PrefixLen(keys))
  {
    var pfx := PrefixLen(keys);
    var header, heads := HeaderOf(|keys|, pfx, UniformWord(keys)), HeadBytes(keys, pfx);
    SliceMiddle(header, heads, Checksum(header + heads), HEAD * i, HEAD * i + HEAD);
    HeadBytesAt(keys, pfx, i);
    BeWord(HeadOf(keys[i], pfx), HEAD);
  }

  /** Between the first key and the last every key has the prefix those two share. */
  lemma {:induction false} EveryKeyHasPrefix(keys: seq<bytes>, i: nat)
    requires Ascending(keys) && i < |keys|
    ensures keys[0][..PrefixLen(keys)] <= keys[i]
  {
    var last := keys[|keys| - 1];
    BelowIrreflexive(keys[i]);
    if i > 0 { BelowAsymmetric(keys[0], keys[i]); }
    if i < |keys| - 1 { BelowAsymmetric(keys[i], last); }
    PrefixBetween(keys[0][..PrefixLen(keys)], keys[0], keys[i], last);
  }
}
