/**
 CRC-32C: one bit-serial definition, and the fast forms the store computes it by.

 The definition is the reflected shift register of the Castagnoli polynomial (section 12.1 of
 RFC 3720) fed one message bit at a time. Against it stand the slice-by-8 tables and loop, the
 resumption of a finished checksum, and the combination of two checksums by matrices over GF(2).
 */
module Crc {
  import opened Bytes
  import opened Gf2

  const CASTAGNOLI: bv32 := 0x82F6_3B78
  const FINAL: bv32 := 0xFFFF_FFFF

  // ---------------------------------------------------------------- definition

  /** The register after one more zero bit. */
  function BitStep(c: bv32): bv32 {
    if c & 1 != 0 then CASTAGNOLI ^ (c >> 1) else c >> 1
  }

  /** The register after the low `n` bits of `b`, fed lowest first. */
  function FeedBits(c: bv32, b: bv32, n: nat): bv32
    decreases n, c
  {
    if n == 0 then c else FeedBits(BitStep(c ^ (b & 1)), b >> 1, n - 1)
  }

  /** The register after a message. */
  function Register(c: bv32, data: bytes): bv32
    decreases |data|
  {
    if data == [] then c else Register(FeedBits(c, data[0] as bv32, 8), data[1..])
  }

  /** CRC-32C of a message. */
  function Crc32(data: bytes): bv32 { Register(FINAL, data) ^ FINAL }

  // ---------------------------------------------------------------- 32-bit words

  const WORDS: Words<bv32> := Words(0, (a: bv32, b: bv32) => a ^ b)

  lemma {:induction false} WordLaws()
    ensures Laws(WORDS)
  {
    forall a, b, c ensures LawsAt(WORDS, a, b, c) {
      WordLawsAt(a, b, c);
    }
  }

  lemma {:induction false} WordLawsAt(a: bv32, b: bv32, c: bv32)
    ensures LawsAt(WORDS, a, b, c)
  {
    Commutes(a, b);
    Associates(a, b, c);
    Units(a);
  }

  lemma {:induction false} Commutes(a: bv32, b: bv32)
    ensures WORDS.xor(a, b) == WORDS.xor(b, a)
  {
    XorLaws(a, b, b);
  }

  lemma {:induction false} Associates(a: bv32, b: bv32, c: bv32)
    ensures WORDS.xor(WORDS.xor(a, b), c) == WORDS.xor(a, WORDS.xor(b, c))
  {
    XorLaws(a, b, c);
  }

  lemma {:induction false} Units(a: bv32)
    ensures WORDS.xor(a, WORDS.zero) == a && WORDS.xor(a, a) == WORDS.zero
  {
    XorLaws(a, a, a);
  }

  lemma {:induction false} XorLaws(a: bv32, b: bv32, c: bv32)
    ensures a ^ b == b ^ a && (a ^ b) ^ c == a ^ (b ^ c) && a ^ 0 == a && a ^ a == 0
  {}

  lemma {:induction false} EvenEven(a: bv32, b: bv32)
    requires a & 1 == 0 && b & 1 == 0
    ensures BitStep(a ^ b) == BitStep(a) ^ BitStep(b)
  {}

  lemma {:induction false} OddEven(a: bv32, b: bv32)
    requires a & 1 == 1 && b & 1 == 0
    ensures BitStep(a ^ b) == BitStep(a) ^ BitStep(b)
    ensures BitStep(b ^ a) == BitStep(b) ^ BitStep(a)
  {}

  lemma {:induction false} OddOdd(a: bv32, b: bv32)
    requires a & 1 == 1 && b & 1 == 1
    ensures BitStep(a ^ b) == BitStep(a) ^ BitStep(b)
  {}

  lemma {:induction false} Parity(a: bv32)
    ensures a & 1 == 0 || a & 1 == 1
  {}

  lemma {:induction false} StepLinearAt(a: bv32, b: bv32)
    ensures BitStep(a ^ b) == BitStep(a) ^ BitStep(b)
  {
    Parity(a);
    Parity(b);
    if a & 1 == 0 {
      if b & 1 == 0 { EvenEven(a, b); } else { OddEven(b, a); }
    } else {
      if b & 1 == 0 { OddEven(a, b); } else { OddOdd(a, b); }
    }
  }

  ghost function LowBit(b: bv32): bv32 { b & 1 }
  ghost function Half(b: bv32): bv32 { b >> 1 }

  lemma {:induction false} EvenHalves(b: bv32)
    ensures BitStep((b & 1) ^ b) == b >> 1
  {}

  /** A step is linear, and only halves what has no low bit. */
  lemma {:induction false} StepIsRegister()
    ensures Linear(WORDS, BitStep) && Halves(WORDS, BitStep, LowBit, Half)
  {
    forall a, b ensures LinearAt(WORDS, BitStep, a, b) {
      StepLinear(a, b);
    }
    forall b ensures HalvesAt(WORDS, BitStep, LowBit, Half, b) {
      StepHalves(b);
    }
  }

  lemma {:induction false} StepLinear(a: bv32, b: bv32)
    ensures LinearAt(WORDS, BitStep, a, b)
  {
    StepLinearAt(a, b);
    assert WORDS.xor(a, b) == a ^ b;
  }

  lemma {:induction false} StepHalves(b: bv32)
    ensures HalvesAt(WORDS, BitStep, LowBit, Half, b)
  {
    EvenHalves(b);
    assert WORDS.xor(LowBit(b), b) == (b & 1) ^ b;
  }

  // ---------------------------------------------------------------- bytes

  /** The register after eight zero bits. */
  ghost function ByteStep(c: bv32): bv32 { Iterate(BitStep, c, 8) }

  ghost function LowByte(b: bv32): bv32 { b & 0xff }
  ghost function Byte8(b: bv32): bv32 { b >> 8 }

  lemma {:induction false} Unroll(f: bv32 -> bv32, c: bv32, n: nat)
    requires n == 8
    ensures Iterate(f, c, n) == f(f(f(f(f(f(f(f(c))))))))
  {
    var c2 := f(f(c));
    assert Iterate(f, c, n) == Iterate(f, c2, n - 2);
    var c4 := f(f(c2));
    assert Iterate(f, c2, n - 2) == Iterate(f, c4, n - 4);
    var c6 := f(f(c4));
    assert Iterate(f, c4, n - 4) == Iterate(f, c6, n - 6);
    var c8 := f(f(c6));
    assert Iterate(f, c6, n - 6) == Iterate(f, c8, n - 8);
  }

  lemma {:induction false} EightEvenSteps(x: bv32)
    ensures BitStep(BitStep(BitStep(BitStep(BitStep(BitStep(BitStep(BitStep((x & 0xff) ^ x)))))))) == x >> 8
  {}

  lemma {:induction false} ByteStepLinear(a: bv32, b: bv32)
    ensures LinearAt(WORDS, ByteStep, a, b)
  {
    StepIsRegister();
    IterateLinear(WORDS, BitStep, a, b, 8);
  }

  lemma {:induction false} ByteStepHalves(b: bv32)
    ensures HalvesAt(WORDS, ByteStep, LowByte, Byte8, b)
  {
    Unroll(BitStep, (b & 0xff) ^ b, 8);
    EightEvenSteps(b);
    assert WORDS.xor(LowByte(b), b) == (b & 0xff) ^ b;
  }

  /** A message's bytes as words. */
  ghost function Embed(data: bytes): (r: seq<bv32>)
    ensures |r| == |data|
  {
    seq(|data|, i requires 0 <= i < |data| => data[i] as bv32)
  }

  lemma {:induction false} FeedsAlike(c: bv32, b: bv32, n: nat)
    ensures FeedBits(c, b, n) == Feed(WORDS, BitStep, LowBit, Half, c, b, n)
    decreases n
  {
    if n > 0 {
      assert WORDS.xor(c, LowBit(b)) == c ^ (b & 1);
      FeedsAlike(BitStep(c ^ (b & 1)), b >> 1, n - 1);
    }
  }

  lemma {:induction false} ByteHasEightBits(b: bv32)
    requires b <= 0xff
    ensures Iterate(Half, b, 8) == 0
  {
    Unroll(Half, b, 8);
    assert b >> 8 == 0;
  }

  /** Feeding a byte's eight bits is xoring it in and stepping a byte. */
  lemma {:induction false} FeedByte(c: bv32, b: bv32)
    requires b <= 0xff
    ensures FeedBits(c, b, 8) == ByteStep(WORDS.xor(c, b))
  {
    WordLaws();
    StepIsRegister();
    ByteHasEightBits(b);
    FeedAtOnce(WORDS, BitStep, LowBit, Half, c, b, 8);
    FeedsAlike(c, b, 8);
  }

  lemma {:induction false} ByteAsWord(b: byte)
    ensures b as bv32 <= 0xff
  {}

  // ---------------------------------------------------------------- slice by eight

  /**
   Xor, the byte step, a word's low byte and the rest of it, its bytes by number, and the 256 words
   that are bytes, by name. The proofs about the tables need their laws (`ByteMapLaws`) and never their bits.
   */
  datatype ByteMap = ByteMap(
    g: Words<bv32>,
    step: bv32 -> bv32,
    low: bv32 -> bv32,
    half: bv32 -> bv32,
    lane: (bv32, nat) -> bv32,
    words: seq<bv32>)

  ghost predicate XorAt(m: ByteMap, a: bv32, b: bv32) { m.g.xor(a, b) == a ^ b }

  ghost predicate StepsAt(m: ByteMap, c: bv32) { m.step(c) == ByteStep(c) }

  ghost predicate PartsAt(m: ByteMap, b: bv32) { m.low(b) == b & 0xff && m.half(b) == b >> 8 }

  ghost function Lane(x: bv32, k: nat): bv32 {
    if k == 0 then x & 0xff
    else if k == 1 then (x >> 8) & 0xff
    else if k == 2 then (x >> 16) & 0xff
    else (x >> 24) & 0xff
  }

  ghost predicate LaneAt(m: ByteMap, x: bv32, k: nat) { m.lane(x, k) == Lane(x, k) }

  ghost predicate WordAt(m: ByteMap, i: nat)
    requires i < |m.words|
  {
    i < 256 && m.words[i] == i as bv32
  }

  ghost predicate IsByteMap(m: ByteMap) {
    && |m.words| == 256
    && m.g.zero == 0
    && (forall a, b :: XorAt(m, a, b))
    && (forall c :: StepsAt(m, c))
    && (forall b :: PartsAt(m, b))
    && (forall x, k: nat :: LaneAt(m, x, k))
    && (forall i: nat :: i < 256 ==> WordAt(m, i))
  }

  lemma {:induction false} ByteMapExists() returns (m: ByteMap)
    ensures IsByteMap(m)
    ensures m.g == WORDS && m.step == ByteStep
  {
    m := ByteMap(WORDS, ByteStep, LowByte, Byte8, Lane, seq(256, i requires 0 <= i < 256 => i as bv32));
    forall a, b ensures XorAt(m, a, b) {}
    forall c ensures StepsAt(m, c) {}
    forall b ensures PartsAt(m, b) {}
    forall x, k: nat ensures LaneAt(m, x, k) {}
    forall i: nat | i < 256 ensures WordAt(m, i) {}
  }

  lemma {:induction false} SameXor(m: ByteMap, a: bv32, b: bv32)
    requires IsByteMap(m)
    ensures m.g.xor(a, b) == WORDS.xor(a, b)
  {
    assert XorAt(m, a, b);
  }

  lemma {:induction false} ByteMapLawsAt(m: ByteMap, a: bv32, b: bv32, c: bv32)
    requires IsByteMap(m)
    ensures LawsAt(m.g, a, b, c)
  {
    WordLawsAt(a, b, c);
    SameXor(m, a, b);
    SameXor(m, b, a);
    SameXor(m, b, c);
    SameXor(m, WORDS.xor(a, b), c);
    SameXor(m, a, WORDS.xor(b, c));
    SameXor(m, a, 0);
    SameXor(m, a, a);
  }

  lemma {:induction false} ByteMapLinear(m: ByteMap, a: bv32, b: bv32)
    requires IsByteMap(m)
    ensures LinearAt(m.g, m.step, a, b)
  {
    ByteStepLinear(a, b);
    var c := WORDS.xor(a, b);
    assert StepsAt(m, a) && StepsAt(m, b) && StepsAt(m, c);
    SameXor(m, a, b);
    SameXor(m, m.step(a), m.step(b));
  }

  lemma {:induction false} ByteMapHalves(m: ByteMap, b: bv32)
    requires IsByteMap(m)
    ensures HalvesAt(m.g, m.step, m.low, m.half, b)
  {
    ByteStepHalves(b);
    var c := WORDS.xor(LowByte(b), b);
    assert StepsAt(m, c);
    SameXor(m, LowByte(b), b);
    assert PartsAt(m, b);
  }

  lemma {:induction false} ByteMapLaws(m: ByteMap)
    requires IsByteMap(m)
    ensures Laws(m.g) && Linear(m.g, m.step) && Halves(m.g, m.step, m.low, m.half)
  {
    forall a, b, c ensures LawsAt(m.g, a, b, c) {
      ByteMapLawsAt(m, a, b, c);
    }
    forall a, b ensures LinearAt(m.g, m.step, a, b) {
      ByteMapLinear(m, a, b);
    }
    forall b ensures HalvesAt(m.g, m.step, m.low, m.half, b) {
      ByteMapHalves(m, b);
    }
  }

  /** Table `j`'s entry for byte `i` is the byte stepped past `j + 1` bytes. */
  ghost predicate IsTables(m: ByteMap, t: array2<bv32>)
    reads t
  {
    && t.Length0 == 8 && t.Length1 == |m.words| == 256
    && forall j :: 0 <= j < 8 ==> RowIs(m, t, j)
  }

  lemma {:induction false} Once(f: bv32 -> bv32, c: bv32, k: nat)
    ensures Iterate(f, c, 1) == f(c)
    ensures Iterate(f, c, k + 1) == f(Iterate(f, c, k))
  {
    assert Iterate(f, f(c), 0) == f(c);
    var x := Iterate(f, c, k);
    assert Iterate(f, f(x), 0) == f(x);
    assert Iterate(f, x, 1) == f(x);
    IterateCompose(f, c, k, 1);
  }

  lemma {:induction false} ByteMask(b: bv32)
    ensures b & 0xff <= 0xff
  {}

  /** A byte as a table's index. */
  function Index(b: bv32): (i: nat)
    requires b <= 0xff
    ensures i < 256
  {
    b as int
  }

  lemma {:induction false} IndexIs(b: bv32)
    requires b <= 0xff
    ensures Index(b) as bv32 == b
  {}

  lemma {:induction false} WordOfIndex(m: ByteMap, b: bv32)
    requires IsByteMap(m) && b <= 0xff
    ensures m.words[Index(b)] == b
  {
    IndexIs(b);
    assert WordAt(m, Index(b));
  }

  /** The recurrence the tables after the first are built by. */
  lemma {:induction false} NextRow(m: ByteMap, prev: bv32)
    requires IsByteMap(m)
    ensures m.step(prev) == (prev >> 8) ^ m.step(prev & 0xff)
  {
    ByteMapLaws(m);
    StepByLow(m.g, m.step, m.low, m.half, prev);
    assert PartsAt(m, prev);
    assert XorAt(m, prev >> 8, m.step(prev & 0xff));
  }

  lemma {:induction false} EightSteps(m: ByteMap, c: bv32)
    requires IsByteMap(m)
    ensures Iterate(BitStep, c, 8) == m.step(c)
  {
    assert StepsAt(m, c);
  }

  /** A byte past eight bit steps. */
  method FirstEntry(ghost m: ByteMap, i: nat) returns (c: bv32)
    requires IsByteMap(m)
    requires i < 256
    ensures c == Iterate(m.step, m.words[i], 1)
  {
    c := i as bv32;
    var k := 0;
    while k < 8
      invariant 0 <= k <= 8
      invariant c == Iterate(BitStep, i as bv32, k)
    {
      Once(BitStep, i as bv32, k);
      c := if c & 1 != 0 then CASTAGNOLI ^ (c >> 1) else c >> 1;
      k := k + 1;
    }
    EightSteps(m, i as bv32);
    assert WordAt(m, i);
    Once(m.step, i as bv32, 0);
  }

  /** The next table's entry from this one's and the first table. */
  method NextEntry(ghost m: ByteMap, t: array2<bv32>, j: nat, i: nat) returns (c: bv32)
    requires IsByteMap(m)
    requires 1 <= j < t.Length0 && t.Length1 == 256 && i < 256
    requires forall l :: 0 <= l < 256 ==> t[0, l] == Iterate(m.step, m.words[l], 1)
    requires t[j - 1, i] == Iterate(m.step, m.words[i], j)
    ensures c == Iterate(m.step, m.words[i], j + 1)
  {
    var prev := t[j - 1, i];
    var low := prev & 0xff;
    ByteMask(prev);
    WordOfIndex(m, low);
    Once(m.step, low, 0);
    NextRow(m, prev);
    Once(m.step, m.words[i], j);
    assert t[0, Index(low)] == m.step(low);
    c := (prev >> 8) ^ t[0, Index(low)];
  }

  ghost predicate RowIs(m: ByteMap, t: array2<bv32>, j: nat)
    requires |m.words| == 256
    reads t
  {
    && t.Length0 == 8 && t.Length1 == 256 && j < 8
    && forall i :: 0 <= i < 256 ==> t[j, i] == Iterate(m.step, m.words[i], j + 1)
  }

  /** The first table. */
  method FirstTable(ghost m: ByteMap, t: array2<bv32>)
    requires IsByteMap(m)
    requires t.Length0 == 8 && t.Length1 == 256
    modifies t
    ensures RowIs(m, t, 0)
  {
    var i := 0;
    while i < 256
      invariant 0 <= i <= 256
      invariant forall l :: 0 <= l < i ==> t[0, l] == Iterate(m.step, m.words[l], 1)
    {
      var c := FirstEntry(m, i);
      t[0, i] := c;
      i := i + 1;
    }
  }

  /** A table from the one before it and the first. */
  method NextTable(ghost m: ByteMap, t: array2<bv32>, j: nat)
    requires IsByteMap(m)
    requires 1 <= j < 8 && RowIs(m, t, 0) && RowIs(m, t, j - 1)
    modifies t
    ensures RowIs(m, t, j)
    ensures forall k :: 0 <= k < j && old(RowIs(m, t, k)) ==> RowIs(m, t, k)
  {
    var i := 0;
    while i < 256
      invariant 0 <= i <= 256
      invariant forall k, l :: 0 <= k < j && 0 <= l < 256 ==> t[k, l] == old(t[k, l])
      invariant RowIs(m, t, 0) && RowIs(m, t, j - 1)
      invariant forall l :: 0 <= l < i ==> t[j, l] == Iterate(m.step, m.words[l], j + 1)
    {
      assert t[j - 1, i] == Iterate(m.step, m.words[i], j);
      var c := NextEntry(m, t, j, i);
      t[j, i] := c;
      i := i + 1;
    }
  }

  /** The eight tables. */
  method BuildCrcTables(ghost m: ByteMap) returns (t: array2<bv32>)
    requires IsByteMap(m)
    ensures IsTables(m, t)
  {
    t := new bv32[8, 256];
    FirstTable(m, t);
    var j := 1;
    while j < 8
      invariant 1 <= j <= 8
      invariant forall k :: 0 <= k < j ==> RowIs(m, t, k)
    {
      NextTable(m, t, j);
      j := j + 1;
    }
  }

  // ---------------------------------------------------------------- the loop

  lemma {:induction false} RegisterRunsOut(m: ByteMap, c: bv32)
    requires IsByteMap(m)
    ensures m.half(m.half(m.half(m.half(c)))) == m.g.zero
    ensures m.half(m.g.zero) == m.g.zero && m.low(m.g.zero) == m.g.zero
  {
    var c1, c2, c3 := c >> 8, (c >> 8) >> 8, ((c >> 8) >> 8) >> 8;
    assert PartsAt(m, c) && PartsAt(m, c1) && PartsAt(m, c2) && PartsAt(m, c3) && PartsAt(m, 0);
  }

  /** Four bytes as one little-endian word. */
  function Word(b0: bv32, b1: bv32, b2: bv32, b3: bv32): bv32 {
    b0 | (b1 << 8) | (b2 << 16) | (b3 << 24)
  }

  /** The lanes of a word with a register xored in are its bytes with the register's parts xored in. */
  lemma {:induction false} Lane0(m: ByteMap, b0: bv32, b1: bv32, b2: bv32, b3: bv32, c: bv32)
    requires IsByteMap(m) && b0 <= 0xff
    ensures m.lane(Word(b0, b1, b2, b3) ^ c, 0) == m.g.xor(m.low(c), b0)
  {
    var x := Word(b0, b1, b2, b3) ^ c;
    assert LaneAt(m, x, 0) && PartsAt(m, c) && XorAt(m, c & 0xff, b0);
  }

  lemma {:induction false} Lane1(m: ByteMap, b0: bv32, b1: bv32, b2: bv32, b3: bv32, c: bv32)
    requires IsByteMap(m) && b0 <= 0xff && b1 <= 0xff
    ensures m.lane(Word(b0, b1, b2, b3) ^ c, 1) == m.g.xor(m.low(m.half(c)), b1)
  {
    var x := Word(b0, b1, b2, b3) ^ c;
    assert LaneAt(m, x, 1) && PartsAt(m, c) && PartsAt(m, c >> 8) && XorAt(m, (c >> 8) & 0xff, b1);
  }

  lemma {:induction false} Bits2(b0: bv32, b1: bv32, b2: bv32, b3: bv32, c: bv32)
    requires b0 <= 0xff && b1 <= 0xff && b2 <= 0xff
    ensures Lane(Word(b0, b1, b2, b3) ^ c, 2) == (((c >> 8) >> 8) & 0xff) ^ b2
  {}

  lemma {:induction false} Bits3(b0: bv32, b1: bv32, b2: bv32, b3: bv32, c: bv32)
    requires b0 <= 0xff && b1 <= 0xff && b2 <= 0xff && b3 <= 0xff
    ensures Lane(Word(b0, b1, b2, b3) ^ c, 3) == ((((c >> 8) >> 8) >> 8) & 0xff) ^ b3
  {}

  lemma {:induction false} HalfTwice(m: ByteMap, c: bv32)
    requires IsByteMap(m)
    ensures m.half(m.half(c)) == (c >> 8) >> 8
    ensures m.half(m.half(m.half(c))) == ((c >> 8) >> 8) >> 8
  {
    assert PartsAt(m, c) && PartsAt(m, c >> 8) && PartsAt(m, (c >> 8) >> 8);
  }

  lemma {:induction false} PartXor(m: ByteMap, c: bv32, b: bv32)
    requires IsByteMap(m)
    ensures m.g.xor(m.low(c), b) == (c & 0xff) ^ b
  {
    assert PartsAt(m, c) && XorAt(m, c & 0xff, b);
  }

  lemma {:induction false} LaneIs(m: ByteMap, x: bv32, k: nat)
    requires IsByteMap(m)
    ensures m.lane(x, k) == Lane(x, k)
  {
    assert LaneAt(m, x, k);
  }

  lemma {:induction false} Lane2(m: ByteMap, b0: bv32, b1: bv32, b2: bv32, b3: bv32, c: bv32)
    requires IsByteMap(m) && b0 <= 0xff && b1 <= 0xff && b2 <= 0xff
    ensures m.lane(Word(b0, b1, b2, b3) ^ c, 2) == m.g.xor(m.low(m.half(m.half(c))), b2)
  {
    HalfTwice(m, c);
    PartXor(m, (c >> 8) >> 8, b2);
    LaneIs(m, Word(b0, b1, b2, b3) ^ c, 2);
    Bits2(b0, b1, b2, b3, c);
  }

  lemma {:induction false} Lane3(m: ByteMap, b0: bv32, b1: bv32, b2: bv32, b3: bv32, c: bv32)
    requires IsByteMap(m) && b0 <= 0xff && b1 <= 0xff && b2 <= 0xff && b3 <= 0xff
    ensures m.lane(Word(b0, b1, b2, b3) ^ c, 3) == m.g.xor(m.low(m.half(m.half(m.half(c)))), b3)
  {
    HalfTwice(m, c);
    PartXor(m, ((c >> 8) >> 8) >> 8, b3);
    LaneIs(m, Word(b0, b1, b2, b3) ^ c, 3);
    Bits3(b0, b1, b2, b3, c);
  }

  lemma {:induction false} PlainLanes(m: ByteMap, b0: bv32, b1: bv32, b2: bv32, b3: bv32)
    requires IsByteMap(m) && b0 <= 0xff && b1 <= 0xff && b2 <= 0xff && b3 <= 0xff
    ensures var x := Word(b0, b1, b2, b3);
      m.lane(x, 0) == b0 && m.lane(x, 1) == b1 && m.lane(x, 2) == b2 && m.lane(x, 3) == b3
  {
    var x := Word(b0, b1, b2, b3);
    assert LaneAt(m, x, 0) && LaneAt(m, x, 1) && LaneAt(m, x, 2) && LaneAt(m, x, 3);
  }

  lemma {:induction false} LowLanes(m: ByteMap, b0: bv32, b1: bv32, b2: bv32, b3: bv32, c: bv32, lo: bv32)
    requires IsByteMap(m) && b0 <= 0xff && b1 <= 0xff && b2 <= 0xff && b3 <= 0xff
    requires lo == Word(b0, b1, b2, b3) ^ c
    ensures m.lane(lo, 0) == m.g.xor(m.low(c), b0)
    ensures m.lane(lo, 1) == m.g.xor(m.low(m.half(c)), b1)
    ensures m.lane(lo, 2) == m.g.xor(m.low(m.half(m.half(c))), b2)
    ensures m.lane(lo, 3) == m.g.xor(m.low(m.half(m.half(m.half(c)))), b3)
  {
    Lane0(m, b0, b1, b2, b3, c);
    Lane1(m, b0, b1, b2, b3, c);
    Lane2(m, b0, b1, b2, b3, c);
    Lane3(m, b0, b1, b2, b3, c);
  }

  /** One lookup: table `j` at a byte. */
  method Lookup(ghost m: ByteMap, t: array2<bv32>, j: nat, b: bv32) returns (c: bv32)
    requires IsByteMap(m) && IsTables(m, t)
    requires j < 8 && b <= 0xff
    ensures c == Iterate(m.step, b, j + 1)
  {
    WordOfIndex(m, b);
    assert RowIs(m, t, j);
    c := t[j, Index(b)];
  }

  /** The lookups of a word's four lanes, in the tables from `j` down. */
  method FourLookups(ghost m: ByteMap, t: array2<bv32>, j: nat, x: bv32)
    returns (c0: bv32, c1: bv32, c2: bv32, c3: bv32)
    requires IsByteMap(m) && IsTables(m, t)
    requires 3 <= j < 8
    ensures c0 == Iterate(m.step, m.lane(x, 0), j + 1) && c1 == Iterate(m.step, m.lane(x, 1), j)
    ensures c2 == Iterate(m.step, m.lane(x, 2), j - 1) && c3 == Iterate(m.step, m.lane(x, 3), j - 2)
  {
    LaneIs(m, x, 0);
    LaneIs(m, x, 1);
    LaneIs(m, x, 2);
    LaneIs(m, x, 3);
    c0 := Lookup(m, t, j, x & 0xff);
    c1 := Lookup(m, t, j - 1, (x >> 8) & 0xff);
    c2 := Lookup(m, t, j - 2, (x >> 16) & 0xff);
    c3 := Lookup(m, t, j - 3, (x >> 24) & 0xff);
  }

  lemma {:induction false} XorOfFour(m: ByteMap, a: bv32, b: bv32, c: bv32, d: bv32)
    requires IsByteMap(m)
    ensures m.g.xor(m.g.xor(m.g.xor(a, b), c), d) == a ^ b ^ c ^ d
  {
    assert XorAt(m, a, b) && XorAt(m, a ^ b, c) && XorAt(m, a ^ b ^ c, d);
  }

  /** The four lookups of the low word, the register xored in. */
  method LowWord(ghost m: ByteMap, t: array2<bv32>, c: bv32, b0: bv32, b1: bv32, b2: bv32, b3: bv32)
    returns (r: bv32)
    requires IsByteMap(m) && IsTables(m, t)
    requires b0 <= 0xff && b1 <= 0xff && b2 <= 0xff && b3 <= 0xff
    ensures r == Four(m.g, m.step, m.g.xor(m.low(c), b0), m.g.xor(m.low(m.half(c)), b1),
      m.g.xor(m.low(m.half(m.half(c))), b2), m.g.xor(m.low(m.half(m.half(m.half(c)))), b3), 8)
  {
    var lo := Word(b0, b1, b2, b3) ^ c;
    LowLanes(m, b0, b1, b2, b3, c, lo);
    var c7, c6, c5, c4 := FourLookups(m, t, 7, lo);
    XorOfFour(m, c7, c6, c5, c4);
    r := c7 ^ c6 ^ c5 ^ c4;
  }

  lemma {:induction false} XorOntoFour(m: ByteMap, r: bv32, a: bv32, b: bv32, c: bv32, d: bv32)
    requires IsByteMap(m)
    ensures m.g.xor(m.g.xor(m.g.xor(m.g.xor(r, a), b), c), d) == r ^ a ^ b ^ c ^ d
  {
    XorOfFour(m, r, a, b, c);
    assert XorAt(m, r ^ a ^ b ^ c, d);
  }

  /** The four lookups of the high word, onto the low word's. */
  method HighWord(ghost m: ByteMap, t: array2<bv32>, acc: bv32, b0: bv32, b1: bv32, b2: bv32, b3: bv32)
    returns (r: bv32)
    requires IsByteMap(m) && IsTables(m, t)
    requires b0 <= 0xff && b1 <= 0xff && b2 <= 0xff && b3 <= 0xff
    ensures r == FourOnto(m.g, m.step, acc, b0, b1, b2, b3, 4)
  {
    var hi := Word(b0, b1, b2, b3);
    PlainLanes(m, b0, b1, b2, b3);
    var c3, c2, c1, c0 := FourLookups(m, t, 3, hi);
    XorOntoFour(m, acc, c3, c2, c1, c0);
    r := acc ^ c3 ^ c2 ^ c1 ^ c0;
  }

  lemma {:induction false} WordOfByte(b: byte)
    ensures b as bv32 <= 0xff
  {}

  /** Eight bytes run over the register are eight lookups. */
  lemma {:induction false} EightLookups(m: ByteMap, c: bv32, w: seq<bv32>)
    requires IsByteMap(m) && |w| == 8
    ensures Run(m.g, m.step, c, w) ==
      FourOnto(m.g, m.step,
        Four(m.g, m.step, m.g.xor(m.low(c), w[0]), m.g.xor(m.low(m.half(c)), w[1]),
          m.g.xor(m.low(m.half(m.half(c))), w[2]), m.g.xor(m.low(m.half(m.half(m.half(c)))), w[3]), 8),
        w[4], w[5], w[6], w[7], 4)
  {
    ByteMapLaws(m);
    RegisterRunsOut(m, c);
    EightWords(m.g, m.step, m.low, m.half, c, w);
  }

  lemma {:induction false} BytesEmbed(b: bytes)
    requires |b| == 8
    ensures |Embed(b)| == 8 && forall i :: 0 <= i < 8 ==> Embed(b)[i] == b[i] as bv32 && b[i] as bv32 <= 0xff
  {
    forall i | 0 <= i < 8 ensures b[i] as bv32 <= 0xff { WordOfByte(b[i]); }
  }

  /** One round of the slice-by-8 loop. */
  method Round(ghost m: ByteMap, t: array2<bv32>, init: bv32, b: bytes) returns (c: bv32)
    requires IsByteMap(m) && IsTables(m, t)
    requires |b| == 8
    ensures c == Run(m.g, m.step, init, Embed(b))
  {
    EightLookups(m, init, Embed(b));
    BytesEmbed(b);
    var lo := LowWord(m, t, init, b[0] as bv32, b[1] as bv32, b[2] as bv32, b[3] as bv32);
    c := HighWord(m, t, lo, b[4] as bv32, b[5] as bv32, b[6] as bv32, b[7] as bv32);
  }

  lemma {:induction false} MapRuns(m: ByteMap, c: bv32, data: bytes)
    requires IsByteMap(m)
    ensures Register(c, data) == Run(m.g, m.step, c, Embed(data))
    decreases |data|
  {
    if data != [] {
      var b := data[0] as bv32;
      ByteAsWord(data[0]);
      FeedByte(c, b);
      SameXor(m, c, b);
      assert StepsAt(m, WORDS.xor(c, b));
      MapRuns(m, FeedBits(c, b, 8), data[1..]);
      assert Embed(data)[1..] == Embed(data[1..]);
    }
  }

  lemma {:induction false} TailParts(m: ByteMap, init: bv32, b: bv32)
    requires IsByteMap(m) && b <= 0xff
    ensures m.low(m.g.xor(init, b)) == (init ^ b) & 0xff
    ensures m.half(m.g.xor(init, b)) == init >> 8
  {
    assert XorAt(m, init, b) && PartsAt(m, init ^ b);
  }

  lemma {:induction false} TailValue(m: ByteMap, p: bv32, y: bv32)
    requires IsByteMap(m)
    requires y == m.step(m.low(p))
    ensures m.g.xor(y, m.half(p)) == m.step(p)
  {
    ByteMapLaws(m);
    StepByLow(m.g, m.step, m.low, m.half, p);
    assert LawsAt(m.g, m.half(p), y, y);
  }

  /** Xor, as the algebra names it. */
  method Xor(ghost m: ByteMap, a: bv32, b: bv32) returns (c: bv32)
    requires IsByteMap(m)
    ensures c == m.g.xor(a, b)
  {
    assert XorAt(m, a, b);
    c := a ^ b;
  }

  method TailLookup(ghost m: ByteMap, t: array2<bv32>, prev: bv32) returns (y: bv32)
    requires IsByteMap(m) && IsTables(m, t)
    ensures y == m.step(prev & 0xff)
  {
    ByteMask(prev);
    y := Lookup(m, t, 0, prev & 0xff);
    Once(m.step, prev & 0xff, 0);
  }

  /** One byte of the tail, by the first table. */
  method TailByte(ghost m: ByteMap, t: array2<bv32>, init: bv32, b: bv32) returns (c: bv32)
    requires IsByteMap(m) && IsTables(m, t)
    requires b <= 0xff
    ensures c == m.step(m.g.xor(init, b))
  {
    TailParts(m, init, b);
    var y := TailLookup(m, t, init ^ b);
    TailValue(m, m.g.xor(init, b), y);
    c := Xor(m, y, init >> 8);
  }

  lemma {:induction false} EmbedSlice(data: bytes, p: nat, q: nat)
    requires p <= q <= |data|
    ensures Embed(data[p..q]) == Embed(data)[p..q]
  {}

  /** A group run before the rest is the whole run. */
  lemma {:induction false} GroupStep(m: ByteMap, c: bv32, c': bv32, data: bytes, p: nat, q: nat)
    requires p <= q <= |data|
    requires c' == Run(m.g, m.step, c, Embed(data[p..q]))
    ensures Run(m.g, m.step, c', Embed(data)[q..]) == Run(m.g, m.step, c, Embed(data)[p..])
  {
    EmbedSlice(data, p, q);
    RunPart(m.g, m.step, c, c', Embed(data), p, q, Embed(data[p..q]));
  }

  /** The slice-by-8 loop: every whole group of eight bytes. */
  method RunGroups(ghost m: ByteMap, t: array2<bv32>, init: bv32, data: bytes) returns (c: bv32, p: nat)
    requires IsByteMap(m) && IsTables(m, t)
    ensures p <= |data| < p + 8
    ensures Run(m.g, m.step, c, Embed(data)[p..]) == Run(m.g, m.step, init, Embed(data))
  {
    c, p := init, 0;
    while p + 8 <= |data|
      invariant 0 <= p <= |data|
      invariant Run(m.g, m.step, c, Embed(data)[p..]) == Run(m.g, m.step, init, Embed(data))
    {
      ghost var before := c;
      c := Round(m, t, c, data[p..p + 8]);
      GroupStep(m, before, c, data, p, p + 8);
      p := p + 8;
    }
  }

  lemma {:induction false} FirstOf(m: ByteMap, c: bv32, data: bytes, p: nat)
    requires p < |data|
    ensures data[p] as bv32 <= 0xff
    ensures Run(m.g, m.step, c, Embed(data)[p..])
         == Run(m.g, m.step, m.step(m.g.xor(c, data[p] as bv32)), Embed(data)[p + 1..])
  {
    WordOfByte(data[p]);
    assert Embed(data)[p..][1..] == Embed(data)[p + 1..];
  }

  /** The bytewise tail. */
  method RunTail(ghost m: ByteMap, t: array2<bv32>, init: bv32, data: bytes, from: nat) returns (c: bv32)
    requires IsByteMap(m) && IsTables(m, t)
    requires from <= |data|
    ensures c == Run(m.g, m.step, init, Embed(data)[from..])
  {
    c := init;
    var p := from;
    while p < |data|
      invariant from <= p <= |data|
      invariant Run(m.g, m.step, c, Embed(data)[p..]) == Run(m.g, m.step, init, Embed(data)[from..])
    {
      FirstOf(m, c, data, p);
      c := TailByte(m, t, c, data[p] as bv32);
      p := p + 1;
    }
  }

  /** Slice-by-8: the definition, for every initial value and every length. */
  method Crc32Scalar(ghost m: ByteMap, t: array2<bv32>, init: bv32, data: bytes) returns (r: bv32)
    requires IsByteMap(m) && IsTables(m, t)
    ensures r == Register(init, data) ^ FINAL
  {
    var c, p := RunGroups(m, t, init, data);
    c := RunTail(m, t, c, data, p);
    MapRuns(m, init, data);
    r := c ^ FINAL;
  }

  // ---------------------------------------------------------------- resume and combine

  lemma {:induction false} RegisterAppend(c: bv32, a: bytes, b: bytes)
    ensures Register(c, a + b) == Register(Register(c, a), b)
    decreases |a|
  {
    if a == [] {
      assert a + b == b;
    } else {
      assert (a + b)[1..] == a[1..] + b;
      RegisterAppend(FeedBits(c, a[0] as bv32, 8), a[1..], b);
    }
  }

  /** A finished checksum taken up again over more bytes. */
  method Crc32Resume(ghost m: ByteMap, t: array2<bv32>, prev: bv32, data: bytes) returns (r: bv32)
    requires IsByteMap(m) && IsTables(m, t)
    ensures r == Register(prev ^ FINAL, data) ^ FINAL
  {
    r := Crc32Scalar(m, t, prev ^ FINAL, data);
  }

  ghost predicate FinishesAt(crc: bytes -> bv32, final: bv32, data: bytes) {
    crc(data) == Register(final, data) ^ final
  }

  lemma {:induction false} Unfinish(finished: bv32, c: bv32, final: bv32)
    requires finished == c ^ final
    ensures finished ^ final == c
  {}

  lemma {:induction false} ResumedAs(final: bv32, a: bytes, b: bytes, ca: bv32, cab: bv32)
    requires ca == Register(final, a) ^ final
    requires cab == Register(final, a + b) ^ final
    ensures Register(ca ^ final, b) ^ final == cab
  {
    Unfinish(ca, Register(final, a), final);
    RegisterAppend(final, a, b);
  }

  /** Resuming the checksum of `a` over `b` gives the checksum of `a` then `b`. */
  ghost predicate Resumes(crc: bytes -> bv32, final: bv32, a: bytes, b: bytes) {
    Register(crc(a) ^ final, b) ^ final == crc(a + b)
  }

  lemma {:induction false} ResumedBy(crc: bytes -> bv32, final: bv32, a: bytes, b: bytes)
    requires FinishesAt(crc, final, a) && FinishesAt(crc, final, a + b)
    ensures Resumes(crc, final, a, b)
  {
    ResumedAs(final, a, b, crc(a), crc(a + b));
  }

  lemma {:induction false} Crc32Finishes(data: bytes)
    ensures FinishesAt(Crc32, FINAL, data)
  {}

  /** A finished checksum resumes: from the checksum of `a`, the checksum of `a` then `b`. */
  lemma {:induction false} Resumed(a: bytes, b: bytes)
    ensures Resumes(Crc32, FINAL, a, b)
  {
    Crc32Finishes(a);
    Crc32Finishes(a + b);
    ResumedBy(Crc32, FINAL, a, b);
  }
}
