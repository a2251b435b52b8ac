/** The checksum of a concatenation from the checksums of its parts: `crc32_combine`. */
module CrcCombine {
  import opened Bytes
  import opened Gf2
  import opened Gf2Bits
  import opened Crc

  // ---------------------------------------------------------------- bits by name

  /** Xor, the shape of a 32-bit word and the bit step, by name, as `ByteMap` is for bytes. */
  datatype BitMap = BitMap(g: Words<bv32>, s: Shape<bv32>, step: bv32 -> bv32)

  ghost predicate XorIsAt(b: BitMap, x: bv32, y: bv32) { b.g.xor(x, y) == x ^ y }

  ghost predicate ShapeAt(b: BitMap, v: bv32) {
    && b.s.odd(v) == (v & 1 != 0)
    && b.s.half(v) == v >> 1
    && b.s.double(v) == v << 1
    && b.s.single(v) == (v != 0 && v & (v - 1) == 0)
  }

  ghost predicate BitStepAt(b: BitMap, v: bv32) { b.step(v) == BitStep(v) }

  ghost predicate IsBitMap(b: BitMap) {
    && b.g.zero == 0 && b.s.one == 1
    && (forall x, y :: XorIsAt(b, x, y))
    && (forall v :: ShapeAt(b, v))
    && (forall v :: BitStepAt(b, v))
  }

  ghost function Odd(v: bv32): bool { v & 1 != 0 }
  ghost function Double(v: bv32): bv32 { v << 1 }
  ghost function Single(v: bv32): bool { v != 0 && v & (v - 1) == 0 }

  lemma {:induction false} BitMapExists() returns (b: BitMap)
    ensures IsBitMap(b) && b.g == WORDS && b.step == BitStep
  {
    b := BitMap(WORDS, Shape(Odd, Half, Double, 1, Single), BitStep);
    forall x, y ensures XorIsAt(b, x, y) {}
    forall v ensures ShapeAt(b, v) {}
    forall v ensures BitStepAt(b, v) {}
  }

  lemma {:induction false} SameXorBits(b: BitMap, x: bv32, y: bv32)
    requires IsBitMap(b)
    ensures b.g.xor(x, y) == WORDS.xor(x, y)
  {
    assert XorIsAt(b, x, y);
  }

  lemma {:induction false} LawsOfBits(b: BitMap, x: bv32, y: bv32, z: bv32)
    requires IsBitMap(b)
    ensures LawsAt(b.g, x, y, z)
  {
    WordLawsAt(x, y, z);
    SameXorBits(b, x, y);
    SameXorBits(b, y, x);
    SameXorBits(b, y, z);
    SameXorBits(b, WORDS.xor(x, y), z);
    SameXorBits(b, x, WORDS.xor(y, z));
    SameXorBits(b, x, 0);
    SameXorBits(b, x, x);
  }

  lemma {:induction false} StepOf(b: BitMap, v: bv32)
    requires IsBitMap(b)
    ensures b.step(v) == BitStep(v)
  {
    assert BitStepAt(b, v);
  }

  lemma {:induction false} StepLinearOfBits(b: BitMap, x: bv32, y: bv32)
    requires IsBitMap(b)
    ensures LinearAt(b.g, b.step, x, y)
  {
    StepLinear(x, y);
    SameXorBits(b, x, y);
    SameXorBits(b, BitStep(x), BitStep(y));
    StepOf(b, x);
    StepOf(b, y);
    StepOf(b, WORDS.xor(x, y));
    LinearElsewhere(WORDS, BitStep, b.g, b.step, x, y);
  }

  lemma {:induction false} XorParity(x: bv32, y: bv32)
    ensures Odd(x ^ y) == (Odd(x) != Odd(y))
  {
    assert (x ^ y) & 1 == (x & 1) ^ (y & 1);
    Parity(x);
    Parity(y);
  }

  lemma {:induction false} XorHalf(x: bv32, y: bv32)
    ensures (x ^ y) >> 1 == (x >> 1) ^ (y >> 1)
  {}

  lemma {:induction false} XorDouble(x: bv32, y: bv32)
    ensures (x ^ y) << 1 == (x << 1) ^ (y << 1)
  {}

  lemma {:induction false} OddOf(b: BitMap, v: bv32)
    requires IsBitMap(b)
    ensures b.s.odd(v) == Odd(v)
  {
    assert ShapeAt(b, v);
  }

  lemma {:induction false} HalfOf(b: BitMap, v: bv32)
    requires IsBitMap(b)
    ensures b.s.half(v) == v >> 1
  {
    assert ShapeAt(b, v);
  }

  lemma {:induction false} DoubleOf(b: BitMap, v: bv32)
    requires IsBitMap(b)
    ensures b.s.double(v) == v << 1
  {
    assert ShapeAt(b, v);
  }

  lemma {:induction false} XorOf(b: BitMap, x: bv32, y: bv32)
    requires IsBitMap(b)
    ensures b.g.xor(x, y) == x ^ y
  {
    assert XorIsAt(b, x, y);
  }

  lemma {:induction false} OddSplits(b: BitMap, x: bv32, y: bv32)
    requires IsBitMap(b)
    ensures b.s.odd(b.g.xor(x, y)) == (b.s.odd(x) != b.s.odd(y))
  {
    XorOf(b, x, y);
    OddOf(b, x);
    OddOf(b, y);
    OddOf(b, x ^ y);
    XorParity(x, y);
  }

  lemma {:induction false} HalfSplits(b: BitMap, x: bv32, y: bv32)
    requires IsBitMap(b)
    ensures b.s.half(b.g.xor(x, y)) == b.g.xor(b.s.half(x), b.s.half(y))
  {
    XorOf(b, x, y);
    HalfOf(b, x);
    HalfOf(b, y);
    HalfOf(b, x ^ y);
    XorOf(b, x >> 1, y >> 1);
    XorHalf(x, y);
  }

  lemma {:induction false} DoubleSplits(b: BitMap, x: bv32, y: bv32)
    requires IsBitMap(b)
    ensures LinearAt(b.g, b.s.double, x, y)
  {
    XorOf(b, x, y);
    DoubleOf(b, x);
    DoubleOf(b, y);
    DoubleOf(b, x ^ y);
    XorOf(b, x << 1, y << 1);
    XorDouble(x, y);
  }

  lemma {:induction false} RebuiltOdd(v: bv32)
    requires v & 1 != 0
    ensures 1 ^ ((v >> 1) << 1) == v
  {}

  lemma {:induction false} RebuiltEven(v: bv32)
    requires v & 1 == 0
    ensures 0 ^ ((v >> 1) << 1) == v
  {}

  lemma {:induction false} RestOf(b: BitMap, v: bv32)
    requires IsBitMap(b)
    ensures b.s.double(b.s.half(v)) == (v >> 1) << 1
  {
    HalfOf(b, v);
    DoubleOf(b, v >> 1);
  }

  lemma {:induction false} RebuildsOddOf(b: BitMap, v: bv32)
    requires IsBitMap(b) && Odd(v)
    ensures b.g.xor(1, (v >> 1) << 1) == v
  {
    RebuiltOdd(v);
    XorOf(b, 1, (v >> 1) << 1);
  }

  lemma {:induction false} RebuildsEvenOf(b: BitMap, v: bv32)
    requires IsBitMap(b) && !Odd(v)
    ensures b.g.xor(0, (v >> 1) << 1) == v
  {
    RebuiltEven(v);
    XorOf(b, 0, (v >> 1) << 1);
  }

  lemma {:induction false} RebuildsOf(b: BitMap, v: bv32)
    requires IsBitMap(b)
    ensures RebuildsAt(b.g, b.s, v)
  {
    RestOf(b, v);
    OddOf(b, v);
    if Odd(v) { RebuildsOddOf(b, v); } else { RebuildsEvenOf(b, v); }
  }

  lemma {:induction false} Twice(f: bv32 -> bv32, v: bv32, k: nat)
    ensures Iterate(f, v, 2 * k) == Iterate(f, Iterate(f, v, k), k)
  {
    IterateCompose(f, v, k, k);
  }

  lemma {:induction false} DoubleOnce(b: BitMap, v: bv32)
    requires IsBitMap(b)
    ensures Iterate(b.s.double, v, 1) == v << 1
  {
    Once(b.s.double, v, 0);
    DoubleOf(b, v);
  }

  lemma {:induction false} DoubleTimes(b: BitMap, v: bv32)
    requires IsBitMap(b)
    ensures Iterate(b.s.double, v, 2) == v << 2
  {
    DoubleOnce(b, v);
    DoubleOnce(b, v << 1);
    Twice(b.s.double, v, 1);
  }

  lemma {:induction false} DoubleFour(b: BitMap, v: bv32)
    requires IsBitMap(b)
    ensures Iterate(b.s.double, v, 4) == v << 4
  {
    DoubleTimes(b, v);
    DoubleTimes(b, v << 2);
    Twice(b.s.double, v, 2);
  }

  lemma {:induction false} DoubleEight(b: BitMap, v: bv32)
    requires IsBitMap(b)
    ensures Iterate(b.s.double, v, 8) == v << 8
  {
    DoubleFour(b, v);
    DoubleFour(b, v << 4);
    Twice(b.s.double, v, 4);
  }

  lemma {:induction false} DoubleSixteen(b: BitMap, v: bv32)
    requires IsBitMap(b)
    ensures Iterate(b.s.double, v, 16) == v << 16
  {
    DoubleEight(b, v);
    DoubleEight(b, v << 8);
    Twice(b.s.double, v, 8);
  }

  /** Moved up by its whole width, a word is gone. */
  lemma {:induction false} DoubleRunsOff(b: BitMap, v: bv32)
    requires IsBitMap(b)
    ensures RunsOffAt(b.g, b.s, v, 32)
  {
    DoubleSixteen(b, v);
    DoubleSixteen(b, v << 16);
    Twice(b.s.double, v, 16);
    assert (v << 16) << 16 == 0;
  }

  /** The lowest unit has 31 places to go. */
  lemma {:induction false} TopUnit(b: BitMap)
    requires IsBitMap(b)
    ensures Iterate(b.s.double, b.s.one, 31) != b.g.zero
  {
    var f := b.s.double;
    DoubleSixteen(b, 1);
    IterateCompose(f, 1, 16, 15);
    DoubleEight(b, 0x1_0000);
    IterateCompose(f, 0x1_0000, 8, 7);
    DoubleFour(b, 0x100_0000);
    IterateCompose(f, 0x100_0000, 4, 3);
    DoubleTimes(b, 0x1000_0000);
    IterateCompose(f, 0x1000_0000, 2, 1);
    DoubleOnce(b, 0x4000_0000);
  }

  lemma {:induction false} HalfOnce(b: BitMap, v: bv32)
    requires IsBitMap(b)
    ensures Iterate(b.s.half, v, 1) == v >> 1
  {
    Once(b.s.half, v, 0);
    HalfOf(b, v);
  }

  lemma {:induction false} HalfTimes(b: BitMap, v: bv32)
    requires IsBitMap(b)
    ensures Iterate(b.s.half, v, 2) == v >> 2
  {
    HalfOnce(b, v);
    HalfOnce(b, v >> 1);
    Twice(b.s.half, v, 1);
  }

  lemma {:induction false} HalfFour(b: BitMap, v: bv32)
    requires IsBitMap(b)
    ensures Iterate(b.s.half, v, 4) == v >> 4
  {
    HalfTimes(b, v);
    HalfTimes(b, v >> 2);
    Twice(b.s.half, v, 2);
  }

  lemma {:induction false} HalfEight(b: BitMap, v: bv32)
    requires IsBitMap(b)
    ensures Iterate(b.s.half, v, 8) == v >> 8
  {
    HalfFour(b, v);
    HalfFour(b, v >> 4);
    Twice(b.s.half, v, 4);
  }

  lemma {:induction false} HalfSixteen(b: BitMap, v: bv32)
    requires IsBitMap(b)
    ensures Iterate(b.s.half, v, 16) == v >> 16
  {
    HalfEight(b, v);
    HalfEight(b, v >> 8);
    Twice(b.s.half, v, 8);
  }

  /** A word has 32 bits. */
  lemma {:induction false} HalfRunsOut(b: BitMap, v: bv32)
    requires IsBitMap(b)
    ensures Iterate(b.s.half, v, 32) == b.g.zero
  {
    HalfSixteen(b, v);
    HalfSixteen(b, v >> 16);
    Twice(b.s.half, v, 16);
    assert (v >> 16) >> 16 == 0;
  }

  lemma {:induction false} SingleBits(v: bv32)
    requires Single(v) && v << 1 != 0
    ensures Single(v << 1) && BitStep(v << 1) == v
  {}

  lemma {:induction false} SingleOf(b: BitMap, v: bv32)
    requires IsBitMap(b)
    ensures b.s.single(v) == Single(v)
  {
    assert ShapeAt(b, v);
  }

  lemma {:induction false} SingleSteps(b: BitMap, v: bv32)
    requires IsBitMap(b)
    ensures SingleAt(b.g, b.s, b.step, v)
  {
    SingleOf(b, v);
    DoubleOf(b, v);
    SingleOf(b, v << 1);
    StepOf(b, v << 1);
    if Single(v) && v << 1 != 0 { SingleBits(v); }
  }

  /** The laws the matrices rest on. */
  lemma {:induction false} BitMapLaws(b: BitMap)
    requires IsBitMap(b)
    ensures Laws(b.g) && Linear(b.g, b.step) && Splits(b.g, b.s) && Rebuilds(b.g, b.s, 32)
  {
    forall x, y, z ensures LawsAt(b.g, x, y, z) { LawsOfBits(b, x, y, z); }
    forall x, y ensures LinearAt(b.g, b.step, x, y) { StepLinearOfBits(b, x, y); }
    forall x, y ensures SplitsAt(b.g, b.s, x, y) {
      OddSplits(b, x, y);
      HalfSplits(b, x, y);
    }
    forall x, y ensures LinearAt(b.g, b.s.double, x, y) { DoubleSplits(b, x, y); }
    forall v ensures RebuildsAt(b.g, b.s, v) { RebuildsOf(b, v); }
    forall v ensures RunsOffAt(b.g, b.s, v, 32) { DoubleRunsOff(b, v); }
  }

  // ---------------------------------------------------------------- matrices

  method XorWords(ghost b: BitMap, x: bv32, y: bv32) returns (z: bv32)
    requires IsBitMap(b)
    ensures z == b.g.xor(x, y)
  {
    XorOf(b, x, y);
    z := x ^ y;
  }

  method HalfWord(ghost b: BitMap, x: bv32) returns (z: bv32)
    requires IsBitMap(b)
    ensures z == b.s.half(x)
  {
    HalfOf(b, x);
    z := x >> 1;
  }

  method IsOdd(ghost b: BitMap, x: bv32) returns (z: bool)
    requires IsBitMap(b)
    ensures z == b.s.odd(x)
  {
    OddOf(b, x);
    z := x & 1 != 0;
  }

  /** A matrix applied to a word, a bit at a time, stopping when no bit is left. */
  method Gf2Times(ghost b: BitMap, mat: seq<bv32>, vec: bv32) returns (sum: bv32)
    requires IsBitMap(b) && |mat| == 32
    ensures sum == Apply(b.g, b.s, mat, vec)
  {
    BitMapLaws(b);
    HalfRunsOut(b, vec);
    sum := 0;
    var v, i := vec, 0;
    assert mat[0..] == mat;
    ghost var whole := Apply(b.g, b.s, mat, vec);
    assert LawsAt(b.g, b.g.zero, whole, whole) && LawsAt(b.g, whole, b.g.zero, whole);
    while v != 0
      invariant 0 <= i <= 32
      invariant Iterate(b.s.half, v, 32 - i) == b.g.zero
      invariant b.g.xor(sum, Apply(b.g, b.s, mat[i..], v)) == whole
      decreases 32 - i
    {
      ghost var before := sum;
      var odd := IsOdd(b, v);
      if odd {
        sum := XorWords(b, sum, mat[i]);
      }
      AccumulateStep(b.g, b.s, mat, v, i, before, sum);
      v := HalfWord(b, v);
      i := i + 1;
    }
    ApplyOfZero(b.g, b.s, mat[i..]);
    assert LawsAt(b.g, sum, sum, sum);
  }

  lemma {:induction false} SquareAt(b: BitMap, mat: seq<bv32>) returns (whole: seq<bv32>)
    ensures whole == Square(b.g, b.s, mat) && |whole| == |mat|
    ensures forall i :: 0 <= i < |mat| ==> whole[i] == Apply(b.g, b.s, mat, mat[i])
  {
    whole := Square(b.g, b.s, mat);
  }

  /** A matrix's square. */
  method Gf2Square(ghost b: BitMap, mat: seq<bv32>) returns (r: seq<bv32>)
    requires IsBitMap(b) && |mat| == 32
    ensures r == Square(b.g, b.s, mat)
  {
    ghost var whole := SquareAt(b, mat);
    var sq := new bv32[32];
    var n := 0;
    while n < 32
      invariant 0 <= n <= 32
      invariant forall i :: 0 <= i < n ==> sq[i] == whole[i]
    {
      var x := Gf2Times(b, mat, mat[n]);
      sq[n] := x;
      n := n + 1;
    }
    r := sq[..];
    assert r == whole;
  }

  /** The operator of one zero bit: the polynomial, then the units below each bit. */
  method OneBit(ghost b: BitMap) returns (r: seq<bv32>)
    requires IsBitMap(b)
    ensures |r| == 32 && IsSteps(b.s, b.step, r, 1)
  {
    var odd := new bv32[32];
    odd[0] := CASTAGNOLI;
    FirstUnit(b);
    var row: bv32 := 1;
    var i := 1;
    while i < 32
      invariant 1 <= i <= 32
      invariant row == Iterate(b.s.double, b.s.one, i - 1)
      invariant forall k :: 0 <= k < i ==> odd[k] == Iterate(b.step, Iterate(b.s.double, b.s.one, k), 1)
    {
      UnitOf(b, i);
      odd[i] := row;
      row := DoubleWord(b, row);
      Once(b.s.double, b.s.one, i - 1);
      i := i + 1;
    }
    r := odd[..];
  }

  method DoubleWord(ghost b: BitMap, x: bv32) returns (z: bv32)
    requires IsBitMap(b)
    ensures z == b.s.double(x)
  {
    DoubleOf(b, x);
    z := x << 1;
  }

  lemma {:induction false} FirstUnit(b: BitMap)
    requires IsBitMap(b)
    ensures Iterate(b.step, Iterate(b.s.double, b.s.one, 0), 1) == CASTAGNOLI
  {
    Once(b.step, 1, 0);
    StepOf(b, 1);
    assert BitStep(1) == CASTAGNOLI;
  }

  lemma {:induction false} ZeroDoubles(b: BitMap)
    requires IsBitMap(b)
    ensures b.s.double(b.g.zero) == b.g.zero && b.s.single(b.s.one)
  {
    DoubleOf(b, 0);
    SingleOf(b, 1);
  }

  lemma {:induction false} UnitOf(b: BitMap, i: nat)
    requires IsBitMap(b)
    requires 1 <= i < 32
    ensures Iterate(b.step, Iterate(b.s.double, b.s.one, i), 1) == Iterate(b.s.double, b.s.one, i - 1)
  {
    forall v ensures SingleAt(b.g, b.s, b.step, v) { SingleSteps(b, v); }
    TopUnit(b);
    ZeroDoubles(b);
    UnitSteps(b.g, b.s, b.step, 32, i);
    Once(b.step, Iterate(b.s.double, b.s.one, i), 0);
  }

  /** Operator `k` shifts a checksum past `2^k` zero bytes. */
  ghost predicate IsShifts(b: BitMap, shifts: seq<seq<bv32>>) {
    forall k :: 0 <= k < |shifts| ==> |shifts[k]| == 32 && IsSteps(b.s, b.step, shifts[k], 8 * Pow2(k))
  }

  /** The operator of twice as many zero bits. */
  method Twofold(ghost b: BitMap, mat: seq<bv32>, ghost n: nat) returns (r: seq<bv32>)
    requires IsBitMap(b)
    requires |mat| == 32 && IsSteps(b.s, b.step, mat, n)
    ensures |r| == 32 && IsSteps(b.s, b.step, r, 2 * n)
  {
    BitMapLaws(b);
    SquareSteps(b.g, b.s, b.step, mat, n);
    r := Gf2Square(b, mat);
  }

  /** One zero bit, squared three times to a byte, then once more for each power of two. */
  method ShiftMatrices(ghost b: BitMap) returns (out: seq<seq<bv32>>)
    requires IsBitMap(b)
    ensures |out| == 64 && IsShifts(b, out)
  {
    var odd := OneBit(b);
    var even := Twofold(b, odd, 1);
    var m := Twofold(b, even, 2);
    m := Twofold(b, m, 4);
    out := [];
    var k := 0;
    while k < 64
      invariant 0 <= k <= 64 && |out| == k
      invariant |m| == 32 && IsSteps(b.s, b.step, m, 8 * Pow2(k))
      invariant IsShifts(b, out)
    {
      out := out + [m];
      m := Twofold(b, m, 8 * Pow2(k));
      k := k + 1;
    }
  }

  // ---------------------------------------------------------------- combination

  lemma {:induction false} BytesAreBits(c: bv32, n: nat)
    ensures Iterate(ByteStep, c, n) == Iterate(BitStep, c, 8 * n)
    decreases n
  {
    if n > 0 {
      BytesAreBits(ByteStep(c), n - 1);
      IterateCompose(BitStep, c, 8, 8 * (n - 1));
    }
  }

  lemma {:induction false} StepsAlike(b: BitMap, c: bv32, n: nat)
    requires IsBitMap(b)
    ensures Iterate(b.step, c, n) == Iterate(BitStep, c, n)
    decreases n
  {
    if n > 0 {
      StepOf(b, c);
      StepsAlike(b, BitStep(c), n - 1);
    }
  }

  /** `n` at weight `2^k`. */
  function Weighed(n: nat, k: nat): nat { n * Pow2(k) }

  lemma {:induction false} Weigh(n: nat, k: nat)
    ensures Weighed(n, k) == Weighed(n / 2, k + 1) + (if n % 2 == 0 then 0 else Pow2(k))
    ensures n > 0 ==> Weighed(n, k) >= Pow2(k)
  {
    var p, h := Pow2(k), n / 2;
    assert n == 2 * h + n % 2;
    Distribute(h, n % 2, p);
  }

  lemma {:induction false} Distribute(h: nat, r: nat, p: nat)
    requires r < 2
    ensures (2 * h + r) * p == h * (2 * p) + r * p
    ensures r == 1 ==> r * p == p
    ensures h > 0 ==> h * (2 * p) >= p
  {}

  lemma {:induction false} LengthBound()
    ensures Pow2(64) == U64
  {
    PowSum(8, 8);
    PowSum(16, 16);
    PowSum(32, 32);
    assert Pow2(4) == 16 && Pow2(8) == 256;
  }

  /** A checksum shifted past `len` zero bytes, an operator for each bit of `len` that is set. */
  method ShiftPast(ghost b: BitMap, shifts: seq<seq<bv32>>, crc: bv32, len: nat) returns (c: bv32)
    requires IsBitMap(b)
    requires |shifts| == 64 && IsShifts(b, shifts) && len < U64
    ensures c == Iterate(b.step, crc, 8 * len)
  {
    BitMapLaws(b);
    LengthBound();
    c := crc;
    var n, k := len, 0;
    while n != 0
      invariant 0 <= k <= 64 && Weighed(n, k) <= len
      invariant Iterate(b.step, c, 8 * Weighed(n, k)) == Iterate(b.step, crc, 8 * len)
      decreases n
    {
      Weigh(n, k);
      if k == 64 { assert false; }
      if n % 2 != 0 {
        StepsApply(b.g, b.s, b.step, shifts[k], 8 * Pow2(k), c);
        IterateCompose(b.step, c, 8 * Pow2(k), 8 * Weighed(n / 2, k + 1));
        c := Gf2Times(b, shifts[k], c);
      }
      n := n / 2;
      k := k + 1;
    }
  }

  lemma {:induction false} Shifted(b: BitMap, m: ByteMap, c: bv32, n: nat)
    requires IsBitMap(b) && IsByteMap(m) && m.step == ByteStep
    ensures Iterate(b.step, c, 8 * n) == Iterate(m.step, c, n)
  {
    BytesAreBits(c, n);
    StepsAlike(b, c, 8 * n);
  }

  ghost predicate FinishesBy(m: ByteMap, final: bv32, crc: bytes -> bv32, data: bytes) {
    crc(data) == m.g.xor(Run(m.g, m.step, final, Embed(data)), final)
  }

  lemma {:induction false} Crc32By(m: ByteMap, data: bytes)
    requires IsByteMap(m)
    ensures FinishesBy(m, FINAL, Crc32, data)
  {
    MapRuns(m, FINAL, data);
    assert XorAt(m, Register(FINAL, data), FINAL);
  }

  /** The first checksum shifted past the second's message, xored with the second. */
  ghost predicate Combines(m: ByteMap, crc: bytes -> bv32, a: bytes, b: bytes) {
    m.g.xor(Iterate(m.step, crc(a), |b|), crc(b)) == crc(a + b)
  }

  lemma {:induction false} EmbedAppend(a: bytes, b: bytes)
    ensures Embed(a + b) == Embed(a) + Embed(b)
  {}

  lemma {:induction false} CombinedBy(m: ByteMap, final: bv32, crc: bytes -> bv32, a: bytes, b: bytes)
    requires IsByteMap(m)
    requires FinishesBy(m, final, crc, a) && FinishesBy(m, final, crc, b) && FinishesBy(m, final, crc, a + b)
    ensures Combines(m, crc, a, b)
  {
    ByteMapLaws(m);
    EmbedAppend(a, b);
    CombinedValues(m.g, m.step, final, Embed(a), Embed(b), Embed(a + b), crc(a), crc(b), crc(a + b));
  }

  /** The value of `crc32_combine`: shifted past the bits of `len2` zero bytes, xored. */
  ghost function CombineOf(b: BitMap, crc1: bv32, crc2: bv32, len2: nat): bv32 {
    if len2 == 0 then crc1 else b.g.xor(Iterate(b.step, crc1, 8 * len2), crc2)
  }

  /** `crc32_combine`, over the operators of the powers of two. */
  method Crc32Combine(ghost b: BitMap, shifts: seq<seq<bv32>>, crc1: bv32, crc2: bv32, len2: nat)
    returns (r: bv32)
    requires IsBitMap(b)
    requires |shifts| == 64 && IsShifts(b, shifts) && len2 < U64
    ensures r == CombineOf(b, crc1, crc2, len2)
  {
    if len2 == 0 {
      return crc1;
    }
    var c := ShiftPast(b, shifts, crc1, len2);
    r := XorWords(b, c, crc2);
  }

  lemma {:induction false} CombineAs(b: BitMap, m: ByteMap, crc: bytes -> bv32, x: bytes, y: bytes)
    requires IsBitMap(b) && IsByteMap(m) && m.step == ByteStep
    requires Combines(m, crc, x, y)
    ensures CombineOf(b, crc(x), crc(y), |y|) == crc(x + y)
  {
    if y == [] {
      assert x + y == x;
    } else {
      Shifted(b, m, crc(x), |y|);
      var c := Iterate(m.step, crc(x), |y|);
      SameXor(m, c, crc(y));
      SameXorBits(b, c, crc(y));
    }
  }

  /** The checksums of `x` and of `y` combine to the checksum of `x` then `y`. */
  lemma {:induction false} CombineLaw(b: BitMap, x: bytes, y: bytes)
    requires IsBitMap(b)
    ensures CombineOf(b, Crc32(x), Crc32(y), |y|) == Crc32(x + y)
  {
    var m := ByteMapExists();
    Crc32By(m, x);
    Crc32By(m, y);
    Crc32By(m, x + y);
    CombinedBy(m, FINAL, Crc32, x, y);
    CombineAs(b, m, Crc32, x, y);
  }

  /** A zero checksum is the empty input's, and combines to the other. */
  lemma {:induction false} CombineEmpty(b: BitMap, y: bytes)
    requires IsBitMap(b)
    ensures CombineOf(b, 0, Crc32(y), |y|) == Crc32(y)
  {
    CombineLaw(b, [], y);
    assert [] + y == y;
    assert Crc32([]) == 0;
  }
}
