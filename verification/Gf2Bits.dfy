/** Words as vectors of bits, and linear maps as the matrices of their images. */
module Gf2Bits {
  import opened Gf2

  /**
   How a word is taken apart: its low bit, the rest of it, a word moved up one bit, the lowest unit,
   and which words are a single bit.
   */
  datatype Shape<!W> = Shape(odd: W -> bool, half: W -> W, double: W -> W, one: W, single: W -> bool)

  /** The low `n` bits of a word, lowest first. */
  ghost function Bits<W>(s: Shape<W>, v: W, n: nat): (b: seq<bool>)
    ensures |b| == n
    decreases n
  {
    if n == 0 then [] else [s.odd(v)] + Bits(s, s.half(v), n - 1)
  }

  /** A matrix applied to a word. */
  ghost function Apply<W>(g: Words<W>, s: Shape<W>, m: seq<W>, v: W): W {
    Times(g, m, Bits(s, v, |m|))
  }

  ghost predicate SplitsAt<W>(g: Words<W>, s: Shape<W>, a: W, b: W) {
    && s.odd(g.xor(a, b)) == (s.odd(a) != s.odd(b))
    && s.half(g.xor(a, b)) == g.xor(s.half(a), s.half(b))
  }

  /** A word's bits are linear in it. */
  ghost predicate Splits<W(!new)>(g: Words<W>, s: Shape<W>) {
    forall a, b :: SplitsAt(g, s, a, b)
  }

  lemma {:induction false} BitsOfXor<W(!new)>(g: Words<W>, s: Shape<W>, a: W, b: W, n: nat)
    requires Splits(g, s)
    ensures Bits(s, g.xor(a, b), n) == BitsXor(Bits(s, a, n), Bits(s, b, n))
    decreases n
  {
    if n > 0 {
      assert SplitsAt(g, s, a, b);
      BitsOfXor(g, s, s.half(a), s.half(b), n - 1);
    }
  }

  /** Every matrix is a linear map of words. */
  lemma {:induction false} ApplyLinear<W(!new)>(g: Words<W>, s: Shape<W>, m: seq<W>)
    requires Laws(g) && Splits(g, s)
    ensures Linear(g, v => Apply(g, s, m, v))
  {
    var f := v => Apply(g, s, m, v);
    forall a, b ensures LinearAt(g, f, a, b) {
      BitsOfXor(g, s, a, b, |m|);
      TimesLinear(g, m, Bits(s, a, |m|), Bits(s, b, |m|));
    }
  }

  /** The matrix of a matrix's own columns is its square. */
  ghost function Square<W>(g: Words<W>, s: Shape<W>, m: seq<W>): (r: seq<W>)
    ensures |r| == |m|
  {
    Images(v => Apply(g, s, m, v), m)
  }

  /** Squaring a matrix is composing its map with itself, whatever the matrix. */
  lemma {:induction false} SquareComposes<W(!new)>(g: Words<W>, s: Shape<W>, m: seq<W>, v: W)
    requires Laws(g) && Splits(g, s)
    ensures Apply(g, s, Square(g, s, m), v) == Apply(g, s, m, Apply(g, s, m, v))
  {
    ApplyLinear(g, s, m);
    Through(g, u => Apply(g, s, m, u), m, Bits(s, v, |m|));
  }

  // ---------------------------------------------------------------- the matrix of a map

  /** The single-bit words, lowest first. */
  ghost function Units<W>(s: Shape<W>, n: nat): (u: seq<W>)
    ensures |u| == n
  {
    seq(n, i requires 0 <= i < n => Iterate(s.double, s.one, i))
  }

  ghost predicate RebuildsAt<W>(g: Words<W>, s: Shape<W>, v: W) {
    g.xor(if s.odd(v) then s.one else g.zero, s.double(s.half(v))) == v
  }

  /** A word is its low bit and the rest of it moved back up; doubling is linear and runs off at `n`. */
  ghost predicate Rebuilds<W(!new)>(g: Words<W>, s: Shape<W>, n: nat) {
    && Linear(g, s.double)
    && (forall v :: RebuildsAt(g, s, v))
    && (forall v :: RunsOffAt(g, s, v, n))
  }

  ghost predicate RunsOffAt<W>(g: Words<W>, s: Shape<W>, v: W, n: nat) {
    Iterate(s.double, v, n) == g.zero
  }

  lemma {:induction false} BasisFrom<W(!new)>(g: Words<W>, s: Shape<W>, n: nat, v: W, i: nat)
    requires Laws(g) && Rebuilds(g, s, n)
    requires i <= n
    ensures Times(g, Units(s, n)[i..], Bits(s, v, n - i)) == Iterate(s.double, v, i)
    decreases n - i
  {
    if i == n {
      assert RunsOffAt(g, s, v, n);
    } else {
      var u, h := Units(s, n), s.half(v);
      BasisFrom(g, s, n, h, i + 1);
      assert u[i..][1..] == u[i + 1..];
      assert RebuildsAt(g, s, v);
      IterateLinear(g, s.double, if s.odd(v) then s.one else g.zero, s.double(h), i);
      IterateOfZero(g, s.double, i);
      assert Iterate(s.double, h, i + 1) == Iterate(s.double, s.double(h), i);
    }
  }

  /** The images of the units are the matrix of a linear map. */
  lemma {:induction false} MatrixOf<W(!new)>(g: Words<W>, s: Shape<W>, f: W -> W, n: nat, v: W)
    requires Laws(g) && Rebuilds(g, s, n) && Linear(g, f)
    ensures Apply(g, s, Images(f, Units(s, n)), v) == f(v)
  {
    BasisFrom(g, s, n, v, 0);
    assert Units(s, n)[0..] == Units(s, n);
    Through(g, f, Units(s, n), Bits(s, v, n));
  }

  // ---------------------------------------------------------------- units under a step

  ghost predicate SingleAt<W>(g: Words<W>, s: Shape<W>, f: W -> W, v: W) {
    s.single(v) && s.double(v) != g.zero ==> s.single(s.double(v)) && f(s.double(v)) == v
  }

  lemma {:induction false} UnitSteps<W(!new)>(g: Words<W>, s: Shape<W>, f: W -> W, n: nat, i: nat)
    requires s.double(g.zero) == g.zero
    requires s.single(s.one) && forall v :: SingleAt(g, s, f, v)
    requires i < n && Iterate(s.double, s.one, n - 1) != g.zero
    ensures s.single(Iterate(s.double, s.one, i))
    ensures i > 0 ==> f(Iterate(s.double, s.one, i)) == Iterate(s.double, s.one, i - 1)
    decreases i
  {
    if i > 0 {
      UnitSteps(g, s, f, n, i - 1);
      var u := Iterate(s.double, s.one, i - 1);
      IterateCompose(s.double, s.one, i - 1, 1);
      assert Iterate(s.double, s.double(u), 0) == s.double(u);
      assert Iterate(s.double, u, 1) == s.double(u);
      IterateCompose(s.double, s.one, i, n - 1 - i);
      if s.double(u) == g.zero { StaysOut(s.double, g.zero, n - 1 - i); }
      assert SingleAt(g, s, f, u);
    }
  }

  // ---------------------------------------------------------------- applying, a column at a time

  lemma {:induction false} ApplyStep<W(!new)>(g: Words<W>, s: Shape<W>, m: seq<W>, v: W, i: nat)
    requires i < |m|
    ensures Apply(g, s, m[i..], v)
         == g.xor(if s.odd(v) then m[i] else g.zero, Apply(g, s, m[i + 1..], s.half(v)))
  {
    assert m[i..][1..] == m[i + 1..];
  }

  lemma {:induction false} ApplyOfZero<W(!new)>(g: Words<W>, s: Shape<W>, m: seq<W>)
    requires Laws(g) && Splits(g, s)
    ensures Apply(g, s, m, g.zero) == g.zero
  {
    ApplyLinear(g, s, m);
    LinearZero(g, v => Apply(g, s, m, v));
  }

  /** A column xored onto what the columns before it gave. */
  lemma {:induction false} AccumulateStep<W(!new)>(g: Words<W>, s: Shape<W>, m: seq<W>, v: W, i: nat, sum: W, sum': W)
    requires Laws(g) && i < |m|
    requires sum' == if s.odd(v) then g.xor(sum, m[i]) else sum
    ensures g.xor(sum', Apply(g, s, m[i + 1..], s.half(v))) == g.xor(sum, Apply(g, s, m[i..], v))
  {
    ApplyStep(g, s, m, v, i);
    var rest := Apply(g, s, m[i + 1..], s.half(v));
    assert LawsAt(g, sum, m[i], rest) && LawsAt(g, rest, g.zero, rest) && LawsAt(g, g.zero, rest, rest);
  }

  /** The matrix of `n` steps of `f`. */
  ghost predicate IsSteps<W>(s: Shape<W>, f: W -> W, m: seq<W>, n: nat) {
    forall i :: 0 <= i < |m| ==> m[i] == Iterate(f, Iterate(s.double, s.one, i), n)
  }

  /** Applying the matrix of `n` steps takes `n` steps. */
  lemma {:induction false} StepsApply<W(!new)>(g: Words<W>, s: Shape<W>, f: W -> W, m: seq<W>, n: nat, v: W)
    requires Laws(g) && Rebuilds(g, s, |m|) && Linear(g, f)
    requires IsSteps(s, f, m, n)
    ensures Apply(g, s, m, v) == Iterate(f, v, n)
  {
    var fn := u => Iterate(f, u, n);
    forall a, b ensures LinearAt(g, fn, a, b) {
      IterateLinear(g, f, a, b, n);
    }
    MatrixOf(g, s, fn, |m|, v);
    assert m == Images(fn, Units(s, |m|));
  }

  /** The square of the matrix of `n` steps is the matrix of twice as many. */
  lemma {:induction false} SquareSteps<W(!new)>(g: Words<W>, s: Shape<W>, f: W -> W, m: seq<W>, n: nat)
    requires Laws(g) && Rebuilds(g, s, |m|) && Linear(g, f)
    requires IsSteps(s, f, m, n)
    ensures IsSteps(s, f, Square(g, s, m), 2 * n)
  {
    forall i | 0 <= i < |m|
      ensures Square(g, s, m)[i] == Iterate(f, Iterate(s.double, s.one, i), 2 * n)
    {
      StepsApply(g, s, f, m, n, m[i]);
      IterateCompose(f, Iterate(s.double, s.one, i), n, n);
    }
  }
}
