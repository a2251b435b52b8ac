/**
 Linear maps over GF(2), and the matrices that stand for them.

 The words are abstract: a type with a zero and an xor. Nothing here depends on the width of a
 word or on how it is stored, so the proofs are algebra and never bit manipulation; the module Crc
 supplies 32-bit words.
 */
module Gf2 {

  // ---------------------------------------------------------------- words

  /** A type of words, by its zero and its xor. */
  datatype Words<!W> = Words(zero: W, xor: (W, W) -> W)

  /** The laws of xor at three words. */
  ghost predicate LawsAt<W>(g: Words<W>, a: W, b: W, c: W) {
    && g.xor(a, b) == g.xor(b, a)
    && g.xor(g.xor(a, b), c) == g.xor(a, g.xor(b, c))
    && g.xor(a, g.zero) == a
    && g.xor(a, a) == g.zero
  }

  /** Xor is commutative, associative, and every word is its own inverse. */
  ghost predicate Laws<W(!new)>(g: Words<W>) {
    forall a, b, c :: LawsAt(g, a, b, c)
  }

  lemma {:induction false} Swap<W(!new)>(g: Words<W>, a: W, b: W, c: W, d: W)
    requires Laws(g)
    ensures g.xor(g.xor(a, b), g.xor(c, d)) == g.xor(g.xor(a, c), g.xor(b, d))
  {
    assert LawsAt(g, a, b, g.xor(c, d));
    assert LawsAt(g, b, c, d);
    assert LawsAt(g, c, b, d);
    assert LawsAt(g, a, c, g.xor(b, d));
  }

  /** A word xored in twice is gone. */
  lemma {:induction false} Cancel<W(!new)>(g: Words<W>, a: W, b: W)
    requires Laws(g)
    ensures g.xor(g.xor(a, b), b) == a && g.xor(b, g.xor(b, a)) == a
  {
    assert LawsAt(g, a, b, b);
    assert LawsAt(g, b, b, a);
    assert LawsAt(g, a, g.zero, b);
    assert LawsAt(g, g.zero, a, b);
  }

  // ---------------------------------------------------------------- maps

  ghost predicate LinearAt<W>(g: Words<W>, f: W -> W, a: W, b: W) {
    f(g.xor(a, b)) == g.xor(f(a), f(b))
  }

  /** `f` distributes over xor. */
  ghost predicate Linear<W(!new)>(g: Words<W>, f: W -> W) {
    forall a, b :: LinearAt(g, f, a, b)
  }

  lemma {:induction false} LinearZero<W(!new)>(g: Words<W>, f: W -> W)
    requires Laws(g) && Linear(g, f)
    ensures f(g.zero) == g.zero
  {
    assert LinearAt(g, f, g.zero, g.zero);
    assert LawsAt(g, g.zero, g.zero, g.zero);
    assert LawsAt(g, f(g.zero), f(g.zero), g.zero);
  }

  /** Linearity carries over to a map and an xor that agree with these where it is asked. */
  lemma {:induction false} LinearElsewhere<W>(g: Words<W>, f: W -> W, g': Words<W>, f': W -> W, a: W, b: W)
    requires LinearAt(g, f, a, b)
    requires g'.xor(a, b) == g.xor(a, b) && g'.xor(f(a), f(b)) == g.xor(f(a), f(b))
    requires f'(a) == f(a) && f'(b) == f(b) && f'(g.xor(a, b)) == f(g.xor(a, b))
    ensures LinearAt(g', f', a, b)
  {}

  /** `f` applied `k` times. */
  ghost function Iterate<W>(f: W -> W, c: W, k: nat): W
    decreases k, c
  {
    if k == 0 then c else Iterate(f, f(c), k - 1)
  }

  lemma {:induction false} IterateLinear<W(!new)>(g: Words<W>, f: W -> W, a: W, b: W, k: nat)
    requires Linear(g, f)
    ensures Iterate(f, g.xor(a, b), k) == g.xor(Iterate(f, a, k), Iterate(f, b, k))
    decreases k
  {
    if k > 0 {
      assert LinearAt(g, f, a, b);
      IterateLinear(g, f, f(a), f(b), k - 1);
    }
  }

  lemma {:induction false} IterateCompose<W>(f: W -> W, c: W, j: nat, k: nat)
    ensures Iterate(f, Iterate(f, c, j), k) == Iterate(f, c, j + k)
    decreases j
  {
    if j > 0 { IterateCompose(f, f(c), j - 1, k); }
  }

  lemma {:induction false} IterateOfZero<W(!new)>(g: Words<W>, f: W -> W, k: nat)
    requires Laws(g) && Linear(g, f)
    ensures Iterate(f, g.zero, k) == g.zero
    decreases k
  {
    if k > 0 {
      LinearZero(g, f);
      IterateOfZero(g, f, k - 1);
    }
  }

  // ---------------------------------------------------------------- matrices

  /** The xor of the columns the bits select: a matrix applied to a vector. */
  ghost function Times<W>(g: Words<W>, m: seq<W>, bits: seq<bool>): W
    requires |m| == |bits|
  {
    if m == [] then g.zero
    else g.xor(if bits[0] then m[0] else g.zero, Times(g, m[1..], bits[1..]))
  }

  /** Bitwise difference. */
  ghost function BitsXor(a: seq<bool>, b: seq<bool>): (r: seq<bool>)
    requires |a| == |b|
    ensures |r| == |a|
  {
    seq(|a|, i requires 0 <= i < |a| => a[i] != b[i])
  }

  /** A matrix is linear in the vector it is applied to. */
  lemma {:induction false} TimesLinear<W(!new)>(g: Words<W>, m: seq<W>, a: seq<bool>, b: seq<bool>)
    requires Laws(g)
    requires |m| == |a| == |b|
    ensures Times(g, m, BitsXor(a, b)) == g.xor(Times(g, m, a), Times(g, m, b))
  {
    var z := g.zero;
    assert LawsAt(g, z, z, z);
    if m != [] {
      var x, y := if a[0] then m[0] else z, if b[0] then m[0] else z;
      assert LawsAt(g, m[0], z, z) && LawsAt(g, z, m[0], z);
      assert BitsXor(a, b)[1..] == BitsXor(a[1..], b[1..]);
      TimesLinear(g, m[1..], a[1..], b[1..]);
      Swap(g, x, y, Times(g, m[1..], a[1..]), Times(g, m[1..], b[1..]));
    }
  }

  /** The image of every column. */
  ghost function Images<W>(f: W -> W, m: seq<W>): (r: seq<W>)
    ensures |r| == |m|
  {
    seq(|m|, i requires 0 <= i < |m| => f(m[i]))
  }

  /** A linear map goes through a matrix onto its columns. */
  lemma {:induction false} Through<W(!new)>(g: Words<W>, f: W -> W, m: seq<W>, bits: seq<bool>)
    requires Laws(g) && Linear(g, f)
    requires |m| == |bits|
    ensures f(Times(g, m, bits)) == Times(g, Images(f, m), bits)
  {
    LinearZero(g, f);
    if m != [] {
      var x := if bits[0] then m[0] else g.zero;
      assert LinearAt(g, f, x, Times(g, m[1..], bits[1..]));
      Through(g, f, m[1..], bits[1..]);
      assert Images(f, m)[1..] == Images(f, m[1..]);
    }
  }

  // ---------------------------------------------------------------- registers

  /** A register that steps by `f`, fed the low `n` bits of `b` one at a time. */
  ghost function Feed<W>(g: Words<W>, f: W -> W, low: W -> W, half: W -> W, c: W, b: W, n: nat): W
    decreases n
  {
    if n == 0 then c else Feed(g, f, low, half, f(g.xor(c, low(b))), half(b), n - 1)
  }

  /** Without its low bit, a word is only halved by a step. */
  ghost predicate HalvesAt<W>(g: Words<W>, f: W -> W, low: W -> W, half: W -> W, b: W) {
    f(g.xor(low(b), b)) == half(b)
  }

  ghost predicate Halves<W(!new)>(g: Words<W>, f: W -> W, low: W -> W, half: W -> W) {
    forall b :: HalvesAt(g, f, low, half, b)
  }

  /** Feeding bits one at a time is xoring them in and stepping as often. */
  lemma {:induction false} FeedAtOnce<W(!new)>(
    g: Words<W>, f: W -> W, low: W -> W, half: W -> W, c: W, b: W, n: nat)
    requires Laws(g) && Linear(g, f) && Halves(g, f, low, half)
    requires Iterate(half, b, n) == g.zero
    ensures Feed(g, f, low, half, c, b, n) == Iterate(f, g.xor(c, b), n)
    decreases n
  {
    if n == 0 {
      assert LawsAt(g, c, b, b);
    } else {
      var l := low(b);
      assert g.xor(g.xor(c, l), g.xor(l, b)) == g.xor(c, b) by {
        assert LawsAt(g, c, l, g.xor(l, b));
        Cancel(g, b, l);
      }
      assert LinearAt(g, f, g.xor(c, l), g.xor(l, b));
      assert HalvesAt(g, f, low, half, b);
      FeedAtOnce(g, f, low, half, f(g.xor(c, l)), half(b), n - 1);
    }
  }

  /** A register that steps by `f`, each word of a message xored in before its step. */
  ghost function Run<W>(g: Words<W>, f: W -> W, c: W, message: seq<W>): W
    decreases |message|
  {
    if message == [] then c else Run(g, f, f(g.xor(c, message[0])), message[1..])
  }

  lemma {:induction false} RunAppend<W>(g: Words<W>, f: W -> W, c: W, a: seq<W>, b: seq<W>)
    ensures Run(g, f, c, a + b) == Run(g, f, Run(g, f, c, a), b)
    decreases |a|
  {
    if a == [] {
      assert a + b == b;
    } else {
      assert (a + b)[1..] == a[1..] + b;
      RunAppend(g, f, f(g.xor(c, a[0])), a[1..], b);
    }
  }

  /** A part of a message run before the rest is the whole run. */
  lemma {:induction false} RunPart<W>(g: Words<W>, f: W -> W, c: W, c': W, whole: seq<W>, p: nat, q: nat, part: seq<W>)
    requires p <= q <= |whole| && part == whole[p..q]
    requires c' == Run(g, f, c, part)
    ensures Run(g, f, c', whole[q..]) == Run(g, f, c, whole[p..])
  {
    RunAppend(g, f, c, part, whole[q..]);
    assert part + whole[q..] == whole[p..];
  }

  /** What a register held before a message is shifted past it, whatever the message is. */
  lemma {:induction false} RunAffine<W(!new)>(g: Words<W>, f: W -> W, c: W, d: W, message: seq<W>)
    requires Laws(g) && Linear(g, f)
    ensures Run(g, f, g.xor(c, d), message)
         == g.xor(Iterate(f, c, |message|), Run(g, f, d, message))
    decreases |message|
  {
    if message != [] {
      var x := message[0];
      assert LawsAt(g, c, d, x);
      assert LinearAt(g, f, c, g.xor(d, x));
      RunAffine(g, f, f(c), f(g.xor(d, x)), message[1..]);
    }
  }

  /**
   A finished checksum is a register with `final` xored in. The first of two, shifted past the
   second's message, xored with the second, is the checksum of both messages in turn.
   */
  lemma {:induction false} Combined<W(!new)>(g: Words<W>, f: W -> W, final: W, a: seq<W>, b: seq<W>)
    requires Laws(g) && Linear(g, f)
    ensures g.xor(Iterate(f, g.xor(Run(g, f, final, a), final), |b|), g.xor(Run(g, f, final, b), final))
         == g.xor(Run(g, f, final, a + b), final)
  {
    var ra, n := Run(g, f, final, a), |b|;
    var z := Run(g, f, g.zero, b);
    assert LawsAt(g, final, g.zero, final) && LawsAt(g, ra, g.zero, ra);
    RunAffine(g, f, final, g.zero, b);
    RunAffine(g, f, ra, g.zero, b);
    RunAppend(g, f, final, a, b);
    IterateLinear(g, f, ra, final, n);
    var i, j := Iterate(f, ra, n), Iterate(f, final, n);
    calc {
      g.xor(g.xor(i, j), g.xor(g.xor(j, z), final));
      { assert LawsAt(g, j, z, final) && LawsAt(g, i, j, g.xor(j, g.xor(z, final))); }
      g.xor(i, g.xor(j, g.xor(j, g.xor(z, final))));
      { Cancel(g, g.xor(z, final), j); }
      g.xor(i, g.xor(z, final));
      { assert LawsAt(g, i, z, final); }
      g.xor(g.xor(i, z), final);
    }
  }

  /** `Combined`, for checksums by name. */
  lemma {:induction false} CombinedValues<W(!new)>(
    g: Words<W>, f: W -> W, final: W, a: seq<W>, b: seq<W>, ab: seq<W>, ca: W, cb: W, cab: W)
    requires Laws(g) && Linear(g, f) && ab == a + b
    requires ca == g.xor(Run(g, f, final, a), final)
    requires cb == g.xor(Run(g, f, final, b), final)
    requires cab == g.xor(Run(g, f, final, ab), final)
    ensures g.xor(Iterate(f, ca, |b|), cb) == cab
  {
    Combined(g, f, final, a, b);
  }

  // ---------------------------------------------------------------- tables

  /** Stepping a word is stepping its low part and halving the rest. */
  lemma {:induction false} StepByLow<W(!new)>(g: Words<W>, f: W -> W, low: W -> W, half: W -> W, b: W)
    requires Laws(g) && Linear(g, f) && Halves(g, f, low, half)
    ensures f(b) == g.xor(half(b), f(low(b)))
  {
    var l := low(b);
    Cancel(g, b, l);
    assert LinearAt(g, f, l, g.xor(l, b));
    assert HalvesAt(g, f, low, half, b);
    assert LawsAt(g, f(l), half(b), b);
  }

  /** A register's low parts xored into the first words of a message, one part a word. */
  ghost function Absorb<W>(g: Words<W>, low: W -> W, half: W -> W, c: W, message: seq<W>): (r: seq<W>)
    ensures |r| == |message|
    decreases |message|
  {
    if message == [] then []
    else [g.xor(low(c), message[0])] + Absorb(g, low, half, half(c), message[1..])
  }

  /** A register whose parts run out within the message may be absorbed by it. */
  lemma {:induction false} Absorbed<W(!new)>(
    g: Words<W>, f: W -> W, low: W -> W, half: W -> W, c: W, d: W, message: seq<W>)
    requires Laws(g) && Linear(g, f) && Halves(g, f, low, half)
    requires Iterate(half, c, |message|) == g.zero
    ensures Run(g, f, g.xor(d, c), message) == Run(g, f, d, Absorb(g, low, half, c, message))
    decreases |message|
  {
    if message == [] {
      assert LawsAt(g, d, d, d);
    } else {
      var l, x := low(c), message[0];
      calc {
        f(g.xor(g.xor(d, c), x));
        { Cancel(g, c, l); assert LawsAt(g, d, c, x) && LawsAt(g, l, g.xor(l, c), x); }
        f(g.xor(d, g.xor(l, g.xor(g.xor(l, c), x))));
        { assert LawsAt(g, g.xor(l, c), x, x) && LawsAt(g, l, x, g.xor(l, c)); }
        f(g.xor(d, g.xor(g.xor(l, x), g.xor(l, c))));
        { assert LawsAt(g, d, g.xor(l, x), g.xor(l, c)); }
        f(g.xor(g.xor(d, g.xor(l, x)), g.xor(l, c)));
        { assert LinearAt(g, f, g.xor(d, g.xor(l, x)), g.xor(l, c)); assert HalvesAt(g, f, low, half, c); }
        g.xor(f(g.xor(d, g.xor(l, x))), half(c));
      }
      Absorbed(g, f, low, half, half(c), f(g.xor(d, g.xor(l, x))), message[1..]);
    }
  }

  /** One table lookup a word, xored onto `a` in turn: the word's own steps to the message's end. */
  ghost function Tabled<W>(g: Words<W>, f: W -> W, a: W, message: seq<W>): W
    decreases |message|
  {
    if message == [] then a
    else Tabled(g, f, g.xor(a, Iterate(f, message[0], |message|)), message[1..])
  }

  lemma {:induction false} RunTabled<W(!new)>(g: Words<W>, f: W -> W, a: W, message: seq<W>)
    requires Laws(g) && Linear(g, f)
    ensures Tabled(g, f, a, message) == g.xor(a, Run(g, f, g.zero, message))
    decreases |message|
  {
    if message == [] {
      assert LawsAt(g, a, a, a);
    } else {
      var x, rest := message[0], message[1..];
      assert LawsAt(g, x, g.zero, x) && LawsAt(g, g.zero, x, x);
      assert LawsAt(g, f(x), g.zero, x);
      RunAffine(g, f, f(x), g.zero, rest);
      var y := Iterate(f, x, |message|);
      RunTabled(g, f, g.xor(a, y), rest);
      assert LawsAt(g, a, y, Run(g, f, g.zero, rest));
    }
  }

  /** Eight words are eight lookups, the first word's from the last table. */
  lemma {:induction false} EightTabled<W(!new)>(g: Words<W>, f: W -> W, m: seq<W>)
    requires Laws(g) && Linear(g, f)
    requires |m| == 8
    ensures Run(g, f, g.zero, m) ==
      g.xor(g.xor(g.xor(g.xor(g.xor(g.xor(g.xor(
        Iterate(f, m[0], 8), Iterate(f, m[1], 7)), Iterate(f, m[2], 6)), Iterate(f, m[3], 5)),
        Iterate(f, m[4], 4)), Iterate(f, m[5], 3)), Iterate(f, m[6], 2)), Iterate(f, m[7], 1))
  {
    var a0 := Iterate(f, m[0], 8);
    var r := Run(g, f, g.zero, m);
    assert LawsAt(g, g.zero, a0, a0) && LawsAt(g, a0, g.zero, a0);
    assert LawsAt(g, g.zero, r, r) && LawsAt(g, r, g.zero, r);
    RunTabled(g, f, g.zero, m);
    var a1 := g.xor(a0, Iterate(f, m[1], 7));
    assert Tabled(g, f, g.zero, m) == Tabled(g, f, a0, m[1..]) == Tabled(g, f, a1, m[2..]) by {
      assert m[1..][1..] == m[2..];
    }
    var a2 := g.xor(a1, Iterate(f, m[2], 6));
    var a3 := g.xor(a2, Iterate(f, m[3], 5));
    assert Tabled(g, f, a1, m[2..]) == Tabled(g, f, a2, m[3..]) == Tabled(g, f, a3, m[4..]) by {
      assert m[2..][1..] == m[3..] && m[3..][1..] == m[4..];
    }
    var a4 := g.xor(a3, Iterate(f, m[4], 4));
    var a5 := g.xor(a4, Iterate(f, m[5], 3));
    assert Tabled(g, f, a3, m[4..]) == Tabled(g, f, a4, m[5..]) == Tabled(g, f, a5, m[6..]) by {
      assert m[4..][1..] == m[5..] && m[5..][1..] == m[6..];
    }
    var a6 := g.xor(a5, Iterate(f, m[6], 2));
    var a7 := g.xor(a6, Iterate(f, m[7], 1));
    assert Tabled(g, f, a5, m[6..]) == Tabled(g, f, a6, m[7..]) == Tabled(g, f, a7, m[8..]) by {
      assert m[6..][1..] == m[7..] && m[7..][1..] == m[8..];
    }
  }

  lemma {:induction false} AbsorbNothing<W(!new)>(g: Words<W>, low: W -> W, half: W -> W, message: seq<W>)
    requires Laws(g)
    requires low(g.zero) == g.zero && half(g.zero) == g.zero
    ensures Absorb(g, low, half, g.zero, message) == message
    decreases |message|
  {
    if message != [] {
      assert LawsAt(g, g.zero, message[0], g.zero) && LawsAt(g, message[0], g.zero, g.zero);
      AbsorbNothing(g, low, half, message[1..]);
    }
  }

  /** A register of four parts touches four words. */
  lemma {:induction false} AbsorbFour<W(!new)>(g: Words<W>, low: W -> W, half: W -> W, c: W, m: seq<W>)
    requires Laws(g)
    requires low(g.zero) == g.zero && half(g.zero) == g.zero
    requires |m| >= 4 && half(half(half(half(c)))) == g.zero
    ensures Absorb(g, low, half, c, m) ==
      [g.xor(low(c), m[0]), g.xor(low(half(c)), m[1]),
       g.xor(low(half(half(c))), m[2]), g.xor(low(half(half(half(c)))), m[3])] + m[4..]
  {
    var c1 := half(c);
    var c2 := half(c1);
    var c3 := half(c2);
    AbsorbNothing(g, low, half, m[4..]);
    assert Absorb(g, low, half, c3, m[3..]) == [g.xor(low(c3), m[3])] + m[4..] by {
      assert m[3..][1..] == m[4..];
    }
    assert Absorb(g, low, half, c2, m[2..]) == [g.xor(low(c2), m[2])] + Absorb(g, low, half, c3, m[3..]) by {
      assert m[2..][1..] == m[3..];
    }
    assert Absorb(g, low, half, c1, m[1..]) == [g.xor(low(c1), m[1])] + Absorb(g, low, half, c2, m[2..]) by {
      assert m[1..][1..] == m[2..];
    }
  }

  /** Four lookups xored together, in tables `j` and down. */
  ghost function Four<W>(g: Words<W>, f: W -> W, x0: W, x1: W, x2: W, x3: W, j: nat): W
    requires j >= 4
  {
    g.xor(g.xor(g.xor(Iterate(f, x0, j), Iterate(f, x1, j - 1)), Iterate(f, x2, j - 2)), Iterate(f, x3, j - 3))
  }

  /** Four lookups xored onto `a`. */
  ghost function FourOnto<W>(g: Words<W>, f: W -> W, a: W, x0: W, x1: W, x2: W, x3: W, j: nat): W
    requires j >= 4
  {
    g.xor(g.xor(g.xor(g.xor(a, Iterate(f, x0, j)), Iterate(f, x1, j - 1)), Iterate(f, x2, j - 2)),
      Iterate(f, x3, j - 3))
  }

  lemma {:induction false} StaysOut<W>(half: W -> W, zero: W, k: nat)
    requires half(zero) == zero
    ensures Iterate(half, zero, k) == zero
    decreases k
  {
    if k > 0 { StaysOut(half, zero, k - 1); }
  }

  lemma {:induction false} OutAfterFour<W>(half: W -> W, zero: W, c: W, k: nat)
    requires half(zero) == zero && half(half(half(half(c)))) == zero
    requires k >= 4
    ensures Iterate(half, c, k) == zero
  {
    var c2 := half(half(c));
    assert Iterate(half, c, k) == Iterate(half, c2, k - 2);
    assert Iterate(half, c2, k - 2) == Iterate(half, zero, k - 4);
    StaysOut(half, zero, k - 4);
  }

  /** A round of the slice-by-8 loop: a register of four parts and eight words are eight lookups. */
  lemma {:induction false} EightWords<W(!new)>(g: Words<W>, f: W -> W, low: W -> W, half: W -> W, c: W, w: seq<W>)
    requires Laws(g) && Linear(g, f) && Halves(g, f, low, half)
    requires low(g.zero) == g.zero && half(g.zero) == g.zero
    requires half(half(half(half(c)))) == g.zero
    requires |w| == 8
    ensures Run(g, f, c, w) ==
      FourOnto(g, f,
        Four(g, f, g.xor(low(c), w[0]), g.xor(low(half(c)), w[1]),
          g.xor(low(half(half(c))), w[2]), g.xor(low(half(half(half(c)))), w[3]), 8),
        w[4], w[5], w[6], w[7], 4)
  {
    OutAfterFour(half, g.zero, c, 8);
    Absorbed(g, f, low, half, c, g.zero, w);
    assert LawsAt(g, g.zero, c, c) && LawsAt(g, c, g.zero, c);
    AbsorbFour(g, low, half, c, w);
    EightTabled(g, f, Absorb(g, low, half, c, w));
  }
}
