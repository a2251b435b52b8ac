/**
 The open-addressed table of a flat index: a word a slot, a tag above a record's offset, linear
 probing from a key's home slot.

 The table's meaning is the map from keys to offsets. Here are the words, the probe path, what a
 table of placed keys guarantees, and the reads and the single-slot updates against that meaning.
 */
module HashTable {
  import opened Bytes
  import opened Wrappers

  const P56: nat := 0x100_0000_0000_0000

  const HASH_LOAD_NUM: nat := 3
  const HASH_LOAD_DEN: nat := 4

  // ---------------------------------------------------------------- capacity

  predicate PowerOfTwo(n: nat) {
    n == 1 || (n > 0 && n % 2 == 0 && PowerOfTwo(n / 2))
  }

  function DivCeil(a: nat, b: nat): (c: nat)
    requires b > 0
    ensures (c == 0 && a == 0) || (c > 0 && b * (c - 1) < a <= b * c)
  {
    DivCeilBounds(a, b);
    (a + b - 1) / b
  }

  lemma {:induction false} DivCeilBounds(a: nat, b: nat)
    requires b > 0
    ensures var c := (a + b - 1) / b;
      (c == 0 && a == 0) || (c > 0 && b * (c - 1) < a <= b * c)
  {
    var c := (a + b - 1) / b;
    assert a + b - 1 == b * c + (a + b - 1) % b;
    assert b * (c - 1) == b * c - b;
    if c == 0 { assert b * c == 0; }
  }

  /** The first of `c`, its double, and so on that is no less than `want`; `None` past a word. */
  function Doubled(c: nat, want: nat): Option<nat>
    requires c > 0
    decreases want - c
  {
    if c >= want then Some(c) else if 2 * c >= U64 then None else Doubled(2 * c, want)
  }

  /** How many slots `keys` keys are given; `None` where the arithmetic would overflow a word. */
  function HashCap(keys: nat): Option<nat> {
    if keys * HASH_LOAD_DEN >= U64 then None
    else
      var c := Doubled(1, DivCeil(keys * HASH_LOAD_DEN, HASH_LOAD_NUM));
      if c.None? then None else Some(if c.value < 16 then 16 else c.value)
  }

  /** The smallest power of two, at least 16, that leaves a quarter of the slots empty. */
  method HashCapFor(keys: nat) returns (cap: Option<nat>)
    ensures cap == HashCap(keys)
    ensures cap.Some? ==> PowerOfTwo(cap.value) && cap.value >= 16
    ensures cap.Some? ==> keys < cap.value && keys * HASH_LOAD_DEN <= cap.value * HASH_LOAD_NUM
    ensures cap.Some? && cap.value > 16 ==> keys * HASH_LOAD_DEN > (cap.value / 2) * HASH_LOAD_NUM
    ensures cap.None? ==> keys * HASH_LOAD_DEN * 2 >= U64
  {
    if keys * HASH_LOAD_DEN >= U64 {
      return None;
    }
    var want := DivCeil(keys * HASH_LOAD_DEN, HASH_LOAD_NUM);
    var c := 1;
    assert PowerOfTwo(1);
    while c < want
      invariant PowerOfTwo(c) && c < U64 && Doubled(c, want) == Doubled(1, want)
      invariant c > 1 ==> c / 2 < want
      decreases want - c
    {
      if 2 * c >= U64 {
        return None;
      }
      assert (2 * c) / 2 == c;
      c := 2 * c;
    }
    Sixteen();
    cap := Some(if c < 16 then 16 else c);
  }

  lemma {:induction false} Sixteen()
    ensures PowerOfTwo(16)
  {
    assert PowerOfTwo(4);
  }

  // ---------------------------------------------------------------- words

  /** The top byte of a hash, forced non-zero so that an occupied slot is never all zero. */
  function Tag(h: nat): (t: nat)
    requires h < U64
    ensures 0 < t < 256 && t % 2 == 1
  {
    var b := h / P56;
    if b % 2 == 0 then b + 1 else b
  }

  /** What a slot holds to point at `off` for a key of hash `h`. */
  function Pack(h: nat, off: nat): (w: nat)
    requires h < U64 && off < U32
    ensures w > 0 && w / P56 == Tag(h) && w % P56 == off
  {
    Tag(h) * P56 + off
  }

  /** The low bits of `h` under the mask `cap - 1`. */
  function Masked(h: nat, cap: nat): (s: nat)
    ensures cap > 0 ==> s < cap
  {
    if cap <= 1 then 0 else h % 2 + 2 * Masked(h / 2, cap / 2)
  }

  /** Under a power of two's mask a slot is itself, and one past the last is the first. */
  lemma {:induction false} MaskedWraps(s: nat, cap: nat)
    requires PowerOfTwo(cap) && s <= cap
    ensures Masked(s, cap) == if s < cap then s else 0
  {
    if cap > 1 {
      MaskedWraps(s / 2, cap / 2);
    }
  }

  /** Slot `r` is met before slot `s` by a probe from `home`, the table's end followed by its start. */
  predicate Before(home: nat, s: nat, r: nat) {
    if home <= s then home <= r < s else home <= r || r < s
  }

  /** The next slot of a probe. */
  function Next(s: nat, cap: nat): nat {
    if s + 1 < cap then s + 1 else 0
  }

  /** A probe one slot further has met one slot more, until it is back home, having met them all. */
  lemma {:induction false} BeforeNext(home: nat, s: nat, r: nat, cap: nat)
    requires home < cap && s < cap && r < cap
    ensures Next(s, cap) != home ==> (Before(home, Next(s, cap), r) <==> Before(home, s, r) || r == s)
    ensures Next(s, cap) == home ==> Before(home, s, r) || r == s
    ensures !Before(home, home, r)
  {}

  // ---------------------------------------------------------------- what a table holds

  /** The keys of a table: each with its hash's word and where its record lies. */
  datatype Entry = Entry(key: bytes, hash: nat, off: nat)

  predicate Good(e: Entry) { e.hash < U64 && e.off < U32 }

  function SlotWord(e: Entry): nat
    requires Good(e)
  {
    Pack(e.hash, e.off)
  }

  function Home(e: Entry, cap: nat): (s: nat)
    requires cap > 0
    ensures s < cap
  {
    Masked(e.hash, cap)
  }

  /** A probe from `home` that reaches slot `s` has met no empty slot. */
  ghost predicate Taken(t: seq<nat>, home: nat, s: nat) {
    forall r :: 0 <= r < |t| && Before(home, s, r) ==> t[r] != 0
  }

  /** Occupied slots. */
  function Full(t: seq<nat>): (n: nat)
    ensures n <= |t|
  {
    if t == [] then 0 else Full(t[..|t| - 1]) + if t[|t| - 1] != 0 then 1 else 0
  }

  lemma {:induction false} FullAfter(t: seq<nat>, s: nat, w: nat)
    requires s < |t| && t[s] == 0 && w != 0
    ensures Full(t[s := w]) == Full(t) + 1
  {
    var u := t[s := w];
    if s < |t| - 1 {
      FullAfter(t[..|t| - 1], s, w);
      assert u[..|t| - 1] == t[..|t| - 1][s := w];
    } else {
      assert u[..|t| - 1] == t[..|t| - 1];
    }
  }

  lemma {:induction false} NoneEmpty(t: seq<nat>)
    requires forall s :: 0 <= s < |t| ==> t[s] != 0
    ensures Full(t) == |t|
  {
    if t != [] { NoneEmpty(t[..|t| - 1]); }
  }

  lemma {:induction false} AllEmpty(t: seq<nat>)
    requires forall s :: 0 <= s < |t| ==> t[s] == 0
    ensures Full(t) == 0
  {
    if t != [] { AllEmpty(t[..|t| - 1]); }
  }

  /** A probe that comes back home has met every slot taken: that table is full. */
  lemma {:induction false} RoundIsFull(t: seq<nat>, home: nat, s: nat)
    requires home < |t| && s < |t|
    requires Taken(t, home, s) && t[s] != 0 && Next(s, |t|) == home
    ensures Full(t) == |t|
  {
    forall r | 0 <= r < |t| ensures t[r] != 0 { BeforeNext(home, s, r, |t|); }
    NoneEmpty(t);
  }

  /** Some placed entry is in slot `s`. */
  ghost predicate Owned(placed: map<nat, nat>, s: nat) {
    exists i :: i in placed && placed[i] == s
  }

  /**
   The entries placed in a table, entry `i` in slot `placed[i]`: every slot on the way there from its
   home is taken, no two entries share a slot, and every taken slot is some placed entry's.
   */
  ghost predicate Probed(es: seq<Entry>, t: seq<nat>, placed: map<nat, nat>) {
    && PowerOfTwo(|t|)
    && (forall i :: 0 <= i < |es| ==> Good(es[i]))
    && (forall i :: i in placed ==> i < |es| && placed[i] < |t|)
    && (forall i :: i in placed ==> t[placed[i]] == SlotWord(es[i]) && Taken(t, Home(es[i], |t|), placed[i]))
    && (forall i, j :: i in placed && j in placed && placed[i] == placed[j] ==> i == j)
    && (forall s {:trigger Owned(placed, s)} :: 0 <= s < |t| && t[s] != 0 ==> Owned(placed, s))
    && Full(t) == |placed|
  }

  lemma {:induction false} NothingProbed(es: seq<Entry>, t: seq<nat>)
    requires PowerOfTwo(|t|) && (forall s :: 0 <= s < |t| ==> t[s] == 0)
    requires forall i :: 0 <= i < |es| ==> Good(es[i])
    ensures Probed(es, t, map[])
  {
    AllEmpty(t);
  }

  /** Taken slots stay taken as others are filled. */
  lemma {:induction false} TakenStill(t: seq<nat>, s: nat, w: nat, home: nat, e: nat)
    requires s < |t| && w != 0 && Taken(t, home, e)
    ensures Taken(t[s := w], home, e)
  {}

  /** After a placement, every taken slot is some placed entry's. */
  lemma {:induction false} OwnedStill(t: seq<nat>, u: seq<nat>, placed: map<nat, nat>, after: map<nat, nat>, i: nat, s: nat)
    requires |u| == |t| && s < |t| && (forall r :: 0 <= r < |t| && r != s ==> u[r] == t[r])
    requires i !in placed && after == placed[i := s]
    requires forall r {:trigger Owned(placed, r)} :: 0 <= r < |t| && t[r] != 0 ==> Owned(placed, r)
    ensures forall r {:trigger Owned(after, r)} :: 0 <= r < |u| && u[r] != 0 ==> Owned(after, r)
  {
    forall r | 0 <= r < |u| && u[r] != 0 ensures Owned(after, r) {
      if r == s {
        assert i in after;
      } else {
        assert Owned(placed, r);
        var j :| j in placed && placed[j] == r;
        assert j in after && after[j] == r;
      }
    }
  }

  /** Placing an entry in the first empty slot on its path keeps every other entry where it was. */
  lemma {:induction false} PlaceKeeps(es: seq<Entry>, t: seq<nat>, placed: map<nat, nat>, i: nat, s: nat)
    requires Probed(es, t, placed)
    requires i < |es| && i !in placed && s < |t|
    requires Taken(t, Home(es[i], |t|), s) && t[s] == 0
    ensures Probed(es, t[s := SlotWord(es[i])], placed[i := s])
  {
    var w := SlotWord(es[i]);
    var u, after := t[s := w], placed[i := s];
    FullAfter(t, s, w);
    OwnedStill(t, u, placed, after, i, s);
    forall j | j in after ensures u[after[j]] == SlotWord(es[j]) && Taken(u, Home(es[j], |u|), after[j]) {
      TakenStill(t, s, w, Home(es[j], |t|), after[j]);
      if j != i { assert t[placed[j]] == SlotWord(es[j]); }
    }
    forall j, k | j in after && k in after && after[j] == after[k] ensures j == k {
      if j != i { assert t[placed[j]] == SlotWord(es[j]); }
      if k != i { assert t[placed[k]] == SlotWord(es[k]); }
    }
    assert |after| == |placed| + 1;
  }
}
