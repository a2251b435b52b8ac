/**
 Filling the table: plainly, through a lookahead ring, and from several threads at once.

 The first two write the table of one sequential definition, byte for byte. The third is a transition
 system, a thread's step one compare-exchange; under every schedule its table denotes the same map.
 */
module HashFill {
  import opened Bytes
  import opened Wrappers
  import opened HashTable
  import opened HashMap

  const FILL_AHEAD: nat := 16

  // ---------------------------------------------------------------- the sequential table

  /** The first empty slot a probe from `home` meets past `s`. */
  ghost function EmptyFrom(t: seq<nat>, home: nat, s: nat, d: nat): (r: nat)
    requires home < |t| && s < |t| && Full(t) < |t|
    requires d < |t| && s == if home + d < |t| then home + d else home + d - |t|
    requires Taken(t, home, s)
    ensures r < |t| && t[r] == 0 && Taken(t, home, r)
    decreases |t| - d
  {
    if t[s] == 0 then s
    else
      TakenNext(t, home, s, d);
      EmptyFrom(t, home, Next(s, |t|), d + 1)
  }

  lemma {:induction false} TakenNext(t: seq<nat>, home: nat, s: nat, d: nat)
    requires home < |t| && s < |t| && Full(t) < |t|
    requires d < |t| && s == if home + d < |t| then home + d else home + d - |t|
    requires Taken(t, home, s) && t[s] != 0
    ensures d + 1 < |t| && Taken(t, home, Next(s, |t|))
  {
    if Next(s, |t|) == home {
      RoundIsFull(t, home, s);
    } else {
      forall r | 0 <= r < |t| && Before(home, Next(s, |t|), r) ensures t[r] != 0 {
        BeforeNext(home, s, r, |t|);
      }
    }
  }

  /** Where an entry goes. */
  ghost function SlotFor(t: seq<nat>, e: Entry): (s: nat)
    requires Good(e) && Full(t) < |t|
    ensures s < |t| && t[s] == 0 && Taken(t, Home(e, |t|), s)
  {
    EmptyFrom(t, Home(e, |t|), Home(e, |t|), 0)
  }

  ghost predicate AllGood(es: seq<Entry>) { forall i :: 0 <= i < |es| ==> Good(es[i]) }

  /** The table with the first `n` entries placed, in order. */
  ghost function Filled(es: seq<Entry>, cap: nat, n: nat): (t: seq<nat>)
    requires AllGood(es) && n <= |es| && n < cap
    ensures |t| == cap && Full(t) == n
  {
    if n == 0 then
      AllEmpty(seq(cap, i => 0));
      seq(cap, i => 0)
    else
      var t := Filled(es, cap, n - 1);
      var s := SlotFor(t, es[n - 1]);
      FullAfter(t, s, SlotWord(es[n - 1]));
      t[s := SlotWord(es[n - 1])]
  }

  /** The entries placed are the first `n`. */
  ghost predicate PlacedUpTo(placed: map<nat, nat>, n: nat) {
    forall i :: i in placed <==> 0 <= i < n
  }

  /** In the sequential table the first `n` entries are placed. */
  ghost predicate Placing(es: seq<Entry>, cap: nat, n: nat)
    requires AllGood(es) && n <= |es| && n < cap
  {
    exists placed :: Probed(es, Filled(es, cap, n), placed) && PlacedUpTo(placed, n)
  }

  lemma {:induction false} PlacingStarts(es: seq<Entry>, cap: nat)
    requires AllGood(es) && PowerOfTwo(cap)
    ensures Placing(es, cap, 0)
  {
    FilledNone(es, cap);
    NothingProbed(es, Filled(es, cap, 0));
    assert PlacedUpTo(map[], 0);
  }

  lemma {:induction false} PlaceOne(es: seq<Entry>, t: seq<nat>, n: nat, s: nat, u: seq<nat>)
    requires n < |es| && Good(es[n])
    requires s < |t| && t[s] == 0 && Taken(t, Home(es[n], |t|), s)
    requires exists placed :: Probed(es, t, placed) && PlacedUpTo(placed, n)
    requires u == t[s := SlotWord(es[n])]
    ensures exists placed :: Probed(es, u, placed) && PlacedUpTo(placed, n + 1)
  {
    var placed :| Probed(es, t, placed) && PlacedUpTo(placed, n);
    PlaceKeeps(es, t, placed, n, s);
    assert PlacedUpTo(placed[n := s], n + 1);
  }

  lemma {:induction false} PlacingNext(es: seq<Entry>, cap: nat, n: nat)
    requires AllGood(es) && n < |es| && n + 1 < cap && Placing(es, cap, n)
    ensures Placing(es, cap, n + 1)
  {
    var t := Filled(es, cap, n);
    var s := SlotFor(t, es[n]);
    PlaceOne(es, t, n, s, t[s := SlotWord(es[n])]);
    FilledStep(es, cap, n + 1, t, t[s := SlotWord(es[n])]);
  }

  lemma {:induction false} FilledProbed(es: seq<Entry>, cap: nat, n: nat)
    requires AllGood(es) && n <= |es| && n < cap && PowerOfTwo(cap)
    ensures Placing(es, cap, n)
    decreases n
  {
    if n == 0 {
      PlacingStarts(es, cap);
    } else {
      FilledProbed(es, cap, n - 1);
      PlacingNext(es, cap, n - 1);
    }
  }

  lemma {:induction false} FilledNone(es: seq<Entry>, cap: nat)
    requires AllGood(es) && 0 < cap
    ensures forall s :: 0 <= s < cap ==> Filled(es, cap, 0)[s] == 0
  {}

  lemma {:induction false} FilledStep(es: seq<Entry>, cap: nat, n: nat, t: seq<nat>, u: seq<nat>)
    requires AllGood(es) && 0 < n <= |es| && n < cap
    requires t == Filled(es, cap, n - 1) && u == t[SlotFor(t, es[n - 1]) := SlotWord(es[n - 1])]
    ensures u == Filled(es, cap, n)
  {}

  /** A filled table denotes exactly the map from keys to records. */
  lemma {:induction false} FilledDenotes(es: seq<Entry>, cap: nat, hash: bytes -> nat, rec: nat -> Option<bytes>)
    requires |es| < cap && PowerOfTwo(cap)
    requires Distinct(es) && Faithful(es, hash, rec) && AllGood(es)
    ensures Denotes(Filled(es, cap, |es|), hash, rec, MapOf(es))
  {
    FilledProbed(es, cap, |es|);
    var t := Filled(es, cap, |es|);
    var placed :| Probed(es, t, placed) && PlacedUpTo(placed, |es|);
    ProbedDenotes(es, t, placed, hash, rec);
  }

  lemma {:induction false} FilledFills(es: seq<Entry>, cap: nat)
    requires |es| < cap && PowerOfTwo(cap) && AllGood(es)
    ensures FilledWith(Filled(es, cap, |es|), es)
  {
    FilledProbed(es, cap, |es|);
    var placed :| Probed(es, Filled(es, cap, |es|), placed) && PlacedUpTo(placed, |es|);
    forall i | 0 <= i < |es| ensures i in placed {}
  }

  // ---------------------------------------------------------------- fill_hash

  /** One key placed by linear probing from its home slot. */
  method Place(t: array<nat>, e: Entry)
    requires Good(e) && PowerOfTwo(t.Length) && Full(t[..]) < t.Length
    modifies t
    ensures t[..] == old(t[..])[SlotFor(old(t[..]), e) := SlotWord(e)]
  {
    ghost var was, home, d := t[..], Home(e, t.Length), 0;
    var s := Masked(e.hash, t.Length);
    while t[s] != 0
      invariant s < t.Length && d < t.Length && s == if home + d < t.Length then home + d else home + d - t.Length
      invariant t[..] == was && Taken(was, home, s)
      invariant EmptyFrom(was, home, s, d) == SlotFor(was, e)
      decreases t.Length - d
    {
      TakenNext(was, home, s, d);
      MaskedWraps(s + 1, t.Length);
      s := Masked(s + 1, t.Length);
      d := d + 1;
    }
    t[s] := Pack(e.hash, e.off);
  }

  /** The ranks up to `n`, in order. */
  function Ranks(n: nat): (r: seq<nat>)
    ensures |r| == n && forall i :: 0 <= i < n ==> r[i] == i
  {
    if n == 0 then [] else Ranks(n - 1) + [n - 1]
  }

  ghost predicate Zeroed(t: array<nat>)
    reads t
  {
    forall s :: 0 <= s < t.Length ==> t[s] == 0
  }

  /** The plain fill. `asked` is what it asked its caller for, in order. */
  method FillHash(t: array<nat>, es: seq<Entry>) returns (asked: seq<nat>)
    requires PowerOfTwo(t.Length) && |es| < t.Length && AllGood(es) && Zeroed(t)
    modifies t
    ensures t[..] == Filled(es, t.Length, |es|)
    ensures asked == Ranks(|es|)
  {
    asked := [];
    var i := 0;
    assert t[..] == Filled(es, t.Length, 0);
    while i < |es|
      invariant 0 <= i <= |es| && asked == Ranks(i)
      invariant t[..] == Filled(es, t.Length, i)
    {
      asked := asked + [i];
      Place(t, es[i]);
      i := i + 1;
    }
  }

  /** The ring's place of a rank is its own within the ring's length, and taken over past it. */
  lemma {:induction false} RingPlace(i: nat, k: nat)
    ensures i % FILL_AHEAD < FILL_AHEAD && (i + FILL_AHEAD) % FILL_AHEAD == i % FILL_AHEAD
    ensures i < k < i + FILL_AHEAD ==> k % FILL_AHEAD != i % FILL_AHEAD
  {}

  /** The ring holds the entries from `i` up to `FILL_AHEAD` on. */
  ghost predicate RingHolds(ring: seq<Entry>, es: seq<Entry>, i: nat) {
    && |ring| == FILL_AHEAD
    && forall k :: i <= k < i + FILL_AHEAD && k < |es| ==> ring[k % FILL_AHEAD] == es[k]
  }

  lemma {:induction false} RingStarts(ring: seq<Entry>, es: seq<Entry>)
    requires |ring| == FILL_AHEAD
    requires forall k :: 0 <= k < FILL_AHEAD && k < |es| ==> ring[k] == es[k]
    ensures RingHolds(ring, es, 0)
  {
    forall k | 0 <= k < FILL_AHEAD ensures k % FILL_AHEAD == k {}
  }

  lemma {:induction false} RingMoves(ring: seq<Entry>, es: seq<Entry>, i: nat)
    requires RingHolds(ring, es, i) && i < |es|
    ensures ring[i % FILL_AHEAD] == es[i]
    ensures i + FILL_AHEAD < |es| ==> RingHolds(ring[i % FILL_AHEAD := es[i + FILL_AHEAD]], es, i + 1)
    ensures i + FILL_AHEAD >= |es| ==> RingHolds(ring, es, i + 1)
  {
    RingPlace(i, i);
    if i + FILL_AHEAD < |es| {
      var after := ring[i % FILL_AHEAD := es[i + FILL_AHEAD]];
      forall k | i + 1 <= k < i + 1 + FILL_AHEAD && k < |es| ensures after[k % FILL_AHEAD] == es[k] {
        RingPlace(i, k);
      }
    }
  }

  /** The ring with the first entries asked for. */
  method FillRing(es: seq<Entry>) returns (ring: array<Entry>, asked: seq<nat>)
    ensures fresh(ring) && RingHolds(ring[..], es, 0)
    ensures asked == Ranks(Min(FILL_AHEAD, |es|))
  {
    asked := [];
    ring := new Entry[FILL_AHEAD](i => Entry([], 0, 0));
    var i := 0;
    while i < FILL_AHEAD && i < |es|
      invariant 0 <= i <= FILL_AHEAD && i <= |es| && asked == Ranks(i)
      invariant forall k :: 0 <= k < i ==> ring[k] == es[k]
    {
      asked := asked + [i];
      ring[i] := es[i];
      i := i + 1;
    }
    RingStarts(ring[..], es);
  }

  /** The ring's next entry, its place taken by the entry `FILL_AHEAD` on, asked for now. */
  method TakeFromRing(ring: array<Entry>, es: seq<Entry>, i: nat, asked: seq<nat>) returns (e: Entry, asked': seq<nat>)
    requires i < |es| && RingHolds(ring[..], es, i) && asked == Ranks(Min(i + FILL_AHEAD, |es|))
    modifies ring
    ensures e == es[i] && RingHolds(ring[..], es, i + 1)
    ensures asked' == Ranks(Min(i + 1 + FILL_AHEAD, |es|))
  {
    RingMoves(ring[..], es, i);
    e := ring[i % FILL_AHEAD];
    asked' := asked;
    if i + FILL_AHEAD < |es| {
      asked' := asked + [i + FILL_AHEAD];
      ring[i % FILL_AHEAD] := es[i + FILL_AHEAD];
    }
  }

  /** Key `i` taken from the ring and placed. */
  method PlaceAhead(t: array<nat>, ring: array<Entry>, es: seq<Entry>, i: nat, asked: seq<nat>) returns (asked': seq<nat>)
    requires PowerOfTwo(t.Length) && i < |es| < t.Length && AllGood(es)
    requires t[..] == Filled(es, t.Length, i)
    requires RingHolds(ring[..], es, i) && asked == Ranks(Min(i + FILL_AHEAD, |es|))
    modifies t, ring
    ensures t[..] == Filled(es, t.Length, i + 1)
    ensures RingHolds(ring[..], es, i + 1) && asked' == Ranks(Min(i + 1 + FILL_AHEAD, |es|))
  {
    var e;
    e, asked' := TakeFromRing(ring, es, i, asked);
    Place(t, e);
  }

  /** The fill with questions put a ring's length ahead of the placing. */
  method FillHashAhead(t: array<nat>, es: seq<Entry>) returns (asked: seq<nat>)
    requires PowerOfTwo(t.Length) && |es| < t.Length && AllGood(es) && Zeroed(t)
    modifies t
    ensures t[..] == Filled(es, t.Length, |es|)
    ensures asked == Ranks(|es|)
  {
    var n := |es|;
    var ring;
    ring, asked := FillRing(es);
    assert t[..] == Filled(es, t.Length, 0);
    var i := 0;
    while i < n
      invariant 0 <= i <= n && asked == Ranks(Min(i + FILL_AHEAD, n))
      invariant RingHolds(ring[..], es, i)
      invariant t[..] == Filled(es, t.Length, i)
    {
      asked := PlaceAhead(t, ring, es, i, asked);
      i := i + 1;
    }
  }

  // ---------------------------------------------------------------- the racing fill

  /** A thread: the entry it is placing, the slot it will try next, and the end of its range. */
  datatype Thread = Thread(from: nat, next: nat, upto: nat, slot: nat, tried: nat)

  /** The shared table and the threads over it; `placed` records where each entry went. */
  datatype State = State(t: seq<nat>, threads: seq<Thread>, placed: map<nat, nat>)

  /** A thread that starts on its next entry tries that entry's home slot. */
  function AtHome(es: seq<Entry>, cap: nat, th: Thread): Thread
    requires cap > 0
  {
    if th.next < th.upto && th.next < |es| then th.(slot := Home(es[th.next], cap), tried := 0) else th
  }

  predicate Busy(th: Thread) { th.next < th.upto }

  /**
   One compare-exchange of thread `j`: an empty slot takes the thread's word, a taken one sends it to
   the next slot.
   */
  function Step(es: seq<Entry>, s: State, j: nat): State
    requires j < |s.threads| && Busy(s.threads[j]) && s.threads[j].upto <= |es| && AllGood(es)
    requires s.threads[j].slot < |s.t|
  {
    var th := s.threads[j];
    if s.t[th.slot] == 0 then
      var done := AtHome(es, |s.t|, th.(next := th.next + 1));
      State(s.t[th.slot := SlotWord(es[th.next])], s.threads[j := done], s.placed[th.next := th.slot])
    else
      var on := th.(slot := Masked(th.slot + 1, |s.t|), tried := th.tried + 1);
      s.(threads := s.threads[j := on])
  }

  /** A busy thread has met no empty slot between its entry's home and the slot it will try. */
  ghost predicate Probing(es: seq<Entry>, t: seq<nat>, th: Thread) {
    && th.from <= th.next <= th.upto <= |es|
    && (Busy(th) ==>
          var home := Home(es[th.next], if |t| > 0 then |t| else 1);
          && th.slot < |t| && th.tried < |t|
          && th.slot == (if home + th.tried < |t| then home + th.tried else home + th.tried - |t|)
          && Taken(t, home, th.slot))
  }

  /** The ranges of the threads share no entry. */
  ghost predicate Apart(threads: seq<Thread>) {
    forall j, k :: 0 <= j < k < |threads| ==> threads[j].upto <= threads[k].from
  }

  /** An entry is placed exactly when some thread is past it. */
  ghost predicate PlacedBy(threads: seq<Thread>, placed: map<nat, nat>) {
    && (forall j, i :: 0 <= j < |threads| && threads[j].from <= i < threads[j].next ==> i in placed)
    && (forall j, i :: 0 <= j < |threads| && threads[j].next <= i < threads[j].upto ==> i !in placed)
  }

  /** What every reachable state keeps. */
  ghost predicate Inv(es: seq<Entry>, s: State) {
    && AllGood(es) && |es| < |s.t|
    && Probed(es, s.t, s.placed)
    && Apart(s.threads)
    && PlacedBy(s.threads, s.placed)
    && AllProbing(es, s.t, s.threads)
  }

  ghost predicate AllProbing(es: seq<Entry>, t: seq<nat>, threads: seq<Thread>) {
    forall j :: 0 <= j < |threads| ==> Probing(es, t, threads[j])
  }

  /** The entry a busy thread holds, and so every entry, is not yet all placed: a slot is empty. */
  lemma {:induction false} PlacedBelow(placed: map<nat, nat>, n: nat)
    requires forall i :: i in placed ==> i < n
    ensures |placed| <= n
    decreases n
  {
    if n == 0 {
      assert placed.Keys == {};
      assert |placed| == |placed.Keys|;
    } else if n - 1 in placed {
      var rest := placed - {n - 1};
      PlacedBelow(rest, n - 1);
      assert rest.Keys == placed.Keys - {n - 1};
      assert |placed| == |placed.Keys| && |rest| == |rest.Keys|;
    } else {
      PlacedBelow(placed, n - 1);
    }
  }

  /** Every thread's probe finds an empty slot within one turn of the table. */
  lemma {:induction false} NotFull(es: seq<Entry>, s: State)
    requires Inv(es, s)
    ensures Full(s.t) < |s.t|
  {
    PlacedBelow(s.placed, |es|);
  }

  lemma {:induction false} NextIsUnplaced(es: seq<Entry>, s: State, j: nat)
    requires Inv(es, s) && j < |s.threads| && Busy(s.threads[j])
    ensures s.threads[j].next < |es| && s.threads[j].next !in s.placed
    ensures s.threads[j].slot < |s.t| && Taken(s.t, Home(es[s.threads[j].next], |s.t|), s.threads[j].slot)
  {
    assert Probing(es, s.t, s.threads[j]);
  }

  /** A thread's claim leaves every other thread's probe as it was. */
  lemma {:induction false} OthersProbing(es: seq<Entry>, t: seq<nat>, slot: nat, w: nat, th: Thread)
    requires Probing(es, t, th) && slot < |t| && w != 0
    ensures Probing(es, t[slot := w], th)
  {
    if Busy(th) { TakenStill(t, slot, w, Home(es[th.next], |t|), th.slot); }
  }

  lemma {:induction false} FreshProbing(es: seq<Entry>, t: seq<nat>, th: Thread)
    requires |t| > 0 && th.from <= th.next <= th.upto <= |es|
    ensures Probing(es, t, AtHome(es, |t|, th))
  {}

  /** A claim places one entry: its thread is past it, and no other thread's range holds it. */
  lemma {:induction false} ClaimPlacedBy(threads: seq<Thread>, placed: map<nat, nat>, j: nat, slot: nat, done: Thread)
    requires j < |threads| && Apart(threads) && PlacedBy(threads, placed)
    requires forall k :: 0 <= k < |threads| ==> threads[k].from <= threads[k].next <= threads[k].upto
    requires Busy(threads[j])
    requires done.from == threads[j].from && done.upto == threads[j].upto && done.next == threads[j].next + 1
    ensures Apart(threads[j := done]) && PlacedBy(threads[j := done], placed[threads[j].next := slot])
  {
    var i := threads[j].next;
    var after, now := threads[j := done], placed[i := slot];
    forall k, e | 0 <= k < |after| && after[k].next <= e < after[k].upto ensures e !in now {
      if k < j { assert threads[k].upto <= threads[j].from; }
      if j < k { assert threads[j].upto <= threads[k].from; }
    }
  }

  lemma {:induction false} ClaimProbing(es: seq<Entry>, t: seq<nat>, w: nat, u: seq<nat>, threads: seq<Thread>, j: nat, done: Thread)
    requires AllProbing(es, t, threads) && j < |threads| && threads[j].slot < |t|
    requires w != 0 && u == t[threads[j].slot := w]
    requires Probing(es, u, done)
    ensures AllProbing(es, u, threads[j := done])
  {
    var after := threads[j := done];
    forall k | 0 <= k < |after| ensures Probing(es, u, after[k]) {
      if k != j { OthersProbing(es, t, threads[j].slot, w, threads[k]); }
    }
  }

  lemma {:induction false} MoveProbing(es: seq<Entry>, t: seq<nat>, threads: seq<Thread>, j: nat, on: Thread)
    requires AllProbing(es, t, threads) && j < |threads|
    requires Probing(es, t, on)
    ensures AllProbing(es, t, threads[j := on])
  {}

  /** A thread that only moves on along its probe keeps its range and its place in it. */
  lemma {:induction false} MovePlacedBy(threads: seq<Thread>, placed: map<nat, nat>, j: nat, on: Thread)
    requires j < |threads| && Apart(threads) && PlacedBy(threads, placed)
    requires on.from == threads[j].from && on.next == threads[j].next && on.upto == threads[j].upto
    ensures Apart(threads[j := on]) && PlacedBy(threads[j := on], placed)
  {
    var after := threads[j := on];
    forall k | 0 <= k < |after| ensures
      after[k].from == threads[k].from && after[k].next == threads[k].next && after[k].upto == threads[k].upto {}
  }

  lemma {:induction false} RangesHold(es: seq<Entry>, t: seq<nat>, threads: seq<Thread>)
    requires AllProbing(es, t, threads)
    ensures forall k :: 0 <= k < |threads| ==> threads[k].from <= threads[k].next <= threads[k].upto <= |es|
  {
    forall k | 0 <= k < |threads| ensures threads[k].from <= threads[k].next <= threads[k].upto <= |es| {
      assert Probing(es, t, threads[k]);
    }
  }

  lemma {:induction false} ClaimTable(es: seq<Entry>, s: State, j: nat)
    requires Inv(es, s) && j < |s.threads| && Busy(s.threads[j])
    requires s.threads[j].upto <= |es| && s.threads[j].slot < |s.t| && s.t[s.threads[j].slot] == 0
    ensures Probed(es, Step(es, s, j).t, Step(es, s, j).placed)
  {
    NextIsUnplaced(es, s, j);
    PlaceKeeps(es, s.t, s.placed, s.threads[j].next, s.threads[j].slot);
  }

  lemma {:induction false} ClaimThreads(es: seq<Entry>, s: State, j: nat)
    requires AllGood(es) && AllProbing(es, s.t, s.threads)
    requires Apart(s.threads) && PlacedBy(s.threads, s.placed)
    requires j < |s.threads| && Busy(s.threads[j])
    requires s.threads[j].upto <= |es| && s.threads[j].slot < |s.t| && s.t[s.threads[j].slot] == 0
    ensures AllProbing(es, Step(es, s, j).t, Step(es, s, j).threads)
    ensures Apart(Step(es, s, j).threads) && PlacedBy(Step(es, s, j).threads, Step(es, s, j).placed)
  {
    var th := s.threads[j];
    RangesHold(es, s.t, s.threads);
    var w := SlotWord(es[th.next]);
    var u := s.t[th.slot := w];
    var done := AtHome(es, |u|, th.(next := th.next + 1));
    FreshProbing(es, u, th.(next := th.next + 1));
    ClaimProbing(es, s.t, w, u, s.threads, j, done);
    ClaimPlacedBy(s.threads, s.placed, j, th.slot, done);
  }

  /** The step of a thread whose slot is empty. */
  lemma {:induction false} ClaimKeeps(es: seq<Entry>, s: State, j: nat)
    requires Inv(es, s) && j < |s.threads| && Busy(s.threads[j])
    requires s.threads[j].upto <= |es| && s.threads[j].slot < |s.t| && s.t[s.threads[j].slot] == 0
    ensures Inv(es, Step(es, s, j))
  {
    ClaimTable(es, s, j);
    ClaimThreads(es, s, j);
  }

  lemma {:induction false} MovedProbing(es: seq<Entry>, s: State, j: nat) returns (on: Thread)
    requires Inv(es, s) && j < |s.threads| && Busy(s.threads[j])
    requires s.threads[j].slot < |s.t| && s.t[s.threads[j].slot] != 0
    ensures on == s.threads[j].(slot := Masked(s.threads[j].slot + 1, |s.t|), tried := s.threads[j].tried + 1)
    ensures Probing(es, s.t, on)
  {
    var th := s.threads[j];
    assert Probing(es, s.t, th);
    NotFull(es, s);
    TakenNext(s.t, Home(es[th.next], |s.t|), th.slot, th.tried);
    MaskedWraps(th.slot + 1, |s.t|);
    on := th.(slot := Masked(th.slot + 1, |s.t|), tried := th.tried + 1);
  }

  /** The step of a thread whose slot is taken. */
  lemma {:induction false} MoveKeeps(es: seq<Entry>, s: State, j: nat)
    requires Inv(es, s) && j < |s.threads| && Busy(s.threads[j])
    requires s.threads[j].upto <= |es| && s.threads[j].slot < |s.t| && s.t[s.threads[j].slot] != 0
    ensures Inv(es, Step(es, s, j))
  {
    var on := MovedProbing(es, s, j);
    MoveProbing(es, s.t, s.threads, j, on);
    MovePlacedBy(s.threads, s.placed, j, on);
  }

  /** Every step, of whichever thread, keeps the invariant. */
  lemma {:induction false} StepKeeps(es: seq<Entry>, s: State, j: nat)
    requires Inv(es, s) && j < |s.threads| && Busy(s.threads[j])
    ensures s.threads[j].slot < |s.t| && s.threads[j].upto <= |es| && Inv(es, Step(es, s, j))
  {
    assert Probing(es, s.t, s.threads[j]);
    if s.t[s.threads[j].slot] == 0 { ClaimKeeps(es, s, j); } else { MoveKeeps(es, s, j); }
  }

  // ---------------------------------------------------------------- runs

  /** A run under a schedule of threads; a thread with nothing left does nothing. */
  ghost function Run(es: seq<Entry>, s: State, schedule: seq<nat>): State
    requires Inv(es, s)
    decreases |schedule|
  {
    if schedule == [] then s
    else
      var j := schedule[0];
      if j < |s.threads| && Busy(s.threads[j]) then
        StepKeeps(es, s, j);
        Run(es, Step(es, s, j), schedule[1..])
      else Run(es, s, schedule[1..])
  }

  /** Under every schedule, every state reached keeps the invariant. */
  lemma {:induction false} RunKeeps(es: seq<Entry>, s: State, schedule: seq<nat>)
    requires Inv(es, s)
    ensures Inv(es, Run(es, s, schedule))
    decreases |schedule|
  {
    if schedule != [] {
      var j := schedule[0];
      if j < |s.threads| && Busy(s.threads[j]) {
        StepKeeps(es, s, j);
        RunKeeps(es, Step(es, s, j), schedule[1..]);
      } else {
        RunKeeps(es, s, schedule[1..]);
      }
    }
  }

  /** The probes a thread may still make: a turn of the table for each entry left, less those made. */
  ghost function WorkOf(th: Thread, cap: nat): int {
    if Busy(th) then (th.upto - th.next) * (cap + 1) - th.tried else 0
  }

  ghost function Work(threads: seq<Thread>, cap: nat): int {
    if threads == [] then 0 else Work(threads[..|threads| - 1], cap) + WorkOf(threads[|threads| - 1], cap)
  }

  lemma {:induction false} WorkAfter(threads: seq<Thread>, cap: nat, j: nat, th: Thread)
    requires j < |threads|
    ensures Work(threads[j := th], cap) == Work(threads, cap) - WorkOf(threads[j], cap) + WorkOf(th, cap)
  {
    var after := threads[j := th];
    if j == |threads| - 1 {
      assert after[..|threads| - 1] == threads[..|threads| - 1];
    } else {
      WorkAfter(threads[..|threads| - 1], cap, j, th);
      assert after[..|threads| - 1] == threads[..|threads| - 1][j := th];
    }
  }

  lemma {:induction false} WorkLeft(es: seq<Entry>, t: seq<nat>, threads: seq<Thread>)
    requires AllProbing(es, t, threads)
    ensures Work(threads, |t|) >= 0
  {
    if threads != [] {
      var init, th := threads[..|threads| - 1], threads[|threads| - 1];
      assert Probing(es, t, th);
      assert AllProbing(es, t, init) by {
        forall j | 0 <= j < |init| ensures Probing(es, t, init[j]) { assert init[j] == threads[j]; }
      }
      WorkLeft(es, t, init);
      if Busy(th) { TurnsLeft(th.upto - th.next, |t|, th.tried); }
    }
  }

  lemma {:induction false} TurnsLeft(n: nat, cap: nat, tried: nat)
    requires n > 0 && tried < cap
    ensures n * (cap + 1) - tried > (n - 1) * (cap + 1) >= 0
  {}

  /** Past one entry, or one slot further on for the same entry: less work is left. */
  lemma {:induction false} ThreadWorks(th: Thread, next: Thread, cap: nat)
    requires Busy(th) && th.tried < cap && next.upto == th.upto
    requires (next.next == th.next + 1 && (Busy(next) ==> next.tried == 0))
      || (next.next == th.next && next.tried == th.tried + 1)
    ensures WorkOf(next, cap) < WorkOf(th, cap)
  {
    var n := th.upto - th.next;
    TurnsLeft(n, cap, th.tried);
    assert (n - 1) * (cap + 1) == n * (cap + 1) - (cap + 1);
  }

  /** Every step of a busy thread uses up work: each probe, and so the whole fill, ends. */
  lemma {:induction false} StepWorks(es: seq<Entry>, s: State, j: nat)
    requires Inv(es, s) && j < |s.threads| && Busy(s.threads[j])
    ensures s.threads[j].slot < |s.t| && s.threads[j].upto <= |es|
    ensures Work(Step(es, s, j).threads, |s.t|) < Work(s.threads, |s.t|)
  {
    var th := s.threads[j];
    assert Probing(es, s.t, th);
    var next := Step(es, s, j).threads[j];
    assert Step(es, s, j).threads == s.threads[j := next];
    ThreadWorks(th, next, |s.t|);
    WorkAfter(s.threads, |s.t|, j, next);
  }

  /** How many steps of a run did something. */
  ghost function Steps(es: seq<Entry>, s: State, schedule: seq<nat>): nat
    requires Inv(es, s)
    decreases |schedule|
  {
    if schedule == [] then 0
    else
      var j := schedule[0];
      if j < |s.threads| && Busy(s.threads[j]) then
        StepKeeps(es, s, j);
        1 + Steps(es, Step(es, s, j), schedule[1..])
      else Steps(es, s, schedule[1..])
  }

  /** No schedule can make the threads take more steps than the work they start with. */
  lemma {:induction false} RunEnds(es: seq<Entry>, s: State, schedule: seq<nat>)
    requires Inv(es, s)
    ensures Steps(es, s, schedule) <= Work(s.threads, |s.t|)
    decreases |schedule|
  {
    if schedule == [] {
      WorkLeft(es, s.t, s.threads);
    } else {
      var j := schedule[0];
      if j < |s.threads| && Busy(s.threads[j]) {
        StepKeeps(es, s, j);
        StepWorks(es, s, j);
        RunEnds(es, Step(es, s, j), schedule[1..]);
      } else {
        RunEnds(es, s, schedule[1..]);
      }
    }
  }

  /** Every thread is through its range. */
  ghost predicate Finished(s: State) {
    forall j :: 0 <= j < |s.threads| ==> !Busy(s.threads[j])
  }

  ghost predicate InRange(threads: seq<Thread>, i: nat, j: nat) {
    j < |threads| && threads[j].from <= i < threads[j].upto
  }

  /** Some thread's range has entry `i`. */
  ghost predicate Dealt(threads: seq<Thread>, i: nat) {
    exists j: nat :: InRange(threads, i, j)
  }

  ghost predicate Covered(es: seq<Entry>, threads: seq<Thread>) {
    forall i: nat :: i < |es| ==> Dealt(threads, i)
  }

  /** However the threads raced, every entry is placed. */
  lemma {:induction false} RacedFills(es: seq<Entry>, s: State)
    requires Inv(es, s) && Finished(s) && Covered(es, s.threads)
    ensures FilledWith(s.t, es)
  {
    forall i: nat | i < |es| ensures i in s.placed {
      assert Dealt(s.threads, i);
      var j: nat :| InRange(s.threads, i, j);
      assert Probing(es, s.t, s.threads[j]);
    }
  }

  /** And the table they leave denotes exactly the map from keys to records. */
  lemma {:induction false} RacedDenotes(es: seq<Entry>, s: State, hash: bytes -> nat, rec: nat -> Option<bytes>)
    requires Inv(es, s) && Finished(s) && Covered(es, s.threads)
    requires Distinct(es) && Faithful(es, hash, rec)
    ensures Denotes(s.t, hash, rec, MapOf(es))
  {
    RacedFills(es, s);
    var placed: map<nat, nat> :| Probed(es, s.t, placed) && forall i :: 0 <= i < |es| ==> i in placed;
    ProbedDenotes(es, s.t, placed, hash, rec);
  }

  // ---------------------------------------------------------------- the start

  /** The ranges of `n` entries in parts of `per`, from part `k` on: each starts at its first entry. */
  function Parts(es: seq<Entry>, cap: nat, per: nat, from: nat, count: nat): (ths: seq<Thread>)
    requires per > 0 && cap > 0
    decreases count
  {
    if count == 0 || from >= |es| then []
    else
      var upto := if from + per < |es| then from + per else |es|;
      [AtHome(es, cap, Thread(from, from, upto, 0, 0))] + Parts(es, cap, per, upto, count - 1)
  }

  /** The empty table, and the entries dealt out in consecutive ranges. */
  function Start(es: seq<Entry>, cap: nat, threads: nat): State
    requires threads > 0 && cap > 0
  {
    State(seq(cap, i => 0), Parts(es, cap, if es == [] then 1 else DivCeil(|es|, threads), 0, threads), map[])
  }

  lemma {:induction false} PartsProbe(es: seq<Entry>, t: seq<nat>, per: nat, from: nat, count: nat)
    requires per > 0 && |t| > 0
    ensures var ths := Parts(es, |t|, per, from, count);
      && AllProbing(es, t, ths) && Apart(ths)
      && (forall j :: 0 <= j < |ths| ==> ths[j].next == ths[j].from && from <= ths[j].from)
    decreases count
  {
    if count > 0 && from < |es| {
      var upto := if from + per < |es| then from + per else |es|;
      PartsProbe(es, t, per, upto, count - 1);
      FreshProbing(es, t, Thread(from, from, upto, 0, 0));
    }
  }

  lemma {:induction false} PartsCover(es: seq<Entry>, cap: nat, per: nat, from: nat, count: nat, i: nat) returns (j: nat)
    requires per > 0 && cap > 0 && from <= i < |es| && |es| <= from + per * count
    ensures InRange(Parts(es, cap, per, from, count), i, j)
    decreases count
  {
    if from + per < |es| {
      assert per * count == per + per * (count - 1);
      if i < from + per {
        j := 0;
      } else {
        var k := PartsCover(es, cap, per, from + per, count - 1, i);
        j := k + 1;
      }
    } else {
      assert count == 0 ==> per * count == 0;
      j := 0;
    }
  }

  /** The start is a state every run may begin from, and its threads have every entry between them. */
  lemma {:induction false} StartKeeps(es: seq<Entry>, cap: nat, threads: nat)
    requires AllGood(es) && |es| < cap && PowerOfTwo(cap) && threads > 0
    ensures Inv(es, Start(es, cap, threads)) && Covered(es, Start(es, cap, threads).threads)
  {
    var s := Start(es, cap, threads);
    var per := if es == [] then 1 else DivCeil(|es|, threads);
    NothingProbed(es, s.t);
    PartsProbe(es, s.t, per, 0, threads);
    forall i: nat | i < |es| ensures Dealt(s.threads, i) {
      assert per * threads == threads * per;
      var j := PartsCover(es, cap, per, 0, threads, i);
    }
  }

  lemma {:induction false} StepCovers(es: seq<Entry>, s: State, j: nat)
    requires Inv(es, s) && Covered(es, s.threads) && j < |s.threads| && Busy(s.threads[j])
    requires s.threads[j].slot < |s.t| && s.threads[j].upto <= |es|
    ensures Covered(es, Step(es, s, j).threads)
  {
    var after := Step(es, s, j).threads;
    forall i: nat | i < |es| ensures Dealt(after, i) {
      assert Dealt(s.threads, i);
      var k: nat :| InRange(s.threads, i, k);
      assert InRange(after, i, k);
    }
  }

  lemma {:induction false} RunCovers(es: seq<Entry>, s: State, schedule: seq<nat>)
    requires Inv(es, s) && Covered(es, s.threads)
    ensures Covered(es, Run(es, s, schedule).threads)
    decreases |schedule|
  {
    if schedule != [] {
      var j := schedule[0];
      if j < |s.threads| && Busy(s.threads[j]) {
        StepKeeps(es, s, j);
        StepCovers(es, s, j);
        RunCovers(es, Step(es, s, j), schedule[1..]);
      } else {
        RunCovers(es, s, schedule[1..]);
      }
    }
  }

  /**
   Any number of threads, any schedule: when every thread is through its range, the table denotes the
   map the sequential fill's does. Threads that are not have a step to take, and only so many.
   */
  lemma {:induction false} RaceDenotes(es: seq<Entry>, cap: nat, threads: nat, schedule: seq<nat>,
    hash: bytes -> nat, rec: nat -> Option<bytes>)
    requires AllGood(es) && |es| < cap && PowerOfTwo(cap) && threads > 0
    requires Distinct(es) && Faithful(es, hash, rec)
    ensures Inv(es, Start(es, cap, threads))
    ensures var s := Run(es, Start(es, cap, threads), schedule);
      && Inv(es, s)
      && (Finished(s) ==> FilledWith(s.t, es) && Denotes(s.t, hash, rec, MapOf(es)))
    ensures Denotes(Filled(es, cap, |es|), hash, rec, MapOf(es))
    ensures var s := Start(es, cap, threads);
      Steps(es, s, schedule) <= Work(s.threads, cap)
  {
    StartKeeps(es, cap, threads);
    var start := Start(es, cap, threads);
    RunKeeps(es, start, schedule);
    RunCovers(es, start, schedule);
    RunEnds(es, start, schedule);
    var s := Run(es, start, schedule);
    if Finished(s) {
      RacedFills(es, s);
      RacedDenotes(es, s, hash, rec);
    }
    FilledDenotes(es, cap, hash, rec);
  }
}
