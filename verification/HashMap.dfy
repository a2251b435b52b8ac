/** The map a table stands for: the lookups against it, and the two single-slot updates. */
module HashMap {
  import opened Bytes
  import opened Wrappers
  import opened HashTable

  /** The key's word lies in slot `s`, every slot before it on the key's path taken. */
  ghost predicate FoundAt(t: seq<nat>, h: nat, off: nat, s: nat)
    requires h < U64 && off < U32
  {
    s < |t| && t[s] == Pack(h, off) && Taken(t, Masked(h, |t|), s)
  }

  /** What the table and the records behind it need of a key and its record's offset. */
  ghost predicate Kept(hash: bytes -> nat, rec: nat -> Option<bytes>, k: bytes, off: nat) {
    hash(k) < U64 && off < U32 && rec(off) == Some(k)
  }

  /** The key is found on its path. */
  ghost predicate Found(t: seq<nat>, hash: bytes -> nat, m: map<bytes, nat>, k: bytes) {
    k in m && hash(k) < U64 && m[k] < U32 && exists s :: FoundAt(t, hash(k), m[k], s)
  }

  /** The slot is some key's. */
  ghost predicate IsKeys(t: seq<nat>, hash: bytes -> nat, m: map<bytes, nat>, s: nat)
    requires s < |t|
  {
    exists k :: k in m && hash(k) < U64 && m[k] < U32 && t[s] == Pack(hash(k), m[k])
  }

  /**
   The table denotes the map: each key is found on its path, each taken slot is one key's, and no key
   has two. `rec` reads the key of the record at an offset.
   */
  ghost predicate Denotes(t: seq<nat>, hash: bytes -> nat, rec: nat -> Option<bytes>, m: map<bytes, nat>) {
    && PowerOfTwo(|t|)
    && (forall k :: k in m ==> Kept(hash, rec, k, m[k]))
    && (forall k {:trigger Found(t, hash, m, k)} :: k in m ==> Found(t, hash, m, k))
    && (forall s {:trigger IsKeys(t, hash, m, s)} :: 0 <= s < |t| && t[s] != 0 ==> IsKeys(t, hash, m, s))
    && (forall r, s :: 0 <= r < |t| && 0 <= s < |t| && t[r] != 0 && t[r] == t[s] ==> r == s)
  }

  /** Two keys' words differ: their records do. */
  lemma {:induction false} WordsDiffer(hash: bytes -> nat, rec: nat -> Option<bytes>, k: bytes, a: nat, q: bytes, b: nat)
    requires Kept(hash, rec, k, a) && Kept(hash, rec, q, b)
    requires Pack(hash(k), a) == Pack(hash(q), b)
    ensures k == q && a == b
  {}

  /** A slot whose tag and record match a key is that key's slot. */
  lemma {:induction false} MatchIsKey(t: seq<nat>, hash: bytes -> nat, rec: nat -> Option<bytes>, m: map<bytes, nat>, q: bytes, s: nat)
    requires Denotes(t, hash, rec, m) && s < |t| && t[s] != 0
    requires rec(t[s] % P56) == Some(q)
    ensures q in m && t[s] == Pack(hash(q), m[q])
  {
    assert IsKeys(t, hash, m, s);
    var k :| k in m && t[s] == Pack(hash(k), m[k]);
    assert Kept(hash, rec, k, m[k]);
  }

  /** Slot `s` is taken, and not by the key. */
  ghost predicate NotKey(t: seq<nat>, hash: bytes -> nat, rec: nat -> Option<bytes>, q: bytes, s: nat)
    requires s < |t| && hash(q) < U64
  {
    t[s] != 0 && !(t[s] / P56 == Tag(hash(q)) && rec(t[s] % P56) == Some(q))
  }

  lemma {:induction false} FoundIsKey(t: seq<nat>, hash: bytes -> nat, rec: nat -> Option<bytes>, q: bytes, off: nat, s: nat)
    requires Kept(hash, rec, q, off) && FoundAt(t, hash(q), off, s)
    ensures s < |t| && t[s] != 0 && !NotKey(t, hash, rec, q, s)
  {}

  /** A probe that reaches an empty slot without meeting the key: the key is absent. */
  lemma {:induction false} PathEnds(t: seq<nat>, hash: bytes -> nat, rec: nat -> Option<bytes>, m: map<bytes, nat>, q: bytes, s: nat)
    requires Denotes(t, hash, rec, m) && hash(q) < U64
    requires s < |t| && t[s] == 0
    requires forall r :: 0 <= r < |t| && Before(Masked(hash(q), |t|), s, r) ==> NotKey(t, hash, rec, q, r)
    ensures q !in m
  {
    if q in m {
      assert Kept(hash, rec, q, m[q]) && Found(t, hash, m, q);
      var r: nat :| FoundAt(t, hash(q), m[q], r);
      FoundIsKey(t, hash, rec, q, m[q], r);
      var home := Masked(hash(q), |t|);
      assert r != s && !Before(home, s, r);
      assert Before(home, r, s);
    }
  }

  /** A probe all the way round without meeting the key: the key is absent. */
  lemma {:induction false} RoundEnds(t: seq<nat>, hash: bytes -> nat, rec: nat -> Option<bytes>, m: map<bytes, nat>, q: bytes)
    requires Denotes(t, hash, rec, m) && hash(q) < U64
    requires forall r :: 0 <= r < |t| ==> NotKey(t, hash, rec, q, r)
    ensures q !in m
  {
    if q in m {
      assert Kept(hash, rec, q, m[q]) && Found(t, hash, m, q);
      var r: nat :| FoundAt(t, hash(q), m[q], r);
      FoundIsKey(t, hash, rec, q, m[q], r);
    }
  }

  // ---------------------------------------------------------------- reads

  /** The first `d` slots of the probe, up to `s`, are not the key's. */
  ghost predicate Missed(t: seq<nat>, hash: bytes -> nat, rec: nat -> Option<bytes>, q: bytes, s: nat, d: nat)
    requires hash(q) < U64
  {
    var home := Masked(hash(q), |t|);
    && d <= |t| && s < |t| && s == (if home + d < |t| then home + d else home + d - |t|)
    && (d < |t| ==> forall r :: 0 <= r < |t| && Before(home, s, r) ==> NotKey(t, hash, rec, q, r))
    && (d == |t| ==> forall r :: 0 <= r < |t| ==> NotKey(t, hash, rec, q, r))
  }

  lemma {:induction false} MissedNext(t: seq<nat>, hash: bytes -> nat, rec: nat -> Option<bytes>, q: bytes, s: nat, d: nat)
    requires hash(q) < U64 && d < |t| && Missed(t, hash, rec, q, s, d)
    requires NotKey(t, hash, rec, q, s)
    ensures Missed(t, hash, rec, q, Next(s, |t|), d + 1)
  {
    forall r | 0 <= r < |t| ensures
      && (d + 1 < |t| && Before(Masked(hash(q), |t|), Next(s, |t|), r) ==> NotKey(t, hash, rec, q, r))
      && (d + 1 == |t| ==> NotKey(t, hash, rec, q, r))
    {
      BeforeNext(Masked(hash(q), |t|), s, r, |t|);
    }
  }

  /** How a probe ended. */
  datatype Probe = Met(slot: nat) | Empty(slot: nat) | Round

  /**
   The probe every read of the table makes: the first slot on the key's path that is the key's, or
   empty, within one turn of the table.
   */
  method ProbeFor(t: seq<nat>, q: bytes, hash: bytes -> nat, rec: nat -> Option<bytes>, ghost m: map<bytes, nat>)
    returns (p: Probe)
    requires Denotes(t, hash, rec, m) && hash(q) < U64
    ensures p.Met? <==> q in m
    ensures p.Met? ==> p.slot < |t| && t[p.slot] == Pack(hash(q), m[q])
    ensures p.Empty? ==> Claims(t, hash(q), p.slot)
    ensures p.Round? ==> Full(t) == |t|
  {
    var tag := Tag(hash(q));
    var s, d := Masked(hash(q), |t|), 0;
    while d < |t|
      invariant Missed(t, hash, rec, q, s, d)
    {
      var w := t[s];
      if w == 0 {
        PathEnds(t, hash, rec, m, q, s);
        return Empty(s);
      }
      if w / P56 == tag && rec(w % P56) == Some(q) {
        MatchIsKey(t, hash, rec, m, q, s);
        return Met(s);
      }
      MaskedWraps(s + 1, |t|);
      MissedNext(t, hash, rec, q, s, d);
      d, s := d + 1, Masked(s + 1, |t|);
    }
    RoundEnds(t, hash, rec, m, q);
    forall r | 0 <= r < |t| ensures t[r] != 0 { assert NotKey(t, hash, rec, q, r); }
    NoneEmpty(t);
    p := Round;
  }

  /** The slot is the first empty one on the path from the hash's home. */
  ghost predicate Claims(t: seq<nat>, h: nat, s: nat) {
    s < |t| && t[s] == 0 && Taken(t, Masked(h, |t|), s)
  }

  /** `lookup_full`: where the key's record lies, or that there is none. */
  method Lookup(t: seq<nat>, q: bytes, hash: bytes -> nat, rec: nat -> Option<bytes>, ghost m: map<bytes, nat>)
    returns (off: Option<nat>)
    requires Denotes(t, hash, rec, m) && hash(q) < U64
    ensures off == if q in m then Some(m[q]) else None
  {
    var p := ProbeFor(t, q, hash, rec, m);
    if p.Met? {
      assert Kept(hash, rec, q, m[q]);
      return Some(t[p.slot] % P56);
    }
    off := None;
  }

  /** `slot_of`: the word to store into to republish a present key. */
  method SlotOf(t: seq<nat>, q: bytes, hash: bytes -> nat, rec: nat -> Option<bytes>, ghost m: map<bytes, nat>)
    returns (slot: Option<nat>)
    requires Denotes(t, hash, rec, m) && hash(q) < U64
    ensures slot.Some? <==> q in m
    ensures slot.Some? ==> slot.value < |t| && t[slot.value] == Pack(hash(q), m[q])
  {
    var p := ProbeFor(t, q, hash, rec, m);
    slot := if p.Met? then Some(p.slot) else None;
  }

  /** `slot_for_insert`: the empty slot an absent key would claim; `None` when present, or no slot is left. */
  method SlotForInsert(t: seq<nat>, q: bytes, hash: bytes -> nat, rec: nat -> Option<bytes>, ghost m: map<bytes, nat>)
    returns (slot: Option<nat>)
    requires Denotes(t, hash, rec, m) && hash(q) < U64
    ensures slot.Some? <==> q !in m && Full(t) < |t|
    ensures slot.Some? ==> Claims(t, hash(q), slot.value)
  {
    var p := ProbeFor(t, q, hash, rec, m);
    if p.Empty? {
      FullAfter(t, p.slot, 1);
      return Some(p.slot);
    }
    slot := None;
  }

  // ---------------------------------------------------------------- updates

  /** Filling an empty slot moves no key. */
  lemma {:induction false} StillFound(t: seq<nat>, s: nat, w: nat, h: nat, off: nat, e: nat)
    requires s < |t| && t[s] == 0 && w != 0 && h < U64 && off < U32
    requires FoundAt(t, h, off, e)
    ensures FoundAt(t[s := w], h, off, e)
  {}

  /** Storing another word over a taken slot moves no other key. */
  lemma {:induction false} StillTaken(t: seq<nat>, s: nat, w: nat, h: nat, off: nat, e: nat)
    requires s < |t| && t[s] != 0 && w != 0 && h < U64 && off < U32
    requires FoundAt(t, h, off, e) && e != s
    ensures FoundAt(t[s := w], h, off, e)
  {}

  /** A taken slot's key. */
  lemma {:induction false} OwnerOf(t: seq<nat>, hash: bytes -> nat, rec: nat -> Option<bytes>, m: map<bytes, nat>, s: nat)
    returns (k: bytes)
    requires Denotes(t, hash, rec, m) && s < |t| && t[s] != 0
    ensures k in m && Kept(hash, rec, k, m[k]) && t[s] == Pack(hash(k), m[k])
  {
    assert IsKeys(t, hash, m, s);
    k :| k in m && hash(k) < U64 && m[k] < U32 && t[s] == Pack(hash(k), m[k]);
  }

  /** A present key's slot. */
  lemma {:induction false} SlotOfKey(t: seq<nat>, hash: bytes -> nat, rec: nat -> Option<bytes>, m: map<bytes, nat>, k: bytes)
    returns (s: nat)
    requires Denotes(t, hash, rec, m) && k in m
    ensures Kept(hash, rec, k, m[k]) && FoundAt(t, hash(k), m[k], s)
  {
    assert Kept(hash, rec, k, m[k]) && Found(t, hash, m, k);
    s :| FoundAt(t, hash(k), m[k], s);
  }

  /** A word stored in a slot that was empty, or the same key's, leaves every other slot its owner's. */
  lemma {:induction false} OthersOwned(t: seq<nat>, hash: bytes -> nat, rec: nat -> Option<bytes>, m: map<bytes, nat>,
    q: bytes, rel: nat, s: nat, r: nat)
    requires Denotes(t, hash, rec, m) && Kept(hash, rec, q, rel)
    requires s < |t| && r < |t| && r != s && t[r] != 0
    requires q in m ==> Kept(hash, rec, q, m[q]) && t[s] == Pack(hash(q), m[q])
    ensures t[r] != Pack(hash(q), rel)
    ensures exists k :: k in m && k != q && Kept(hash, rec, k, m[k]) && t[r] == Pack(hash(k), m[k])
  {
    var k := OwnerOf(t, hash, rec, m, r);
    assert t[r] != t[s];
    assert k != q;
    if t[r] == Pack(hash(q), rel) { WordsDiffer(hash, rec, k, m[k], q, rel); }
  }

  /** The new table denotes the new map once each key is found in it. */
  lemma {:induction false} StoreDenotes(t: seq<nat>, hash: bytes -> nat, rec: nat -> Option<bytes>, m: map<bytes, nat>,
    q: bytes, rel: nat, s: nat, u: seq<nat>, after: map<bytes, nat>)
    requires Denotes(t, hash, rec, m) && Kept(hash, rec, q, rel) && s < |t|
    requires q in m ==> Kept(hash, rec, q, m[q]) && t[s] == Pack(hash(q), m[q])
    requires u == t[s := Pack(hash(q), rel)] && after == m[q := rel]
    requires forall k :: k in after ==> Kept(hash, rec, k, after[k])
    requires forall k {:trigger Found(u, hash, after, k)} :: k in after ==> Found(u, hash, after, k)
    ensures Denotes(u, hash, rec, after)
  {
    forall r | 0 <= r < |u| && r != s && u[r] != 0
      ensures u[r] != u[s] && IsKeys(u, hash, after, r)
    {
      OthersOwned(t, hash, rec, m, q, rel, s, r);
      var k :| k in m && k != q && Kept(hash, rec, k, m[k]) && t[r] == Pack(hash(k), m[k]);
      assert k in after;
    }
    assert q in after;
    assert IsKeys(u, hash, after, s);
  }

  /** `slot_value` stored at `slot_for_insert` adds that key and leaves every other as it was. */
  lemma {:induction false} InsertAdds(t: seq<nat>, hash: bytes -> nat, rec: nat -> Option<bytes>, m: map<bytes, nat>,
    q: bytes, rel: nat, s: nat)
    requires Denotes(t, hash, rec, m) && q !in m
    requires Kept(hash, rec, q, rel) && Claims(t, hash(q), s)
    ensures Denotes(t[s := Pack(hash(q), rel)], hash, rec, m[q := rel])
  {
    var u, after := t[s := Pack(hash(q), rel)], m[q := rel];
    forall k | k in after ensures Kept(hash, rec, k, after[k]) && Found(u, hash, after, k) {
      if k == q {
        assert FoundAt(u, hash(q), rel, s);
      } else {
        var e := SlotOfKey(t, hash, rec, m, k);
        StillFound(t, s, Pack(hash(q), rel), hash(k), m[k], e);
      }
    }
    StoreDenotes(t, hash, rec, m, q, rel, s, u, after);
  }

  /** `slot_value` stored at `slot_of` moves that key's record and leaves every other as it was. */
  lemma {:induction false} UpdateMoves(t: seq<nat>, hash: bytes -> nat, rec: nat -> Option<bytes>, m: map<bytes, nat>,
    q: bytes, rel: nat, s: nat)
    requires Denotes(t, hash, rec, m) && q in m && Kept(hash, rec, q, m[q])
    requires Kept(hash, rec, q, rel) && s < |t| && t[s] == Pack(hash(q), m[q])
    ensures Denotes(t[s := Pack(hash(q), rel)], hash, rec, m[q := rel])
  {
    var u, after := t[s := Pack(hash(q), rel)], m[q := rel];
    forall k | k in after ensures Kept(hash, rec, k, after[k]) && Found(u, hash, after, k) {
      var e := SlotOfKey(t, hash, rec, m, k);
      if k == q {
        OnlySlot(t, hash, rec, m, s, e);
        TakenStill(t, s, Pack(hash(q), rel), Masked(hash(q), |t|), s);
        assert FoundAt(u, hash(q), rel, s);
      } else {
        if e == s { WordsDiffer(hash, rec, k, m[k], q, m[q]); }
        StillTaken(t, s, Pack(hash(q), rel), hash(k), m[k], e);
      }
    }
    StoreDenotes(t, hash, rec, m, q, rel, s, u, after);
  }

  /** No key has two slots. */
  lemma {:induction false} OnlySlot(t: seq<nat>, hash: bytes -> nat, rec: nat -> Option<bytes>, m: map<bytes, nat>, r: nat, s: nat)
    requires Denotes(t, hash, rec, m) && r < |t| && s < |t| && t[r] != 0 && t[r] == t[s]
    ensures r == s
  {}

  // ---------------------------------------------------------------- a filled table's meaning

  /** No two entries of one key. */
  ghost predicate Distinct(es: seq<Entry>) {
    forall i, j :: 0 <= i < |es| && 0 <= j < |es| && es[i].key == es[j].key ==> i == j
  }

  /** The map a list of entries of distinct keys is. */
  ghost function MapOf(es: seq<Entry>): map<bytes, nat> {
    if es == [] then map[]
    else MapOf(es[..|es| - 1])[es[|es| - 1].key := es[|es| - 1].off]
  }

  lemma {:induction false} MapHolds(es: seq<Entry>, i: nat)
    requires Distinct(es) && i < |es|
    ensures es[i].key in MapOf(es) && MapOf(es)[es[i].key] == es[i].off
  {
    if i < |es| - 1 { MapHolds(es[..|es| - 1], i); }
  }

  lemma {:induction false} MapOnly(es: seq<Entry>, k: bytes) returns (i: nat)
    requires k in MapOf(es)
    ensures i < |es| && es[i].key == k
  {
    if es[|es| - 1].key == k {
      i := |es| - 1;
    } else {
      i := MapOnly(es[..|es| - 1], k);
    }
  }

  /** The entries are what the hash and the records say. */
  ghost predicate Faithful(es: seq<Entry>, hash: bytes -> nat, rec: nat -> Option<bytes>) {
    forall i :: 0 <= i < |es| ==> es[i].hash == hash(es[i].key) && Kept(hash, rec, es[i].key, es[i].off)
  }

  lemma {:induction false} EntryFound(es: seq<Entry>, t: seq<nat>, placed: map<nat, nat>, hash: bytes -> nat,
    rec: nat -> Option<bytes>, k: bytes)
    requires Probed(es, t, placed) && (forall i :: 0 <= i < |es| ==> i in placed)
    requires Distinct(es) && Faithful(es, hash, rec) && k in MapOf(es)
    ensures Kept(hash, rec, k, MapOf(es)[k]) && Found(t, hash, MapOf(es), k)
  {
    var i := MapOnly(es, k);
    MapHolds(es, i);
    assert t[placed[i]] == SlotWord(es[i]);
    assert FoundAt(t, hash(k), MapOf(es)[k], placed[i]);
  }

  lemma {:induction false} EntryOwns(es: seq<Entry>, t: seq<nat>, placed: map<nat, nat>, hash: bytes -> nat,
    rec: nat -> Option<bytes>, s: nat) returns (i: nat)
    requires Probed(es, t, placed) && Distinct(es) && Faithful(es, hash, rec)
    requires s < |t| && t[s] != 0
    ensures i in placed && placed[i] == s && i < |es| && es[i].key in MapOf(es)
    ensures MapOf(es)[es[i].key] == es[i].off && Kept(hash, rec, es[i].key, es[i].off)
    ensures t[s] == Pack(hash(es[i].key), es[i].off)
  {
    assert Owned(placed, s);
    i :| i in placed && placed[i] == s;
    MapHolds(es, i);
    assert t[placed[i]] == SlotWord(es[i]);
  }

  /** A table with every entry placed denotes exactly the map from keys to records. */
  lemma {:induction false} ProbedDenotes(es: seq<Entry>, t: seq<nat>, placed: map<nat, nat>, hash: bytes -> nat, rec: nat -> Option<bytes>)
    requires Probed(es, t, placed) && (forall i :: 0 <= i < |es| ==> i in placed)
    requires Distinct(es) && Faithful(es, hash, rec)
    ensures Denotes(t, hash, rec, MapOf(es))
  {
    var m := MapOf(es);
    forall k | k in m ensures Kept(hash, rec, k, m[k]) && Found(t, hash, m, k) {
      EntryFound(es, t, placed, hash, rec, k);
    }
    forall s | 0 <= s < |t| && t[s] != 0 ensures IsKeys(t, hash, m, s) {
      var i := EntryOwns(es, t, placed, hash, rec, s);
    }
    forall r, s | 0 <= r < |t| && 0 <= s < |t| && t[r] != 0 && t[r] == t[s] ensures r == s {
      var i := EntryOwns(es, t, placed, hash, rec, r);
      var j := EntryOwns(es, t, placed, hash, rec, s);
      WordsDiffer(hash, rec, es[i].key, es[i].off, es[j].key, es[j].off);
    }
  }

  /** Every entry is placed in the table: however it was filled. */
  ghost predicate FilledWith(table: seq<nat>, es: seq<Entry>) {
    exists placed: map<nat, nat> :: Probed(es, table, placed) && forall i :: 0 <= i < |es| ==> i in placed
  }
}
