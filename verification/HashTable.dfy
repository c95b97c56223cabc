/**
 The open-addressing hash table of kernel/hash.c: perturbed probing, tombstones, growing and
 shrinking, refining a finite map.

 Keys and values are pointers (0 is NULL).  `cmp` and `hfunc` are the two callbacks of the
 table; `cmp` must be an equivalence that `hfunc` respects.  `mem_alloc` may refuse any
 request, and refuses one that the kernel heap could not hold; the caller of each operation
 passes its answer as `grant`.
 */
module HashTable {
  import opened Arith
  import opened HashProbe
  import opened Wrappers

  type Ptr = int

  const NULL: Ptr := 0

  const HASH_MINSIZE: nat := 8

  /** Bytes of kernel heap below the 64 MB limit, and the size of a slot. */
  const HEAP_BYTES: nat := 0x400_0000
  const SLOT_BYTES: nat := 16

  datatype Mode = SlEmpty | SlActive | SlDeleted

  datatype Slot = Slot(key: Ptr, value: Ptr, hash: u32, mode: Mode)

  const EMPTY_SLOT := Slot(NULL, NULL, 0, SlEmpty)
  const DELETED_SLOT := Slot(NULL, NULL, 0, SlDeleted)

  // ----- what a correct table is

  ghost predicate Equivalence(cmp: (Ptr, Ptr) -> bool) {
    && (forall x :: cmp(x, x))
    && (forall x, y :: cmp(x, y) ==> cmp(y, x))
    && (forall x, y, z :: cmp(x, y) && cmp(y, z) ==> cmp(x, z))
  }

  ghost predicate Compatible(hfunc: Ptr -> u32, cmp: (Ptr, Ptr) -> bool) {
    forall x, y :: cmp(x, y) ==> hfunc(x) == hfunc(y)
  }

  /** The n-th probe for `hash` is slot p and no empty slot comes before it. */
  ghost predicate Reaches(t: seq<Slot>, hash: u32, p: nat, n: nat)
    requires 1 <= |t| <= WORD
  {
    && Probe(hash, |t|, n) == p
    && forall m: nat :: m < n ==> t[Probe(hash, |t|, m)].mode != SlEmpty
  }

  ghost predicate Placed(t: seq<Slot>, p: nat, hfunc: Ptr -> u32)
    requires p < |t| <= WORD
  {
    && t[p].hash == hfunc(t[p].key)
    && exists n: nat :: Reaches(t, t[p].hash, p, n)
  }

  ghost predicate KeysDiffer(t: seq<Slot>, cmp: (Ptr, Ptr) -> bool) {
    forall p, q :: 0 <= p < |t| && 0 <= q < |t| && p != q && t[p].mode.SlActive? && t[q].mode.SlActive?
                   ==> !cmp(t[p].key, t[q].key)
  }

  ghost predicate Good(t: seq<Slot>, hfunc: Ptr -> u32, cmp: (Ptr, Ptr) -> bool) {
    && TableSize(|t|)
    && 8 <= |t| <= WORD
    && KeysDiffer(t, cmp)
    && forall p :: 0 <= p < |t| && t[p].mode.SlActive? ==> Placed(t, p, hfunc)
  }

  /** The finite map a table stands for: the stored keys with their values. */
  ghost function Model(t: seq<Slot>, cmp: (Ptr, Ptr) -> bool): (m: map<Ptr, Ptr>)
    requires Equivalence(cmp) && KeysDiffer(t, cmp)
  {
    map p | 0 <= p < |t| && t[p].mode.SlActive? :: t[p].key := t[p].value
  }

  /** Slot p is active and holds key k. */
  ghost predicate Holds(t: seq<Slot>, p: int, k: Ptr) {
    0 <= p < |t| && t[p].mode == SlActive && t[p].key == k
  }

  lemma ModelIs(t: seq<Slot>, cmp: (Ptr, Ptr) -> bool)
    requires Equivalence(cmp) && KeysDiffer(t, cmp)
    ensures forall k :: k in Model(t, cmp) <==> exists p :: Holds(t, p, k)
    ensures forall p, k :: Holds(t, p, k) ==> k in Model(t, cmp) && Model(t, cmp)[k] == t[p].value
  {
    var m := Model(t, cmp);
    forall p, k | Holds(t, p, k)
      ensures k in m && m[k] == t[p].value
    {
      assert t[p].key in m;
    }
    forall k | k in m
      ensures exists p :: Holds(t, p, k)
    {
      var p :| 0 <= p < |t| && t[p].mode.SlActive? && t[p].key == k;
      assert Holds(t, p, k);
    }
  }

  /** Tables that hold the same keys with the same values stand for the same map. */
  lemma SameModel(t: seq<Slot>, cmp: (Ptr, Ptr) -> bool, m: map<Ptr, Ptr>)
    requires Equivalence(cmp) && KeysDiffer(t, cmp)
    requires forall k :: k in m ==> exists p :: Holds(t, p, k)
    requires forall p, k :: Holds(t, p, k) ==> k in m && m[k] == t[p].value
    ensures Model(t, cmp) == m
  {
    ModelIs(t, cmp);
    var m' := Model(t, cmp);
    assert forall k :: k in m <==> k in m';
    forall k | k in m ensures m[k] == m'[k] {
      var p :| Holds(t, p, k);
    }
  }

  /** What a map keyed up to `cmp` holds for a key. */
  ghost function Find(m: map<Ptr, Ptr>, cmp: (Ptr, Ptr) -> bool, key: Ptr): Option<Ptr> {
    if exists k :: k in m && cmp(k, key) then
      var k :| k in m && cmp(k, key);
      Some(m[k])
    else None
  }

  ghost predicate KeyedUpTo(m: map<Ptr, Ptr>, cmp: (Ptr, Ptr) -> bool) {
    forall k, l :: k in m && l in m && cmp(k, l) ==> k == l
  }

  // ----- counting slots by mode

  function Count(t: seq<Slot>, mode: Mode): nat {
    if t == [] then 0
    else Count(t[..|t| - 1], mode) + (if t[|t| - 1].mode == mode then 1 else 0)
  }

  lemma {:induction false} CountUpdate(t: seq<Slot>, i: nat, s: Slot, mode: Mode)
    requires i < |t|
    ensures Count(t[i := s], mode)
         == Count(t, mode) - (if t[i].mode == mode then 1 else 0) + (if s.mode == mode then 1 else 0)
  {
    var u, n := t[i := s], |t| - 1;
    if i < n {
      CountUpdate(t[..n], i, s, mode);
      assert u[..n] == t[..n][i := s];
    } else {
      assert u[..n] == t[..n];
    }
  }

  lemma {:induction false} CountsAddUp(t: seq<Slot>)
    ensures Count(t, SlEmpty) + Count(t, SlActive) + Count(t, SlDeleted) == |t|
  {
    if t != [] {
      CountsAddUp(t[..|t| - 1]);
    }
  }

  lemma {:induction false} FindByCount(t: seq<Slot>, mode: Mode) returns (p: nat)
    requires Count(t, mode) > 0
    ensures p < |t| && t[p].mode == mode
  {
    var n := |t| - 1;
    if t[n].mode == mode {
      p := n;
    } else {
      p := FindByCount(t[..n], mode);
    }
  }

  lemma NoDeleted(t: seq<Slot>, p: nat)
    requires p < |t| && Count(t, SlDeleted) == 0
    ensures t[p].mode != SlDeleted
  {
    CountUpdate(t, p, EMPTY_SLOT, SlDeleted);
  }

  lemma {:induction false} CountMonotone(t: seq<Slot>, i: nat, mode: Mode)
    requires i <= |t|
    ensures Count(t[..i], mode) <= Count(t, mode)
  {
    if i < |t| {
      CountMonotone(t[..|t| - 1], i, mode);
      assert t[..|t| - 1][..i] == t[..i];
    } else {
      assert t[..i] == t;
    }
  }

  lemma {:induction false} CountAll(t: seq<Slot>, mode: Mode)
    requires forall p :: 0 <= p < |t| ==> t[p].mode == mode
    ensures forall m: Mode :: Count(t, m) == if m == mode then |t| else 0
  {
    if t != [] {
      CountAll(t[..|t| - 1], mode);
    }
  }

  // ----- the three ways an operation changes the table

  lemma PlacedKept(t: seq<Slot>, i: nat, s: Slot, p: nat, hfunc: Ptr -> u32)
    requires i < |t| && p < |t| <= WORD && p != i
    requires s.mode != SlEmpty
    requires Placed(t, p, hfunc)
    ensures Placed(t[i := s], p, hfunc)
  {
    var n: nat :| Reaches(t, t[p].hash, p, n);
    assert Reaches(t[i := s], t[p].hash, p, n);
  }

  lemma OverwriteGood(t: seq<Slot>, i: nat, value: Ptr, hfunc: Ptr -> u32, cmp: (Ptr, Ptr) -> bool)
    requires Good(t, hfunc, cmp)
    requires i < |t| && t[i].mode == SlActive
    ensures Good(t[i := t[i].(value := value)], hfunc, cmp)
  {
    var u := t[i := t[i].(value := value)];
    assert forall p :: 0 <= p < |t| ==> u[p].mode == t[p].mode && u[p].key == t[p].key && u[p].hash == t[p].hash;
    forall p | 0 <= p < |u| && u[p].mode.SlActive?
      ensures Placed(u, p, hfunc)
    {
      assert Placed(t, p, hfunc);
      var n: nat :| Reaches(t, t[p].hash, p, n);
      assert Reaches(u, u[p].hash, p, n);
    }
  }

  lemma Overwrite(t: seq<Slot>, i: nat, value: Ptr, hfunc: Ptr -> u32, cmp: (Ptr, Ptr) -> bool)
    requires Equivalence(cmp) && Good(t, hfunc, cmp)
    requires i < |t| && t[i].mode == SlActive
    ensures Good(t[i := t[i].(value := value)], hfunc, cmp)
    ensures t[i].key in Model(t, cmp)
    ensures Model(t[i := t[i].(value := value)], cmp) == Model(t, cmp)[t[i].key := value]
  {
    var u := t[i := t[i].(value := value)];
    OverwriteGood(t, i, value, hfunc, cmp);
    ModelIs(t, cmp);
    assert Holds(t, i, t[i].key);
    assert forall p, k :: Holds(t, p, k) <==> Holds(u, p, k);
    var m := Model(t, cmp)[t[i].key := value];
    forall k | k in m ensures exists p :: Holds(u, p, k) {
      var p :| Holds(t, p, k);
      assert Holds(u, p, k);
    }
    forall p, k | Holds(u, p, k) ensures k in m && m[k] == u[p].value {
      assert Holds(t, p, k);
      assert p != i ==> !cmp(t[p].key, t[i].key) && cmp(t[i].key, t[i].key);
    }
    SameModel(u, cmp, m);
  }

  lemma Insert(t: seq<Slot>, i: nat, n: nat, key: Ptr, value: Ptr, hfunc: Ptr -> u32, cmp: (Ptr, Ptr) -> bool)
    requires Equivalence(cmp) && Good(t, hfunc, cmp)
    requires i < |t| && !t[i].mode.SlActive?
    requires Reaches(t, hfunc(key), i, n)
    requires forall k :: k in Model(t, cmp) ==> !cmp(k, key)
    ensures Good(t[i := Slot(key, value, hfunc(key), SlActive)], hfunc, cmp)
    ensures Model(t[i := Slot(key, value, hfunc(key), SlActive)], cmp) == Model(t, cmp)[key := value]
  {
    var u := t[i := Slot(key, value, hfunc(key), SlActive)];
    var m := Model(t, cmp);
    ModelIs(t, cmp);
    forall p | 0 <= p < |t| && t[p].mode.SlActive?
      ensures Holds(t, p, t[p].key) && !cmp(t[p].key, key) && !cmp(key, t[p].key)
    {
      assert Holds(t, p, t[p].key);
    }
    assert KeysDiffer(u, cmp);
    forall p | 0 <= p < |u| && u[p].mode.SlActive?
      ensures Placed(u, p, hfunc)
    {
      if p == i {
        assert Reaches(u, hfunc(key), i, n);
      } else {
        PlacedKept(t, i, u[i], p, hfunc);
      }
    }
    var m' := m[key := value];
    forall k | k in m' ensures exists p :: Holds(u, p, k) {
      if k == key {
        assert Holds(u, i, k);
      } else {
        var p :| Holds(t, p, k);
        assert Holds(u, p, k);
      }
    }
    forall p, k | Holds(u, p, k) ensures k in m' && m'[k] == u[p].value {
      if p != i {
        assert Holds(t, p, k) && cmp(key, key);
      }
    }
    SameModel(u, cmp, m');
  }

  lemma Erase(t: seq<Slot>, i: nat, hfunc: Ptr -> u32, cmp: (Ptr, Ptr) -> bool)
    requires Equivalence(cmp) && Good(t, hfunc, cmp)
    requires i < |t| && t[i].mode == SlActive
    ensures Good(t[i := DELETED_SLOT], hfunc, cmp)
    ensures Model(t[i := DELETED_SLOT], cmp) == Model(t, cmp) - {t[i].key}
  {
    var u := t[i := DELETED_SLOT];
    forall p | 0 <= p < |u| && u[p].mode.SlActive?
      ensures Placed(u, p, hfunc)
    {
      PlacedKept(t, i, u[i], p, hfunc);
    }
    ModelIs(t, cmp);
    var m := Model(t, cmp) - {t[i].key};
    forall k | k in m ensures exists p :: Holds(u, p, k) {
      var p :| Holds(t, p, k);
      assert Holds(u, p, k);
    }
    forall p, k | Holds(u, p, k) ensures k in m && m[k] == u[p].value {
      assert Holds(t, p, k);
      assert !cmp(t[p].key, t[i].key) && cmp(k, k);
    }
    SameModel(u, cmp, m);
  }

  /** The first n probes for `key` met neither an empty slot nor an equal key. */
  ghost predicate Passed(t: seq<Slot>, key: Ptr, hash: u32, n: nat, cmp: (Ptr, Ptr) -> bool)
    requires 1 <= |t| <= WORD
  {
    forall m: nat :: m < n ==>
                       var s := t[Probe(hash, |t|, m)];
                       s.mode != SlEmpty && !(s.mode == SlActive && cmp(s.key, key))
  }

  /** Probing up to an empty slot without meeting `key` shows that no slot holds it. */
  lemma MissingKey(t: seq<Slot>, key: Ptr, n: nat, hfunc: Ptr -> u32, cmp: (Ptr, Ptr) -> bool)
    requires Equivalence(cmp) && Compatible(hfunc, cmp) && Good(t, hfunc, cmp)
    requires t[Probe(hfunc(key), |t|, n)].mode == SlEmpty
    requires Passed(t, key, hfunc(key), n, cmp)
    ensures forall k :: k in Model(t, cmp) ==> !cmp(k, key)
  {
    ModelIs(t, cmp);
    forall k | k in Model(t, cmp)
      ensures !cmp(k, key)
    {
      var p :| Holds(t, p, k);
      NotPassed(t, p, key, n, hfunc, cmp);
    }
  }

  /** An active slot lies before the first empty one on the probe path of its key. */
  lemma NotPassed(t: seq<Slot>, p: nat, key: Ptr, n: nat, hfunc: Ptr -> u32, cmp: (Ptr, Ptr) -> bool)
    requires Compatible(hfunc, cmp) && Good(t, hfunc, cmp) && p < |t| && t[p].mode == SlActive
    requires t[Probe(hfunc(key), |t|, n)].mode == SlEmpty
    requires Passed(t, key, hfunc(key), n, cmp)
    ensures !cmp(t[p].key, key)
  {
    assert Placed(t, p, hfunc);
    hide Probe, TableSize, KeysDiffer;
    var m: nat :| Reaches(t, t[p].hash, p, m);
  }

  /** The test of the lookup loop on an active slot. */
  predicate Matches(s: Slot, key: Ptr, hash: u32, cmp: (Ptr, Ptr) -> bool) {
    s.key == key || (s.hash == hash && cmp(s.key, key))
  }

  /** On an active slot that test decides `cmp`. */
  lemma MatchTest(t: seq<Slot>, key: Ptr, hfunc: Ptr -> u32, cmp: (Ptr, Ptr) -> bool)
    requires Equivalence(cmp) && Compatible(hfunc, cmp) && Good(t, hfunc, cmp)
    ensures forall p :: 0 <= p < |t| && t[p].mode == SlActive ==>
                          (Matches(t[p], key, hfunc(key), cmp) <==> cmp(t[p].key, key))
  {
    forall p | 0 <= p < |t| && t[p].mode == SlActive
      ensures Matches(t[p], key, hfunc(key), cmp) <==> cmp(t[p].key, key)
    {
      assert Placed(t, p, hfunc);
    }
  }

  /** Where the loop of `hash_lookup` returns: at an empty slot, or at an active one that passes the test. */
  predicate StopsAt(t: seq<Slot>, key: Ptr, hash: u32, n: nat, cmp: (Ptr, Ptr) -> bool)
    requires 1 <= |t| <= WORD
  {
    var s := t[Probe(hash, |t|, n)];
    s.mode == SlEmpty || (s.mode == SlActive && Matches(s, key, hash, cmp))
  }

  /** A slot that ends the search for a key. */
  predicate Ending(s: Slot, key: Ptr, cmp: (Ptr, Ptr) -> bool) {
    s.mode == SlEmpty || (s.mode == SlActive && cmp(s.key, key))
  }

  /** The loop ends, and within size + 7 probes, if and only if some slot is empty or holds an equal key. */
  lemma LookupEnds(t: seq<Slot>, key: Ptr, hfunc: Ptr -> u32, cmp: (Ptr, Ptr) -> bool)
    requires Equivalence(cmp) && Compatible(hfunc, cmp) && Good(t, hfunc, cmp)
    ensures (exists p :: 0 <= p < |t| && Ending(t[p], key, cmp)) <==> exists n: nat :: StopsAt(t, key, hfunc(key), n, cmp)
    ensures (exists p :: 0 <= p < |t| && Ending(t[p], key, cmp)) ==>
              exists n: nat :: n < |t| + 7 && StopsAt(t, key, hfunc(key), n, cmp)
  {
    MatchTest(t, key, hfunc, cmp);
    if p :| 0 <= p < |t| && Ending(t[p], key, cmp) {
      var n := ProbeHits(hfunc(key), |t|, p);
      assert StopsAt(t, key, hfunc(key), n, cmp);
    }
    if n: nat :| StopsAt(t, key, hfunc(key), n, cmp) {
      assert Ending(t[Probe(hfunc(key), |t|, n)], key, cmp);
    }
  }

  /** A slot that ends the search, as the counts and the map tell. */
  lemma EndingIs(t: seq<Slot>, key: Ptr, cmp: (Ptr, Ptr) -> bool)
    requires Equivalence(cmp) && KeysDiffer(t, cmp)
    ensures (exists p :: 0 <= p < |t| && Ending(t[p], key, cmp)) <==>
            Count(t, SlActive) + Count(t, SlDeleted) < |t| || exists k :: k in Model(t, cmp) && cmp(k, key)
  {
    CountsAddUp(t);
    ModelIs(t, cmp);
    if p :| 0 <= p < |t| && Ending(t[p], key, cmp) {
      if t[p].mode == SlEmpty {
        CountUpdate(t, p, DELETED_SLOT, SlEmpty);
      } else {
        assert Holds(t, p, t[p].key);
      }
    }
    if Count(t, SlEmpty) > 0 {
      var e := FindByCount(t, SlEmpty);
      assert Ending(t[e], key, cmp);
    }
    if k :| k in Model(t, cmp) && cmp(k, key) {
      var p :| Holds(t, p, k);
      assert Ending(t[p], key, cmp);
    }
  }

  /** The probe path of a hash meets a tombstone before an empty slot: a new key goes there. */
  ghost predicate Reuses(t: seq<Slot>, hash: u32)
    requires 1 <= |t| <= WORD
  {
    exists p, n: nat :: 0 <= p < |t| && t[p].mode == SlDeleted && Reaches(t, hash, p, n)
  }

  /** The free slot a probe settles on tells whether a tombstone came first. */
  lemma FreeSlotIs(t: seq<Slot>, hash: u32, slot: nat, n: nat, steps: nat)
    requires 1 <= |t| <= WORD && slot < |t| && t[slot].mode != SlActive && Reaches(t, hash, slot, n)
    requires t[Probe(hash, |t|, steps)].mode == SlEmpty
    requires t[slot].mode == SlEmpty ==> n == steps && forall m: nat :: m < n ==> t[Probe(hash, |t|, m)].mode != SlDeleted
    ensures t[slot].mode == SlDeleted <==> Reuses(t, hash)
  {
    hide Probe;
  }

  lemma NoTombstones(t: seq<Slot>, hash: u32)
    requires 1 <= |t| <= WORD && Count(t, SlDeleted) == 0
    ensures !Reuses(t, hash)
  {
    if p :| 0 <= p < |t| && t[p].mode == SlDeleted {
      NoDeleted(t, p);
    }
  }

  /** A table of empty slots. */
  lemma EmptyTable(t: seq<Slot>, hfunc: Ptr -> u32, cmp: (Ptr, Ptr) -> bool)
    requires TableSize(|t|)
    requires Equivalence(cmp)
    requires forall p :: 0 <= p < |t| ==> t[p] == EMPTY_SLOT
    ensures Good(t, hfunc, cmp) && Model(t, cmp) == map[]
    ensures Count(t, SlActive) == Count(t, SlDeleted) == 0
  {
    CountAll(t, SlEmpty);
    var q := TableSizeFits(|t|);
  }

  /** The size `hash_update` asks for. */
  function NewSize(fill: int, count: int, size: nat): nat {
    if 3 * fill >= 2 * size then 2 * size
    else if size > HASH_MINSIZE && 4 * count <= size then size / 2
    else size
  }

  /** Whether `hash_update` gets the memory it asks for, if it asks for any. */
  predicate Affords(fill: int, count: int, size: nat, grant: bool) {
    NewSize(fill, count, size) == size || (grant && NewSize(fill, count, size) * SLOT_BYTES <= HEAP_BYTES)
  }

  /** The new size is a table size with the active keys in less than two thirds of it. */
  lemma NewSizeOk(t: seq<Slot>, hfunc: Ptr -> u32, cmp: (Ptr, Ptr) -> bool, fill: int, count: int)
    requires Good(t, hfunc, cmp) && count == Count(t, SlActive) && fill == count + Count(t, SlDeleted)
    requires NewSize(fill, count, |t|) * SLOT_BYTES <= HEAP_BYTES
    ensures var size := NewSize(fill, count, |t|); TableSize(size) && size >= 8 && 3 * count < 2 * size
    ensures forall p :: 0 <= p < |t| && t[p].mode == SlActive ==> t[p].hash == hfunc(t[p].key)
  {
    CountsAddUp(t);
    var newSize := NewSize(fill, count, |t|);
    var k: nat :| 3 <= k <= 32 && |t| == Pow2(k);
    assert Pow2(3) == 8;
    if newSize == 2 * |t| {
      if k == 32 {
        Pow2Of32();
      }
      assert newSize == Pow2(k + 1);
    } else if newSize != |t| {
      assert newSize == Pow2(k - 1);
    }
    var q := TableSizeFits(newSize);
    forall p | 0 <= p < |t| && t[p].mode == SlActive
      ensures t[p].hash == hfunc(t[p].key)
    {
      assert Placed(t, p, hfunc);
    }
  }

  lemma OverwriteCounts(t: seq<Slot>, i: nat, value: Ptr)
    requires i < |t|
    ensures forall m: Mode :: Count(t[i := t[i].(value := value)], m) == Count(t, m)
  {
    forall m: Mode ensures Count(t[i := t[i].(value := value)], m) == Count(t, m) {
      CountUpdate(t, i, t[i].(value := value), m);
    }
  }

  /** Looking at one more slot of the old table. */
  lemma CopyStep(o: seq<Slot>, i: nat, cmp: (Ptr, Ptr) -> bool)
    requires i < |o| && Equivalence(cmp) && KeysDiffer(o, cmp)
    ensures KeysDiffer(o[..i], cmp) && KeysDiffer(o[..i + 1], cmp)
    ensures o[i].mode == SlActive ==> Model(o[..i + 1], cmp) == Model(o[..i], cmp)[o[i].key := o[i].value]
    ensures o[i].mode == SlActive ==> forall k :: k in Model(o[..i], cmp) ==> !cmp(k, o[i].key)
    ensures o[i].mode != SlActive ==> Model(o[..i + 1], cmp) == Model(o[..i], cmp)
  {
    var a, b := o[..i], o[..i + 1];
    ModelIs(a, cmp);
    var m := if o[i].mode == SlActive then Model(a, cmp)[o[i].key := o[i].value] else Model(a, cmp);
    forall k | k in m ensures exists p :: Holds(b, p, k) {
      if o[i].mode == SlActive && k == o[i].key {
        assert Holds(b, i, k);
      } else {
        var p :| Holds(a, p, k);
        assert Holds(b, p, k);
      }
    }
    forall p, k | Holds(b, p, k) ensures k in m && m[k] == b[p].value {
      if p < i {
        assert Holds(a, p, k) && cmp(k, k);
      }
    }
    SameModel(b, cmp, m);
  }

  // ----- what set and del mean for every key, over the finite map

  lemma ModelKeyedUpTo(t: seq<Slot>, cmp: (Ptr, Ptr) -> bool)
    requires Equivalence(cmp) && KeysDiffer(t, cmp)
    ensures KeyedUpTo(Model(t, cmp), cmp)
  {
  }

  /** The map after `hash_set`: the old key is kept when an equal one is present. */
  ghost function Updated(m: map<Ptr, Ptr>, cmp: (Ptr, Ptr) -> bool, key: Ptr, value: Ptr): map<Ptr, Ptr> {
    if exists k :: k in m && cmp(k, key) then
      var k :| k in m && cmp(k, key);
      m[k := value]
    else m[key := value]
  }

  lemma UpdatedAt(m: map<Ptr, Ptr>, cmp: (Ptr, Ptr) -> bool, key: Ptr, value: Ptr, k: Ptr)
    requires Equivalence(cmp) && KeyedUpTo(m, cmp)
    requires k in m && cmp(k, key)
    ensures Updated(m, cmp, key, value) == m[k := value]
  {
    var l :| l in m && cmp(l, key) && Updated(m, cmp, key, value) == m[l := value];
    assert cmp(key, k) && cmp(l, k);
  }

  /** The map after `hash_del`. */
  ghost function Removed(m: map<Ptr, Ptr>, cmp: (Ptr, Ptr) -> bool, key: Ptr): map<Ptr, Ptr> {
    map k | k in m && !cmp(k, key) :: m[k]
  }

  lemma RemovedOne(m: map<Ptr, Ptr>, cmp: (Ptr, Ptr) -> bool, key: Ptr, k: Ptr)
    requires Equivalence(cmp) && KeyedUpTo(m, cmp)
    requires k in m && cmp(k, key)
    ensures Removed(m, cmp, key) == m - {k}
  {
    forall l | l in m ensures cmp(l, key) <==> l == k {
      if cmp(l, key) {
        assert cmp(key, k) by { assert cmp(k, key); }
        assert cmp(l, k);
      }
    }
  }

  lemma FindAfterSet(m: map<Ptr, Ptr>, cmp: (Ptr, Ptr) -> bool, key: Ptr, value: Ptr, other: Ptr)
    requires Equivalence(cmp) && KeyedUpTo(m, cmp)
    ensures KeyedUpTo(Updated(m, cmp, key, value), cmp)
    ensures Find(Updated(m, cmp, key, value), cmp, other)
         == if cmp(key, other) then Some(value) else Find(m, cmp, other)
  {
    var m' := Updated(m, cmp, key, value);
    assert forall k :: k in m' && !cmp(k, key) ==> k in m && m'[k] == m[k];
    assert forall k :: k in m && !cmp(k, key) ==> k in m' && m'[k] == m[k];
    var k0 := key;
    if exists k :: k in m && cmp(k, key) {
      k0 :| k0 in m && cmp(k0, key);
    }
    assert k0 in m' && cmp(k0, key) && m'[k0] == value;
    if cmp(key, other) {
      assert cmp(k0, other);
    } else if exists k :: k in m && cmp(k, other) {
      var k :| k in m && cmp(k, other);
      assert cmp(other, k) && !cmp(k, key);
      assert k in m';
    }
  }

  lemma FindAfterDel(m: map<Ptr, Ptr>, cmp: (Ptr, Ptr) -> bool, key: Ptr, other: Ptr)
    requires Equivalence(cmp) && KeyedUpTo(m, cmp)
    ensures KeyedUpTo(Removed(m, cmp, key), cmp)
    ensures Find(Removed(m, cmp, key), cmp, other)
         == if cmp(key, other) then None else Find(m, cmp, other)
  {
    var m' := Removed(m, cmp, key);
    if cmp(key, other) {
      forall k | k in m' ensures !cmp(k, other) {
        assert cmp(other, key);
      }
    } else if exists k :: k in m && cmp(k, other) {
      var k :| k in m && cmp(k, other);
      assert cmp(other, k) && !cmp(k, key);
      assert k in m';
    }
  }

  // ----- whole runs, seen through the keys

  datatype Op = OpSet(key: Ptr, value: Ptr) | OpDel(key: Ptr)

  ghost function Applied(m: map<Ptr, Ptr>, cmp: (Ptr, Ptr) -> bool, op: Op): map<Ptr, Ptr> {
    match op
    case OpSet(key, value) => Updated(m, cmp, key, value)
    case OpDel(key) => Removed(m, cmp, key)
  }

  /** The map after a sequence of operations on an empty table. */
  ghost function Replay(ops: seq<Op>, cmp: (Ptr, Ptr) -> bool): map<Ptr, Ptr> {
    if ops == [] then map[]
    else
      Applied(Replay(ops[..|ops| - 1], cmp), cmp, ops[|ops| - 1])
  }

  /** The value last set for a key and not deleted since, read off the operations alone. */
  function LastSet(ops: seq<Op>, cmp: (Ptr, Ptr) -> bool, key: Ptr): Option<Ptr> {
    if ops == [] then None
    else
      var op := ops[|ops| - 1];
      if !cmp(op.key, key) then LastSet(ops[..|ops| - 1], cmp, key)
      else if op.OpSet? then Some(op.value)
      else None
  }

  lemma {:induction false} ReplayFindsLastSet(ops: seq<Op>, cmp: (Ptr, Ptr) -> bool, key: Ptr)
    requires Equivalence(cmp)
    ensures KeyedUpTo(Replay(ops, cmp), cmp)
    ensures Find(Replay(ops, cmp), cmp, key) == LastSet(ops, cmp, key)
  {
    if ops != [] {
      var ops' := ops[..|ops| - 1];
      ReplayFindsLastSet(ops', cmp, key);
      var m := Replay(ops', cmp);
      match ops[|ops| - 1]
      case OpSet(k, v) => FindAfterSet(m, cmp, k, v, key);
      case OpDel(k) => FindAfterDel(m, cmp, k, key);
    }
  }

  // ----- the table itself

  class HashMap {
    var fill: int      // active and deleted slots
    var count: int     // active slots
    var mask: int      // number of slots, minus 1
    var table: array<Slot>
    const hfunc: Ptr -> u32
    const cmp: (Ptr, Ptr) -> bool

    ghost predicate Valid()
      reads this, table
    {
      && Equivalence(cmp) && Compatible(hfunc, cmp)
      && Good(table[..], hfunc, cmp)
      && mask == table.Length - 1
      && table.Length * SLOT_BYTES <= HEAP_BYTES
      && count == Count(table[..], SlActive)
      && fill == count + Count(table[..], SlDeleted)
    }

    ghost function Map(): map<Ptr, Ptr>
      reads this, table
      requires Valid()
    {
      Model(table[..], cmp)
    }

    /** An empty slot is left. */
    ghost predicate HasRoom()
      reads this
    {
      fill < mask + 1
    }

    /** What the lookup of a key needs to end: an empty slot, or an equal key. */
    ghost predicate Ends(key: Ptr)
      reads this, table
      requires Valid()
    {
      HasRoom() || exists k :: k in Map() && cmp(k, key)
    }

    /** `Ends` is the exact condition: some turn of the loop returns. */
    lemma EndsExactly(key: Ptr)
      requires Valid()
      ensures Ends(key) <==> exists n: nat :: StopsAt(table[..], key, hfunc(key), n, cmp)
      ensures Ends(key) ==> exists n: nat :: n < table.Length + 7 && StopsAt(table[..], key, hfunc(key), n, cmp)
    {
      LookupEnds(table[..], key, hfunc, cmp);
      EndingIs(table[..], key, cmp);
    }

    /** What a successful update leaves behind: less than two thirds of the slots used. */
    ghost predicate Sparse()
      reads this
    {
      3 * fill < 2 * (mask + 1)
    }

    /** A table before `hash_init`: the callbacks are known, no slot exists. */
    constructor (hfunc: Ptr -> u32, cmp: (Ptr, Ptr) -> bool)
      ensures this.hfunc == hfunc && this.cmp == cmp
    {
      this.hfunc, this.cmp := hfunc, cmp;
      fill, count, mask := 0, 0, -1;
      table := new Slot[0];
    }

    /** `hash_initialize`: a table of `size` empty slots, or -1 and nothing changed. */
    method Initialize(size: nat, grant: bool) returns (r: int)
      modifies this
      ensures r == if grant && size * SLOT_BYTES <= HEAP_BYTES then 0 else -1
      ensures r == -1 ==> unchanged(this)
      ensures r == 0 ==> fresh(table) && table.Length == size && mask == size - 1 && fill == 0 && count == 0
      ensures r == 0 ==> forall p :: 0 <= p < size ==> table[p] == EMPTY_SLOT
    {
      if !grant || size * SLOT_BYTES > HEAP_BYTES {
        return -1;
      }
      var t := new Slot[size];
      fill, count, mask, table := 0, 0, size - 1, t;
      for i := 0 to size
        invariant forall p :: 0 <= p < i ==> t[p] == EMPTY_SLOT
        modifies t
      {
        t[i] := EMPTY_SLOT;
      }
      return 0;
    }

    /** `hash_init` */
    method Init(grant: bool) returns (r: int)
      requires Equivalence(cmp) && Compatible(hfunc, cmp)
      modifies this
      ensures r == if grant then 0 else -1
      ensures r == -1 ==> unchanged(this)
      ensures r == 0 ==> Valid() && Sparse() && Map() == map[] && fresh(table)
      ensures r == 0 ==> mask == HASH_MINSIZE - 1 && fill == 0 && count == 0
    {
      r := Initialize(HASH_MINSIZE, grant);
      if r == 0 {
        assert Pow2(3) == 8;
        EmptyTable(table[..], hfunc, cmp);
      }
    }

    /**
     The loop of `hash_lookup`.  It stops after `steps` moves, at an empty slot or at the
     slot of an equal key; `n` is the move that reached the slot it returns.
     */
    method Scan(key: Ptr, hash: u32, ghost last: nat) returns (slot: nat, ghost steps: nat, ghost n: nat)
      requires 8 <= table.Length <= WORD && mask == table.Length - 1
      requires StopsAt(table[..], key, hash, last, cmp)
      requires forall p :: 0 <= p < table.Length && table[p].mode == SlActive ==>
                             (Matches(table[p], key, hash, cmp) <==> cmp(table[p].key, key))
      ensures slot < table.Length && n <= steps <= last
      ensures Passed(table[..], key, hash, steps, cmp)
      ensures Probe(hash, table.Length, n) == slot
      ensures StopsAt(table[..], key, hash, steps, cmp)
      ensures if table[slot].mode == SlActive then n == steps && cmp(table[slot].key, key)
              else table[Probe(hash, table.Length, steps)].mode == SlEmpty
      ensures table[slot].mode == SlEmpty ==>
                n == steps && forall m: nat :: m < n ==> table[Probe(hash, table.Length, m)].mode != SlDeleted
    {
      ghost var t, size := table[..], table.Length;
      var index: u32 := hash % (mask + 1);
      var perturb := hash;
      var freeslot := -1;
      n, slot, steps := 0, index, 0;
      ModUnique(index, 0, size, index);
      while true
        invariant steps <= last
        invariant index == Index(hash, size, steps) && perturb == Perturb(hash, steps)
        invariant slot == Probe(hash, size, steps)
        invariant Passed(t, key, hash, steps, cmp)
        invariant freeslot != -1 ==> 0 <= freeslot < size && t[freeslot].mode == SlDeleted
        invariant freeslot != -1 ==> n < steps && Probe(hash, size, n) == freeslot
        invariant freeslot == -1 ==> forall m: nat :: m < steps ==> t[Probe(hash, size, m)].mode != SlDeleted
        decreases last - steps
      {
        if table[slot].mode == SlEmpty {
          if freeslot == -1 {
            n := steps;
            return slot, steps, n;
          }
          return freeslot, steps, n;
        }
        if table[slot].mode == SlActive && Matches(table[slot], key, hash, cmp) {
          n := steps;
          return slot, steps, n;
        }
        if table[slot].mode == SlDeleted && freeslot == -1 {
          freeslot := slot;
          n := steps;
        }
        index := (5 * index + perturb + 1) % 0x1_0000_0000;
        slot := index % (mask + 1);
        perturb := perturb / 32;
        steps := steps + 1;
      }
    }

    /**
     `hash_lookup`: the slot of an equal key, or else the slot where the key belongs: the first
     tombstone on its path, or the empty slot that ends it.  The loop returns in turn `steps`.
     */
    method Lookup(key: Ptr, hash: u32) returns (slot: nat, ghost steps: nat, ghost n: nat)
      requires Valid() && Ends(key)
      requires hash == hfunc(key)
      ensures slot < table.Length
      ensures n <= steps < table.Length + 7 && StopsAt(table[..], key, hash, steps, cmp) && Passed(table[..], key, hash, steps, cmp)
      ensures table[slot].mode == SlActive ==> cmp(table[slot].key, key)
      ensures table[slot].mode != SlActive ==> HasRoom() && forall k :: k in Map() ==> !cmp(k, key)
      ensures table[slot].mode != SlActive ==> (table[slot].mode == SlDeleted <==> Reuses(table[..], hash))
      ensures Reaches(table[..], hash, slot, n)
    {
      ghost var t := table[..];
      EndsExactly(key);
      ghost var last: nat :| last < table.Length + 7 && StopsAt(t, key, hash, last, cmp);
      MatchTest(t, key, hfunc, cmp);
      slot, steps, n := Scan(key, hash, last);
      if table[slot].mode != SlActive {
        MissingKey(t, key, steps, hfunc, cmp);
        FreeSlotIs(t, hash, slot, n, steps);
      }
    }

    /** One active slot of the old table, entered into this one: the loop body of `hash_copy`. */
    method CopySlot(old_: Slot)
      requires Valid() && HasRoom() && fill == count
      requires old_.mode == SlActive && old_.hash == hfunc(old_.key)
      requires forall k :: k in Map() ==> !cmp(k, old_.key)
      modifies this`fill, this`count, table
      ensures Valid() && fill == count == old(count) + 1
      ensures Map() == old(Map())[old_.key := old_.value]
    {
      var slot, _, n := Lookup(old_.key, hfunc(old_.key));
      ghost var t := table[..];
      ModelIs(t, cmp);
      assert !t[slot].mode.SlActive? by {
        assert t[slot].mode.SlActive? ==> Holds(t, slot, t[slot].key);
      }
      NoDeleted(t, slot);
      Insert(t, slot, n, old_.key, old_.value, hfunc, cmp);
      CountUpdate(t, slot, old_, SlActive);
      CountUpdate(t, slot, old_, SlDeleted);
      table[slot] := Slot(old_.key, old_.value, old_.hash, SlActive);
      fill := fill + 1;
      count := count + 1;
      assert table[..] == t[slot := old_];
    }

    /** `hash_copy`: the active slots of the old table into this empty one. */
    method Copy(oldTable: array<Slot>)
      requires Valid() && oldTable != table
      requires Map() == map[] && fill == 0 && count == 0
      requires KeysDiffer(oldTable[..], cmp)
      requires forall p :: 0 <= p < oldTable.Length && oldTable[p].mode == SlActive ==> oldTable[p].hash == hfunc(oldTable[p].key)
      requires Count(oldTable[..], SlActive) < table.Length
      modifies this`fill, this`count, table
      ensures Valid() && fill == count == Count(oldTable[..], SlActive)
      ensures Map() == Model(oldTable[..], cmp)
    {
      ghost var o := oldTable[..];
      for i := 0 to oldTable.Length
        invariant oldTable[..] == o
        invariant Valid() && fill == count == Count(o[..i], SlActive)
        invariant KeysDiffer(o[..i], cmp) && Map() == Model(o[..i], cmp)
      {
        CountMonotone(o, i + 1, SlActive);
        assert o[..i + 1][..i] == o[..i];
        CopyStep(o, i, cmp);
        if oldTable[i].mode == SlActive {
          CopySlot(oldTable[i]);
        }
      }
      assert o[..oldTable.Length] == o;
    }

    /**
     `hash_update`: grow when two thirds of the slots are used, shrink when a quarter are
     active.  The map never changes; when memory is refused, nothing does.
     */
    method Update(grant: bool) returns (r: int)
      requires Valid()
      modifies this
      ensures r == if Affords(old(fill), old(count), old(mask) + 1, grant) then 0 else -1
      ensures Valid() && Map() == old(Map()) && count == old(count)
      ensures r == -1 ==> unchanged(this)
      ensures r == 0 ==> mask + 1 == NewSize(old(fill), old(count), old(mask) + 1) && Sparse()
      ensures r == 0 ==> fill == if mask == old(mask) then old(fill) else count
      ensures table == old(table) || (r == 0 && mask != old(mask) && fresh(table))
    {
      ghost var fill0, count0 := fill, count;
      var oldSize := mask + 1;
      var newSize := oldSize;
      if 3 * fill >= 2 * oldSize {
        newSize := newSize * 2;
      } else if oldSize > HASH_MINSIZE && 4 * count <= oldSize {
        newSize := newSize / 2;
      } else {
        return 0;
      }
      var oldTable := table;
      ghost var o := table[..];
      CountsAddUp(o);
      r := Initialize(newSize, grant);
      if r == -1 {
        return -1;
      }
      NewSizeOk(o, hfunc, cmp, fill0, count0);
      EmptyTable(table[..], hfunc, cmp);
      assert oldTable[..] == o;
      Copy(oldTable);
      return 0;
    }

    /** `hash_isset` */
    method IsSet(key: Ptr) returns (r: bool)
      requires Valid() && Ends(key)
      ensures r <==> Find(Map(), cmp, key).Some?
    {
      var slot, _, _ := Lookup(key, hfunc(key));
      ModelIs(table[..], cmp);
      assert table[slot].mode == SlActive ==> Holds(table[..], slot, table[slot].key);
      return table[slot].mode == SlActive;
    }

    /** `hash_get` */
    method Get(key: Ptr, default: Ptr) returns (r: Ptr)
      requires Valid() && Ends(key)
      ensures r == match Find(Map(), cmp, key) case Some(v) => v case None => default
    {
      var slot, _, _ := Lookup(key, hfunc(key));
      ModelIs(table[..], cmp);
      if table[slot].mode == SlActive {
        assert Holds(table[..], slot, table[slot].key);
        ModelKeyedUpTo(table[..], cmp);
        return table[slot].value;
      }
      return default;
    }

    /** The first branch of `hash_set`: a new value for a key that is present. */
    method Replace(slot: nat, value: Ptr)
      requires Valid()
      requires slot < table.Length && table[slot].mode == SlActive
      modifies table
      ensures Valid()
      ensures table.Length > slot && old(table[slot].key) in old(Map())
      ensures Map() == old(Map())[old(table[slot].key) := value]
    {
      ghost var t := table[..];
      Overwrite(t, slot, value, hfunc, cmp);
      OverwriteCounts(t, slot, value);
      table[slot] := table[slot].(value := value);
      assert table[..] == t[slot := t[slot].(value := value)];
    }

    /** The second branch of `hash_set`, before the resize: a new key in a free slot. */
    method Enter(slot: nat, key: Ptr, value: Ptr, hash: u32, ghost n: nat)
      requires Valid() && HasRoom()
      requires slot < table.Length && table[slot].mode != SlActive
      requires hash == hfunc(key) && Reaches(table[..], hash, slot, n)
      requires forall k :: k in Map() ==> !cmp(k, key)
      modifies this`fill, this`count, table
      ensures Valid() && count == old(count) + 1
      ensures fill == old(fill) + if old(table[slot].mode) == SlEmpty then 1 else 0
      ensures Map() == old(Map())[key := value]
    {
      ghost var t := table[..];
      ghost var s := Slot(key, value, hash, SlActive);
      Insert(t, slot, n, key, value, hfunc, cmp);
      CountUpdate(t, slot, s, SlActive);
      CountUpdate(t, slot, s, SlDeleted);
      count := count + 1;
      if table[slot].mode == SlEmpty {
        fill := fill + 1;
      }
      table[slot] := Slot(key, value, hash, SlActive);
      assert table[..] == t[slot := s];
    }

    /** The `fill` after a new key is in and before the resize: one more, unless it took a tombstone. */
    ghost function FillWith(key: Ptr): int
      reads this, table
      requires Valid()
    {
      fill + (if Reuses(table[..], hfunc(key)) then 0 else 1)
    }

    /**
     `hash_set`.  A key that is present gets its value and nothing else changes.  A new key is
     set in any case; the answer is -1 exactly when a resize is due then and refused.
     */
    method Set(key: Ptr, value: Ptr, grant: bool) returns (r: int)
      requires Valid() && Ends(key)
      modifies this, table
      ensures Valid() && Map() == Updated(old(Map()), cmp, key, value)
      ensures var isNew := old(Find(Map(), cmp, key)) == None;
              && (!isNew ==> r == 0 && fill == old(fill) && count == old(count) && mask == old(mask) && table == old(table))
              && (isNew ==>
                var f, c, size := old(FillWith(key)), old(count) + 1, old(mask) + 1;
                && r == (if Affords(f, c, size, grant) then 0 else -1) && count == c
                && mask + 1 == (if r == 0 then NewSize(f, c, size) else size)
                && fill == (if mask == old(mask) then f else c))
      ensures r == 0 && old(HasRoom()) ==> HasRoom()
      ensures r == 0 && old(Sparse()) ==> Sparse()
      ensures old(Sparse()) ==> HasRoom()
      ensures table == old(table) || (r == 0 && mask != old(mask) && fresh(table))
    {
      hide Reuses, FillWith, Reaches, Passed, StopsAt, KeysDiffer, Good, Equivalence, Compatible, Affords, NewSize;
      var hash := hfunc(key);
      var slot, _, n := Lookup(key, hash);
      KeyIs(slot, key);
      if table[slot].mode == SlActive {
        UpdatedAt(Map(), cmp, key, value, table[slot].key);
        Replace(slot, value);
        return 0;
      }
      UpdatedNew(Map(), cmp, key, value);
      r := SetNew(slot, key, value, hash, grant, n);
    }

    /** What the slot of a lookup says of the map. */
    lemma KeyIs(slot: nat, key: Ptr)
      requires Valid() && slot < table.Length
      requires if table[slot].mode == SlActive then cmp(table[slot].key, key) else forall k :: k in Map() ==> !cmp(k, key)
      ensures KeyedUpTo(Map(), cmp)
      ensures if table[slot].mode == SlActive then table[slot].key in Map() && Find(Map(), cmp, key) == Some(table[slot].value)
              else Find(Map(), cmp, key) == None
    {
      ModelIs(table[..], cmp);
      ModelKeyedUpTo(table[..], cmp);
      if table[slot].mode == SlActive {
        assert Holds(table[..], slot, table[slot].key);
      }
    }

    /** A new key entered, and the resize. */
    method SetNew(slot: nat, key: Ptr, value: Ptr, hash: u32, grant: bool, ghost n: nat) returns (r: int)
      requires Valid() && HasRoom() && slot < table.Length && table[slot].mode != SlActive
      requires hash == hfunc(key) && Reaches(table[..], hash, slot, n) && (table[slot].mode == SlDeleted <==> Reuses(table[..], hash))
      requires forall k :: k in Map() ==> !cmp(k, key)
      modifies this, table
      ensures Valid() && Map() == old(Map())[key := value]
      ensures var f, c, size := old(FillWith(key)), old(count) + 1, old(mask) + 1;
              && r == (if Affords(f, c, size, grant) then 0 else -1) && count == c
              && mask + 1 == (if r == 0 then NewSize(f, c, size) else size)
              && fill == (if mask == old(mask) then f else c)
      ensures (r == 0 ==> Sparse()) && (old(Sparse()) ==> HasRoom())
      ensures table == old(table) || (r == 0 && mask != old(mask) && fresh(table))
    {
      assert table.Length >= 8;
      hide Reuses, Reaches, KeysDiffer, Good;
      Enter(slot, key, value, hash, n);
      r := Update(grant);
    }

    /** The slot of a deleted key, before the resize: it stays in the way of longer probes. */
    method Bury(slot: nat)
      requires Valid()
      requires slot < table.Length && table[slot].mode == SlActive
      modifies this`count, table
      ensures Valid() && count == old(count) - 1
      ensures table.Length > slot && old(table[slot].key) in old(Map())
      ensures Map() == old(Map()) - {old(table[slot].key)}
    {
      ghost var t := table[..];
      Erase(t, slot, hfunc, cmp);
      ModelIs(t, cmp);
      assert Holds(t, slot, t[slot].key);
      CountUpdate(t, slot, DELETED_SLOT, SlActive);
      CountUpdate(t, slot, DELETED_SLOT, SlDeleted);
      table[slot] := DELETED_SLOT;
      count := count - 1;
      assert table[..] == t[slot := DELETED_SLOT];
      CountsAddUp(table[..]);
    }

    /** `hash_del`: -1 exactly when the key was there and a resize is due after it and refused. */
    method Del(key: Ptr, grant: bool) returns (r: int)
      requires Valid() && Ends(key)
      modifies this, table
      ensures Valid() && Map() == Removed(old(Map()), cmp, key)
      ensures var isNew := old(Find(Map(), cmp, key)) == None;
              && (isNew ==> r == 0 && fill == old(fill) && count == old(count) && mask == old(mask) && table == old(table))
              && (!isNew ==>
                var f, c, size := old(fill), old(count) - 1, old(mask) + 1;
                && r == (if Affords(f, c, size, grant) then 0 else -1) && count == c
                && mask + 1 == (if r == 0 then NewSize(f, c, size) else size)
                && fill == (if mask == old(mask) then f else c))
      ensures r == 0 && (old(HasRoom()) || old(Find(Map(), cmp, key)) != None) ==> HasRoom()
      ensures r == 0 && old(Sparse()) ==> Sparse()
      ensures old(HasRoom()) ==> HasRoom()
      ensures table == old(table) || fresh(table)
    {
      hide Reuses, Reaches, Passed, StopsAt, KeysDiffer, Good, Affords, NewSize;
      var slot, _, _ := Lookup(key, hfunc(key));
      KeyIs(slot, key);
      if table[slot].mode != SlActive {
        assert Removed(Map(), cmp, key) == Map();
        return 0;
      }
      RemovedOne(Map(), cmp, key, table[slot].key);
      r := DelAt(slot, grant);
    }

    method DelAt(slot: nat, grant: bool) returns (r: int)
      requires Valid() && slot < table.Length && table[slot].mode == SlActive
      modifies this, table
      ensures Valid() && table.Length > 0 && Map() == old(Map()) - {old(table[slot].key)}
      ensures var f, c, size := old(fill), old(count) - 1, old(mask) + 1;
              && r == (if Affords(f, c, size, grant) then 0 else -1) && count == c
              && mask + 1 == (if r == 0 then NewSize(f, c, size) else size)
              && fill == (if mask == old(mask) then f else c)
      ensures (r == 0 ==> Sparse()) && (old(HasRoom()) ==> HasRoom())
      ensures table == old(table) || fresh(table)
    {
      hide KeysDiffer, Good;
      Bury(slot);
      r := Update(grant);
    }

    /** Any operations, with the memory granted or not as `grants` says, as long as lookups are sure to end. */
    method Play(ops: seq<Op>, grants: seq<bool>) returns (replies: seq<int>)
      requires Valid() && Map() == map[] && HasRoom() && |grants| == |ops|
      modifies this, table
      ensures Valid() && |replies| <= |ops| && Map() == Replay(ops[..|replies|], cmp)
      ensures forall key :: Find(Map(), cmp, key) == LastSet(ops[..|replies|], cmp, key)
      ensures |replies| < |ops| ==> !HasRoom()
      ensures (forall i :: 0 <= i < |replies| ==> replies[i] == 0) ==> HasRoom() && |replies| == |ops|
    {
      hide Valid, Map, Applied, LastSet, HasRoom, Find;
      replies := [];
      assert ops[..0] == [];
      while |replies| < |ops| && HasSpace()
        invariant Valid() && |replies| <= |ops| && Map() == Replay(ops[..|replies|], cmp)
        invariant (forall i :: 0 <= i < |replies| ==> replies[i] == 0) ==> HasRoom()
        invariant table == old(table) || fresh(table)
        decreases |ops| - |replies|
      {
        var i := |replies|;
        assert ops[..i + 1][..i] == ops[..i];
        var r := Step(ops[i], grants[i]);
        replies := replies + [r];
        assert replies[i] == r;
      }
      AllLastSet(ops[..|replies|]);
    }

    predicate HasSpace()
      reads this
      ensures HasSpace() <==> HasRoom()
    {
      fill < mask + 1
    }

    method Step(op: Op, grant: bool) returns (r: int)
      requires Valid() && HasRoom()
      modifies this, table
      ensures Valid() && Map() == Applied(old(Map()), cmp, op)
      ensures (r == 0 || r == -1) && (r == 0 ==> HasRoom())
      ensures table == old(table) || fresh(table)
    {
      hide Reuses, FillWith, KeysDiffer, Good, Affords, NewSize, Updated, Removed, Find;
      match op
      case OpSet(key, value) => r := Set(key, value, grant);
      case OpDel(key) => r := Del(key, grant);
    }

    /** One more of them, refused any memory. */
    method SetTen(i: nat) returns (r: int)
      requires Valid() && i < 8 && mask == 7 && fill == count == i && Tens(Map(), i) && Plain(cmp)
      modifies this, table
      ensures Valid() && table == old(table) && mask == 7 && fill == count == i + 1 && Tens(Map(), i + 1)
      ensures r == if i < 5 then 0 else -1
    {
      hide Valid, FillWith, Tens, Plain, Find, Updated;
      NoReuse(i);
      TensNext(Map(), cmp, i);
      r := Set(i, 10 * i, false);
    }

    lemma NoReuse(key: Ptr)
      requires Valid() && fill == count
      ensures FillWith(key) == fill + 1
    {
      NoTombstones(table[..], hfunc(key));
    }

    lemma FullOfTens()
      requires Valid() && fill == 8 && mask == 7 && Tens(Map(), 8) && Plain(cmp)
      ensures forall k :: 0 <= k < 8 ==> Find(Map(), cmp, k) == Some(10 * k)
      ensures !HasRoom() && Ends(0) && !Ends(8)
    {
      assert 0 in Map();
      forall k | 0 <= k < 8
        ensures Find(Map(), cmp, k) == Some(10 * k)
      {
        assert k in Map() && cmp(k, k);
      }
    }

    lemma AllLastSet(ops: seq<Op>)
      requires Valid() && Map() == Replay(ops, cmp)
      ensures forall key :: Find(Map(), cmp, key) == LastSet(ops, cmp, key)
    {
      forall key
        ensures Find(Map(), cmp, key) == LastSet(ops, cmp, key)
      {
        ReplayFindsLastSet(ops, cmp, key);
      }
    }
  }

  lemma UpdatedNew(m: map<Ptr, Ptr>, cmp: (Ptr, Ptr) -> bool, key: Ptr, value: Ptr)
    requires Find(m, cmp, key) == None
    ensures Updated(m, cmp, key, value) == m[key := value]
  {
  }

  /** A table from its first day, and a last question. */
  method Session(hfunc: Ptr -> u32, cmp: (Ptr, Ptr) -> bool, ops: seq<Op>, grants: seq<bool>, key: Ptr, default: Ptr)
    returns (replies: seq<int>, answer: Ptr, hasRoom: bool)
    requires Equivalence(cmp) && Compatible(hfunc, cmp) && |grants| == |ops|
    ensures |replies| <= |ops| && (|replies| < |ops| ==> !hasRoom)
    ensures (forall i :: 0 <= i < |replies| ==> replies[i] == 0) ==> hasRoom
    ensures hasRoom ==> answer == match LastSet(ops[..|replies|], cmp, key) case Some(v) => v case None => default
  {
    var m := new HashMap(hfunc, cmp);
    var _ := m.Init(true);
    replies := m.Play(ops, grants);
    hasRoom := m.fill < m.mask + 1;
    answer := default;
    if hasRoom {
      answer := m.Get(key, default);
    }
  }

  /**
   Eight keys set with every resize refused: the last three answer -1 and are set all the same, and
   fill the table.  The lookup of a key that is there still ends, that of another one never does.
   */
  method FillUp() returns (m: HashMap, replies: seq<int>)
    ensures fresh(m) && m.Valid() && replies == [0, 0, 0, 0, 0, -1, -1, -1]
    ensures forall k :: 0 <= k < 8 ==> Find(m.Map(), m.cmp, k) == Some(10 * k)
    ensures !m.HasRoom() && m.Ends(0) && !m.Ends(8)
  {
    hide HashMap.Valid, HashMap.Map, Tens, Plain, Equivalence, Compatible, Find;
    var hfunc: Ptr -> u32 := x => x % WORD;
    var cmp: (Ptr, Ptr) -> bool := (x, y) => x == y;
    PlainEquality(hfunc, cmp);
    m := new HashMap(hfunc, cmp);
    var _ := m.Init(true);
    replies := [];
    NoTens();
    for i := 0 to 8
      invariant m.Valid() && fresh(m) && fresh(m.table) && m.mask == 7 && m.fill == m.count == i && |replies| == i && m.cmp == cmp
      invariant Tens(m.Map(), i)
      invariant forall k :: 0 <= k < i ==> replies[k] == if k < 5 then 0 else -1
    {
      var r := m.SetTen(i);
      replies := replies + [r];
    }
    m.FullOfTens();
  }

  /** Keys compared by address, as `hash_init_direct` has it. */
  ghost predicate Plain(cmp: (Ptr, Ptr) -> bool) {
    forall x, y :: cmp(x, y) <==> x == y
  }

  lemma PlainEquality(hfunc: Ptr -> u32, cmp: (Ptr, Ptr) -> bool)
    requires forall x, y :: cmp(x, y) == (x == y)
    ensures Plain(cmp) && Equivalence(cmp) && Compatible(hfunc, cmp)
  {
  }

  lemma TensNext(m: map<Ptr, Ptr>, cmp: (Ptr, Ptr) -> bool, n: nat)
    requires Tens(m, n) && Plain(cmp)
    ensures Find(m, cmp, n) == None && Tens(Updated(m, cmp, n, 10 * n), n + 1)
  {
    UpdatedNew(m, cmp, n, 10 * n);
  }

  lemma NoTens()
    ensures Tens(map[], 0)
  {
  }

  /** The keys below n, with ten times the key. */
  ghost predicate Tens(m: map<Ptr, Ptr>, n: nat) {
    (forall k :: k in m <==> 0 <= k < n) && forall k :: 0 <= k < n ==> m[k] == 10 * k
  }
}
