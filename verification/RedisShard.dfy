/** A shard: slot table, counters and memory kept in step by every operation. */
module RedisShard {
  import opened RedisSlots
  import opened RedisAlloc

  const WORD := 0x1_0000_0000

  // ----- counters -----

  /** The four counters say what is in the slots. */
  ghost predicate Counted(slots: seq<Slot>, count: int, tombs: int, nexp: int, used: int) {
    count == Total(IsFull, slots) && tombs == Total(IsTomb, slots) && nexp == Total(Expires, slots) && used == Total(CostOf, slots)
  }

  lemma CountedUpdate(slots: seq<Slot>, count: int, tombs: int, nexp: int, used: int, i: nat, s: Slot)
    requires Counted(slots, count, tombs, nexp, used) && i < |slots|
    ensures Counted(slots[i := s], count - IsFull(slots[i]) + IsFull(s), tombs - IsTomb(slots[i]) + IsTomb(s),
                    nexp - Expires(slots[i]) + Expires(s), used - CostOf(slots[i]) + CostOf(s))
  {
    TotalUpdate(IsFull, slots, i, s);
    TotalUpdate(IsTomb, slots, i, s);
    TotalUpdate(Expires, slots, i, s);
    TotalUpdate(CostOf, slots, i, s);
  }

  function Blank(n: nat): (s: seq<Slot>)
    ensures |s| == n && forall i :: 0 <= i < n ==> s[i] == Empty
  {
    seq(n, i => Empty)
  }

  lemma CountedBlank(n: nat)
    ensures Counted(Blank(n), 0, 0, 0, 0)
  {
    var s := Blank(n);
    TotalBounds(IsFull, s, 0, 0);
    TotalBounds(IsTomb, s, 0, 0);
    TotalBounds(Expires, s, 0, 0);
    TotalBounds(CostOf, s, 0, 0);
  }

  /** At most three quarters of the slots are in use, and there is a power of two of them. */
  ghost predicate Loaded(slots: seq<Slot>, count: int, tombs: int) {
    4 * (count + tombs) <= 3 * |slots| && |slots| >= 8 && PowerOfTwo(|slots|)
  }

  predicate PowerOfTwo(n: nat) {
    n == 1 || (n % 2 == 0 && n > 0 && PowerOfTwo(n / 2))
  }

  lemma {:induction false} InUse(slots: seq<Slot>)
    requires forall i :: 0 <= i < |slots| ==> slots[i] != Empty
    ensures Total(IsFull, slots) + Total(IsTomb, slots) == |slots|
  {
    if slots != [] {
      InUse(slots[..|slots| - 1]);
    }
  }

  lemma {:induction false} NoneNegative(slots: seq<Slot>)
    ensures 0 <= Total(IsFull, slots) && 0 <= Total(IsTomb, slots)
  {
    TotalBounds(IsFull, slots, 0, 1);
    TotalBounds(IsTomb, slots, 0, 1);
  }

  /** So every probe ends. */
  lemma SomeEmpty(slots: seq<Slot>, count: int, tombs: int, nexp: int, used: int) returns (e: nat)
    requires Counted(slots, count, tombs, nexp, used) && 4 * (count + tombs) <= 3 * |slots| && |slots| > 0
    ensures e < |slots| && slots[e] == Empty
  {
    if forall i :: 0 <= i < |slots| ==> slots[i] != Empty {
      InUse(slots);
    }
    e :| 0 <= e < |slots| && slots[e] == Empty;
  }

  // ----- probing -----

  function Dist(home: nat, i: nat, n: nat): int {
    if home <= i then i - home else i - home + n
  }

  /** What probing up to slot i has seen: no empty slot, not the key; `ins`, if any, is a tombstone. */
  ghost predicate Probed(slots: seq<Slot>, key: Bytes, home: nat, i: nat, ins: int) {
    && ClearTo(slots, home, i)
    && (forall j :: 0 <= j < |slots| && OnPath(home, i, j) ==> !(slots[j].Full? && slots[j].it.key == key))
    && (ins == -1 || (0 <= ins < |slots| && slots[ins] == Tomb && OnPath(home, i, ins)))
  }

  lemma ProbeOn(slots: seq<Slot>, key: Bytes, home: nat, i: nat, ins: int, e: nat)
    requires home < |slots| && i < |slots| && Probed(slots, key, home, i, ins)
    requires slots[i] != Empty && !(slots[i].Full? && slots[i].it.key == key) && e < |slots| && slots[e] == Empty
    ensures Probed(slots, key, home, Next(i, |slots|), ins)
    ensures Dist(home, Next(i, |slots|), |slots|) == Dist(home, i, |slots|) + 1
    ensures ins == -1 && slots[i] == Tomb ==> Probed(slots, key, home, Next(i, |slots|), i)
  {
    var n := |slots|;
    assert !OnPath(home, i, e);
    assert Next(i, n) != home;
    forall j | 0 <= j < n && OnPath(home, Next(i, n), j)
      ensures OnPath(home, i, j) || j == i
    {
      PathStep(home, i, n, j);
    }
  }

  /** What a search promises: where the key is, or that it is absent and where it can go. */
  ghost predicate Found(hash: Bytes -> nat, slots: seq<Slot>, m: map<Bytes, Item>, key: Bytes, idx: int, ins: int) {
    && (key in m <==> idx >= 0) && idx < |slots|
    && (idx >= 0 ==> slots[idx].Full? && slots[idx].it == m[key] && m[key].key == key)
    && (idx < 0 ==> FreeFor(hash, slots, key, ins))
    && (ins >= 0 ==> FreeFor(hash, slots, key, ins))
    && (idx >= 0 && ins >= 0 ==> OnPath(Home(hash(key), |slots|), idx, ins))
  }

  /** A slot that is free and that a probe for the key reaches. */
  ghost predicate FreeFor(hash: Bytes -> nat, slots: seq<Slot>, key: Bytes, ins: int) {
    0 <= ins < |slots| && !slots[ins].Full? && ClearTo(slots, Home(hash(key), |slots|), ins)
  }

  lemma FreeOnPath(slots: seq<Slot>, key: Bytes, home: nat, i: nat, ins: int)
    requires Probed(slots, key, home, i, ins) && ins >= 0 && home < |slots| && i < |slots|
    ensures ClearTo(slots, home, ins)
  {}

  /** The probe loop. */
  method Probe(hash: Bytes -> nat, slots: seq<Slot>, key: Bytes, ghost m: map<Bytes, Item>, ghost e: nat)
    returns (idx: int, ins: int)
    requires Table(hash, slots, m) && e < |slots| && slots[e] == Empty
    ensures Found(hash, slots, m, key, idx, ins)
  {
    hide Table, ClearTo;
    var n := |slots|;
    var h := hash(key);
    var home := Home(h, n);
    var i: nat := home;
    var tag := Tag(h);
    ins := -1;
    ProbeStart(slots, key, home);
    while true
      invariant i < n && -1 <= ins && Probed(slots, key, home, i, ins)
      decreases n - Dist(home, i, n)
    {
      if ins >= 0 {
        FreeOnPath(slots, key, home, i, ins);
      }
      if slots[i] == Empty {
        NotBeyondEmpty(hash, slots, m, key, i);
        if ins < 0 {
          ins := i;
        }
        return -1, ins;
      }
      if slots[i].Full? {
        TagTold(hash, slots, m, i);
        if slots[i].tag == tag && slots[i].it.key == key {
          return i, ins;
        }
      }
      ProbeOn(slots, key, home, i, ins, e);
      if slots[i] == Tomb && ins < 0 {
        ins := i;
      }
      i := Next(i, n);
    }
  }

  lemma ProbeStart(slots: seq<Slot>, key: Bytes, home: nat)
    requires home < |slots|
    ensures Probed(slots, key, home, home, -1)
  {}

  lemma TagTold(hash: Bytes -> nat, slots: seq<Slot>, m: map<Bytes, Item>, i: nat)
    requires Table(hash, slots, m) && i < |slots| && slots[i].Full?
    ensures slots[i].tag == Tag(hash(slots[i].it.key)) && slots[i].it.key in m && m[slots[i].it.key] == slots[i].it
  {
    assert FullAt(hash, slots, i, m);
  }

  // ----- rehashing -----

  /** The first empty slot for a key, in a table without tombstones. */
  method Place(hash: Bytes -> nat, slots: seq<Slot>, key: Bytes, ghost e: nat) returns (i: nat)
    requires e < |slots| && slots[e] == Empty
    ensures i < |slots| && slots[i] == Empty && ClearTo(slots, Home(hash(key), |slots|), i)
  {
    hide ClearTo;
    var n := |slots|;
    var home := Home(hash(key), n);
    i := home;
    ClearStart(slots, home);
    while slots[i] != Empty
      invariant i < n && ClearTo(slots, home, i)
      decreases n - Dist(home, i, n)
    {
      ClearOn(slots, home, i, e);
      i := Next(i, n);
    }
  }

  lemma ClearStart(slots: seq<Slot>, home: nat)
    requires home < |slots|
    ensures ClearTo(slots, home, home)
  {}

  lemma ClearOn(slots: seq<Slot>, home: nat, i: nat, e: nat)
    requires home < |slots| && i < |slots| && ClearTo(slots, home, i) && slots[i] != Empty
    requires e < |slots| && slots[e] == Empty
    ensures ClearTo(slots, home, Next(i, |slots|)) && Dist(home, Next(i, |slots|), |slots|) == Dist(home, i, |slots|) + 1
  {
    var n := |slots|;
    assert !OnPath(home, i, e);
    assert Next(i, n) != home;
    forall j | 0 <= j < n && OnPath(home, Next(i, n), j)
      ensures OnPath(home, i, j) || j == i
    {
      PathStep(home, i, n, j);
    }
  }

  /** The items of the first k slots. */
  ghost predicate MovedUpTo(slots: seq<Slot>, k: nat, m: map<Bytes, Item>, part: map<Bytes, Item>)
    requires k <= |slots|
  {
    && (forall i :: 0 <= i < k && slots[i].Full? ==> slots[i].it.key in part)
    && (forall x :: x in part ==> x in m && part[x] == m[x])
    && (forall x :: x in part ==> exists i :: 0 <= i < k && slots[i].Full? && slots[i].it.key == x)
  }

  lemma MoveOne(hash: Bytes -> nat, was: seq<Slot>, k: nat, m: map<Bytes, Item>, part: map<Bytes, Item>)
    requires Table(hash, was, m) && k < |was| && MovedUpTo(was, k, m, part)
    ensures was[k].Full? ==> was[k].it.key !in part && MovedUpTo(was, k + 1, m, part[was[k].it.key := was[k].it])
    ensures was[k].Full? ==> was[k].tag == Tag(hash(was[k].it.key))
    ensures !was[k].Full? ==> MovedUpTo(was, k + 1, m, part)
  {
    hide Reachable;
    if was[k].Full? {
      TagTold(hash, was, m, k);
    }
  }

  lemma MovedAll(hash: Bytes -> nat, was: seq<Slot>, m: map<Bytes, Item>, part: map<Bytes, Item>)
    requires Table(hash, was, m) && MovedUpTo(was, |was|, m, part)
    ensures part == m
  {
    forall x | x in m
      ensures x in part
    {
      assert HasKey(was, x);
    }
  }

  /** The counters of what has been moved agree with those of what was to be moved. */
  ghost predicate SameTotals(a: seq<Slot>, b: seq<Slot>) {
    Total(IsFull, a) == Total(IsFull, b) && Total(Expires, a) == Total(Expires, b) && Total(CostOf, a) == Total(CostOf, b)
  }

  lemma TotalsMove(was: seq<Slot>, k: nat, slots: seq<Slot>, i: nat)
    requires k < |was| && SameTotals(was[..k], slots) && i < |slots| && slots[i] == Empty
    ensures was[k].Full? ==> SameTotals(was[..k + 1], slots[i := was[k]])
    ensures Total(IsTomb, slots[i := was[k]]) == Total(IsTomb, slots) + IsTomb(was[k])
  {
    assert was[..k + 1][..k] == was[..k];
    CountedUpdate(slots, Total(IsFull, slots), Total(IsTomb, slots), Total(Expires, slots), Total(CostOf, slots), i, was[k]);
  }

  lemma TotalsSkip(was: seq<Slot>, k: nat, slots: seq<Slot>)
    requires k < |was| && SameTotals(was[..k], slots) && !was[k].Full?
    ensures SameTotals(was[..k + 1], slots)
  {
    assert was[..k + 1][..k] == was[..k];
  }

  lemma {:induction false} PrefixTotal(slots: seq<Slot>, k: nat)
    requires k <= |slots|
    ensures Total(IsFull, slots[..k]) <= Total(IsFull, slots)
  {
    if k < |slots| {
      var n := |slots| - 1;
      assert slots[..n][..k] == slots[..k];
      PrefixTotal(slots[..n], k);
    } else {
      assert slots[..k] == slots;
    }
  }

  /** Moves every item to a table of n slots without tombstones. */
  method Rehashed(hash: Bytes -> nat, was: seq<Slot>, n: nat, ghost m: map<Bytes, Item>, ghost count: int, ghost tombs: int,
                  ghost nexp: int, ghost used: int) returns (slots: seq<Slot>)
    requires Table(hash, was, m) && Counted(was, count, tombs, nexp, used) && n >= 8 && 4 * count <= 3 * n
    ensures |slots| == n && Table(hash, slots, m) && Counted(slots, count, 0, nexp, used)
  {
    hide Table, ClearTo, Total, MovedUpTo;
    slots := Blank(n);
    ghost var part: map<Bytes, Item> := map[];
    RehashStart(hash, was, n, m);
    for k := 0 to |was|
      invariant |slots| == n && Table(hash, slots, part) && MovedUpTo(was, k, m, part)
      invariant SameTotals(was[..k], slots) && Total(IsTomb, slots) == 0
    {
      MoveOne(hash, was, k, m, part);
      if was[k].Full? {
        PrefixTotal(was, k);
        ghost var e := SomeEmpty(slots, Total(IsFull, slots), 0, Total(Expires, slots), Total(CostOf, slots));
        var i := Place(hash, slots, was[k].it.key, e);
        Filled(hash, slots, part, i, was[k].it);
        TotalsMove(was, k, slots, i);
        part := part[was[k].it.key := was[k].it];
        slots := slots[i := was[k]];
      } else {
        TotalsSkip(was, k, slots);
      }
    }
    assert was[..|was|] == was;
    MovedAll(hash, was, m, part);
  }

  lemma RehashStart(hash: Bytes -> nat, was: seq<Slot>, n: nat, m: map<Bytes, Item>)
    ensures Table(hash, Blank(n), map[]) && MovedUpTo(was, 0, m, map[]) && SameTotals(was[..0], Blank(n))
    ensures Total(IsTomb, Blank(n)) == 0
  {
    CountedBlank(n);
  }

  /** The size to rehash to: the smallest power of two from 8 on that is at most three eighths full. */
  method FitSize(count: nat) returns (n: nat)
    ensures n >= 8 && PowerOfTwo(n) && 3 * n >= (count + 1) * 8
    ensures n == 8 || 3 * (n / 2) < (count + 1) * 8
  {
    hide PowerOfTwo;
    n := 8;
    PowerOfEight();
    while n * 3 < (count + 1) * 4 * 2
      invariant n >= 8 && PowerOfTwo(n) && (n == 8 || 3 * (n / 2) < (count + 1) * 8)
      decreases (count + 1) * 8 - n * 3
    {
      Doubled(n);
      n := n * 2;
    }
  }

  lemma Doubled(n: nat)
    requires PowerOfTwo(n)
    ensures PowerOfTwo(n * 2)
  {}

  // ----- items and their memory -----

  /** The value bytes an item occupies; containers keep an index of four bytes. */
  function Vlen(v: Value): nat {
    if v.Str? then |v.bytes| else 4
  }

  function Size(key: Bytes, vlen: nat): nat {
    HEADER + |key| + vlen
  }

  /** The item's memory is live and holds it; a mapping of its own is as long as the header says. */
  ghost predicate Housed(it: Item, sizes: seq<nat>, live: set<Region>, big: set<Region>) {
    && Vlen(it.val) < WORD && it.p > 0
    && if it.cls < |sizes| then Size(it.key, Vlen(it.val)) <= sizes[it.cls] && Region(it.p, sizes[it.cls]) in live
       else it.cls == BIG && Size(it.key, Vlen(it.val)) > MAX_SMALL && Region(it.p, RoundPage(Size(it.key, Vlen(it.val)))) in big
  }

  function Extent(it: Item, sizes: seq<nat>): Region {
    if it.cls < |sizes| then Region(it.p, sizes[it.cls]) else Region(it.p, RoundPage(Size(it.key, Vlen(it.val))))
  }

  /** Items and live memory correspond one to one. */
  ghost predicate House(m: map<Bytes, Item>, sizes: seq<nat>, live: set<Region>, big: set<Region>) {
    && (forall k :: k in m ==> Housed(m[k], sizes, live, big))
    && (forall k, l :: k in m && l in m && k != l ==> Extent(m[k], sizes) != Extent(m[l], sizes))
    && (forall r :: r in live ==> Inhabited(m, sizes, r, true))
    && (forall r :: r in big ==> Inhabited(m, sizes, r, false))
  }

  ghost predicate Inhabited(m: map<Bytes, Item>, sizes: seq<nat>, r: Region, small: bool) {
    exists k :: k in m && Extent(m[k], sizes) == r && (m[k].cls < |sizes| <==> small)
  }

  function Out(it: Item, sizes: seq<nat>, live: set<Region>): set<Region> {
    if it.cls < |sizes| then live - {Extent(it, sizes)} else live
  }

  function OutBig(it: Item, sizes: seq<nat>, big: set<Region>): set<Region> {
    if it.cls < |sizes| then big else big - {Extent(it, sizes)}
  }

  function In(it: Item, sizes: seq<nat>, live: set<Region>): set<Region> {
    if it.cls < |sizes| then live + {Extent(it, sizes)} else live
  }

  function InBig(it: Item, sizes: seq<nat>, big: set<Region>): set<Region> {
    if it.cls < |sizes| then big else big + {Extent(it, sizes)}
  }

  /** An item moves out. */
  lemma MoveOut(m: map<Bytes, Item>, sizes: seq<nat>, live: set<Region>, big: set<Region>, k: Bytes)
    requires House(m, sizes, live, big) && k in m
    ensures House(m - {k}, sizes, Out(m[k], sizes, live), OutBig(m[k], sizes, big))
  {
    var m', live', big' := m - {k}, Out(m[k], sizes, live), OutBig(m[k], sizes, big);
    forall q | q in live'
      ensures Inhabited(m', sizes, q, true)
    {
      OthersStay(m, sizes, k, q, true);
    }
    forall q | q in big'
      ensures Inhabited(m', sizes, q, false)
    {
      OthersStay(m, sizes, k, q, false);
    }
  }

  lemma OthersStay(m: map<Bytes, Item>, sizes: seq<nat>, k: Bytes, q: Region, small: bool)
    requires k in m && Inhabited(m, sizes, q, small) && (q != Extent(m[k], sizes) || (small <==> m[k].cls >= |sizes|))
    ensures Inhabited(m - {k}, sizes, q, small)
  {
    var l :| l in m && Extent(m[l], sizes) == q && (m[l].cls < |sizes| <==> small);
    assert l in m - {k};
  }

  /** Memory that an item can move into. */
  ghost predicate Vacant(it: Item, sizes: seq<nat>, live: set<Region>, big: set<Region>) {
    && Vlen(it.val) < WORD && it.p > 0 && (it.cls < |sizes| || it.cls == BIG)
    && (it.cls < |sizes| ==> Size(it.key, Vlen(it.val)) <= sizes[it.cls] && Extent(it, sizes) !in live)
    && (it.cls >= |sizes| ==> Size(it.key, Vlen(it.val)) > MAX_SMALL && Extent(it, sizes) !in big)
  }

  /** An item moves in. */
  lemma MoveIn(m: map<Bytes, Item>, sizes: seq<nat>, live: set<Region>, big: set<Region>, it: Item)
    requires House(m, sizes, live, big) && it.key !in m && Vacant(it, sizes, live, big)
    requires forall c :: 0 <= c < |sizes| ==> sizes[c] <= MAX_SMALL
    ensures House(m[it.key := it], sizes, In(it, sizes, live), InBig(it, sizes, big))
  {
    var r, m' := Extent(it, sizes), m[it.key := it];
    forall k | k in m
      ensures Extent(m[k], sizes) != r
    {
      assert Housed(m[k], sizes, live, big);
    }
    var live', big' := In(it, sizes, live), InBig(it, sizes, big);
    forall q, small | (small && q in live') || (!small && q in big')
      ensures Inhabited(m', sizes, q, small)
    {
      if q == r && (small <==> it.cls < |sizes|) {
        assert Extent(m'[it.key], sizes) == r;
      } else {
        assert Inhabited(m, sizes, q, small);
        var l :| l in m && Extent(m[l], sizes) == q && (m[l].cls < |sizes| <==> small);
        assert l in m' && m'[l] == m[l];
      }
    }
  }

  /** An item is replaced by another one that has memory of its own. */
  lemma MoveOver(m: map<Bytes, Item>, sizes: seq<nat>, live: set<Region>, big: set<Region>, it: Item)
    requires House(m, sizes, live, big) && it.key in m && Vacant(it, sizes, live, big)
    requires forall c :: 0 <= c < |sizes| ==> sizes[c] <= MAX_SMALL
    ensures var was := m[it.key];
      && House(m[it.key := it], sizes, Out(was, sizes, In(it, sizes, live)), OutBig(was, sizes, InBig(it, sizes, big)))
      && Housed(was, sizes, In(it, sizes, live), InBig(it, sizes, big))
  {
    var was := m[it.key];
    InHouse(m, sizes, live, big, it.key);
    MoveOut(m, sizes, live, big, it.key);
    MoveIn(m - {it.key}, sizes, Out(was, sizes, live), OutBig(was, sizes, big), it);
    assert (m - {it.key})[it.key := it] == m[it.key := it];
    assert In(it, sizes, Out(was, sizes, live)) == Out(was, sizes, In(it, sizes, live));
    assert InBig(it, sizes, OutBig(was, sizes, big)) == OutBig(was, sizes, InBig(it, sizes, big));
  }

  /** An item changes within the memory it has. */
  lemma StayIn(m: map<Bytes, Item>, sizes: seq<nat>, live: set<Region>, big: set<Region>, it: Item)
    requires House(m, sizes, live, big) && it.key in m && it.p == m[it.key].p && it.cls == m[it.key].cls
    requires Vlen(it.val) < WORD && m[it.key].key == it.key
    requires it.cls < |sizes| ==> Size(it.key, Vlen(it.val)) <= sizes[it.cls]
    requires it.cls >= |sizes| ==> Vlen(it.val) == Vlen(m[it.key].val)
    ensures House(m[it.key := it], sizes, live, big)
  {
    var m' := m[it.key := it];
    assert Extent(it, sizes) == Extent(m[it.key], sizes);
    forall q, small | (small && q in live) || (!small && q in big)
      ensures Inhabited(m', sizes, q, small)
    {
      assert Inhabited(m, sizes, q, small);
      var l :| l in m && Extent(m[l], sizes) == q && (m[l].cls < |sizes| <==> small);
      assert l in m' && Extent(m'[l], sizes) == q;
    }
  }

  // ----- the shard -----

  predicate Expired(it: Item, now: int) {
    it.exp != 0 && it.exp <= now
  }

  /** What a client can see of an item. */
  datatype Entry = Entry(val: Value, exp: int)

  ghost function Abs(m: map<Bytes, Item>): map<Bytes, Entry> {
    map k | k in m :: Entry(m[k].val, m[k].exp)
  }

  class Shard {
    const hash: Bytes -> nat
    const pool: Pool
    var slots: seq<Slot>
    var count: int
    var tombs: int
    var nexp: int
    var used: int
    ghost var m: map<Bytes, Item>

    /** The table represents `m`; counters, load and memory agree with it. */
    ghost predicate Valid()
      reads this, pool, pool.arena, pool.arena.os
    {
      && Sound() && pool.Valid() && House(m, pool.sizes, pool.LiveSet(), pool.big)
    }

    ghost predicate Sound()
      reads this
    {
      && Table(hash, slots, m) && Counted(slots, count, tombs, nexp, used) && Loaded(slots, count, tombs)
      && |m| == count
    }

    constructor (h: Bytes -> nat, p: Pool)
      requires p.Valid() && p.LiveSet() == {} && p.big == {}
      ensures Valid() && m == map[] && hash == h && pool == p
    {
      hash, pool := h, p;
      slots, count, tombs, nexp, used := Blank(8), 0, 0, 0, 0;
      m := map[];
      new;
      EmptyTable(hash, 8);
      assert Blank(8) == seq(8, i => Empty);
      CountedBlank(8);
      PowerOfEight();
    }

    /** The slot of a key, or where it can go. */
    method Find(key: Bytes) returns (idx: int, ins: int)
      requires Sound()
      ensures Found(hash, slots, m, key, idx, ins)
    {
      hide Table, Found, Total;
      ghost var e := SomeEmpty(slots, count, tombs, nexp, used);
      idx, ins := Probe(hash, slots, key, m, e);
    }

    /** Empties slot idx: a tombstone, unless no probe can have passed it. */
    method Unlink(idx: nat)
      requires Sound() && idx < |slots| && slots[idx].Full?
      modifies this
      ensures Sound() && m == old(m) - {old(slots[idx].it.key)}
      ensures |slots| == |old(slots)| && !slots[idx].Full? && slots == old(slots)[idx := slots[idx]]
      ensures used == old(used) - Cost(old(slots[idx].it)) && count + tombs <= old(count + tombs)
    {
      hide Table, Total;
      var it := slots[idx].it;
      TagTold(hash, slots, m, idx);
      used := used - Cost(it);
      if it.exp != 0 {
        nexp := nexp - 1;
      }
      var to := Tomb;
      if slots[Next(idx, |slots|)] == Empty {
        to := Empty;
      } else {
        tombs := tombs + 1;
      }
      Cleared(hash, slots, m, idx, to);
      CountedUpdate(slots, count, old(tombs), old(nexp), old(used), idx, to);
      slots := slots[idx := to];
      count := count - 1;
      m := m - {it.key};
    }

    /** Puts an item with a new key into a free slot. */
    method Link(ins: nat, it: Item)
      requires Sound() && FreeFor(hash, slots, it.key, ins) && it.key !in m && 4 * (count + tombs + 1) <= 3 * |slots|
      modifies this
      ensures Sound() && m == old(m)[it.key := it] && |slots| == |old(slots)| && slots[ins].Full? && slots[ins].it == it
      ensures used == old(used) + Cost(it)
    {
      hide Table, Total, ClearTo;
      var s := Full(Tag(hash(it.key)), it);
      Filled(hash, slots, m, ins, it);
      CountedUpdate(slots, count, tombs, nexp, used, ins, s);
      if slots[ins] == Tomb {
        tombs := tombs - 1;
      }
      slots := slots[ins := s];
      count := count + 1;
      if it.exp != 0 {
        nexp := nexp + 1;
      }
      used := used + Cost(it);
      m := m[it.key := it];
    }

    /** Puts another item with the same key into slot idx. */
    method Swap(idx: nat, it: Item)
      requires Sound() && idx < |slots| && slots[idx].Full? && slots[idx].it.key == it.key
      modifies this
      ensures Sound() && m == old(m)[it.key := it] && |slots| == |old(slots)| && slots[idx].Full? && slots[idx].it == it
      ensures used == old(used) - Cost(old(slots[idx].it)) + Cost(it)
    {
      hide Table, Total;
      TagTold(hash, slots, m, idx);
      Swapped(hash, slots, m, idx, it);
      CountedUpdate(slots, count, tombs, nexp, used, idx, slots[idx].(it := it));
      if slots[idx].it.exp != 0 {
        nexp := nexp - 1;
      }
      if it.exp != 0 {
        nexp := nexp + 1;
      }
      used := used + (Cost(it) - Cost(slots[idx].it));
      slots := slots[idx := slots[idx].(it := it)];
      m := m[it.key := it];
    }

    method Rehash(n: nat)
      requires Sound() && n >= 8 && PowerOfTwo(n) && 4 * count <= 3 * n
      modifies this
      ensures Sound() && m == old(m) && |slots| == n && tombs == 0 && count == old(count) && used == old(used)
    {
      hide Table, Total;
      slots := Rehashed(hash, slots, n, m, count, tombs, nexp, used);
      tombs := 0;
    }

    /** Makes room for one more item before a search that may be followed by an insertion. */
    method Grow()
      requires Sound()
      modifies this
      ensures Sound() && m == old(m) && used == old(used) && 4 * (count + tombs + 1) <= 3 * |slots|
    {
      hide Table, Total, PowerOfTwo;
      if (count + tombs + 1) * 4 > |slots| * 3 {
        CountNat(slots, count, tombs, nexp, used);
        var n := FitSize(count);
        Rehash(n);
      }
    }

    /** Shrinks the table to fit. */
    method Shrink()
      requires Sound()
      modifies this
      ensures Sound() && m == old(m) && used == old(used)
    {
      hide Table, Total, PowerOfTwo;
      CountNat(slots, count, tombs, nexp, used);
      var n := FitSize(count);
      Rehash(n);
    }

    /** Takes the item out of slot idx and gives its memory back. */
    method Del(idx: nat)
      requires Valid() && idx < |slots| && slots[idx].Full?
      modifies this, pool, pool.arena.os
      ensures Valid() && m == old(m) - {old(slots[idx].it.key)}
      ensures |slots| == |old(slots)| && !slots[idx].Full? && slots == old(slots)[idx := slots[idx]]
      ensures used == old(used) - Cost(old(slots[idx].it)) && count + tombs <= old(count + tombs)
      ensures Respects(old(pool.World()), pool.World())
      ensures var it := old(slots[idx].it);
        pool.arena.os.mapped == old(pool.arena.os.mapped) - (if it.cls == BIG then {Extent(it, pool.sizes)} else {})
    {
      hide Table, Counted, Loaded, House, Pool.Valid, Pool.LiveSet, RoundPage, Respects, Pool.World, Cost, Total;
      var it := slots[idx].it;
      TagTold(hash, slots, m, idx);
      MoveOut(m, pool.sizes, pool.LiveSet(), pool.big, it.key);
      InHouse(m, pool.sizes, pool.LiveSet(), pool.big, it.key);
      PoolClasses(pool);
      pool.Free(it.p, it.cls, Size(it.key, Vlen(it.val) % WORD));
      Unlink(idx);
    }

    /** Looks a key up; an item found expired is removed. */
    method Get(key: Bytes, now: int) returns (idx: int, ins: int)
      requires Valid()
      modifies this, pool, pool.arena.os
      ensures Valid() && Found(hash, slots, m, key, idx, ins)
      ensures m == (if key in old(m) && Expired(old(m)[key], now) then old(m) - {key} else old(m))
      ensures idx >= 0 ==> !Expired(m[key], now)
      ensures |slots| == |old(slots)| && count + tombs <= old(count + tombs)
      ensures Respects(old(pool.World()), pool.World())
    {
      hide Table, Counted, House, Pool.Valid, Pool.LiveSet, ClearTo;
      idx, ins := Find(key);
      if idx >= 0 && Expired(slots[idx].it, now) {
        ghost var was := slots;
        ReachedFor(hash, slots, m, idx);
        Del(idx);
        FreedFor(hash, was, slots, key, idx, ins);
        if ins < 0 {
          ins := idx;
        }
        idx := -1;
      }
    }

    /** Memory for an item of this shard. */
    method NewItem(key: Bytes, room: nat, ghost val: Value, ghost exp: int) returns (p: nat, cls: nat)
      requires pool.Valid() && House(m, pool.sizes, pool.LiveSet(), pool.big)
      requires Vlen(val) <= room && (Size(key, room) > MAX_SMALL ==> room == Vlen(val))
      modifies pool, pool.arena, pool.arena.os
      ensures pool.Valid()
      ensures var it := Item(p, cls, key, val, exp);
        && (Vlen(val) < WORD ==> Vacant(it, pool.sizes, old(pool.LiveSet()), old(pool.big)))
        && pool.LiveSet() == In(it, pool.sizes, old(pool.LiveSet())) && pool.big == InBig(it, pool.sizes, old(pool.big))
      ensures Size(key, room) <= MAX_SMALL ==> Smallest(pool.sizes, Size(key, room), cls)
      ensures Respects(old(pool.World()), pool.World())
    {
      hide House, Pool.Valid, Pool.LiveSet, RoundPage;
      PoolClasses(pool);
      p, cls := pool.Alloc(Size(key, room));
    }

    /** The memory of a new item: live, but not yet in the table. */
    ghost predicate Ready(it: Item, live: set<Region>, big: set<Region>)
      reads this, pool, pool.arena, pool.arena.os
    {
      && Sound() && pool.Valid() && House(m, pool.sizes, live, big) && Vacant(it, pool.sizes, live, big)
      && pool.LiveSet() == In(it, pool.sizes, live) && pool.big == InBig(it, pool.sizes, big)
    }

    method Insert(ins: nat, it: Item, ghost live: set<Region>, ghost big: set<Region>)
      requires Ready(it, live, big) && FreeFor(hash, slots, it.key, ins) && it.key !in m
      requires 4 * (count + tombs + 1) <= 3 * |slots|
      modifies this
      ensures Valid() && m == old(m)[it.key := it] && used == old(used) + Cost(it)
      ensures |slots| == |old(slots)| && slots[ins].Full? && slots[ins].it == it
    {
      hide Table, Counted, House, Pool.Valid, Pool.LiveSet, ClearTo;
      PoolClasses(pool);
      MoveIn(m, pool.sizes, live, big, it);
      Link(ins, it);
    }

    /** Puts `nw` in the place of an item with the same key, and gives the old one's memory back. */
    method Replace(idx: nat, nw: Item, ghost live: set<Region>, ghost big: set<Region>)
      requires Ready(nw, live, big) && idx < |slots| && slots[idx].Full? && slots[idx].it.key == nw.key
      modifies this, pool, pool.arena.os
      ensures Valid() && m == old(m)[nw.key := nw] && used == old(used) - Cost(old(slots[idx].it)) + Cost(nw)
      ensures Respects(old(pool.World()), pool.World())
    {
      hide Table, Counted, House, Pool.Valid, Pool.LiveSet, RoundPage;
      PoolClasses(pool);
      var was := slots[idx].it;
      TagTold(hash, slots, m, idx);
      MoveOver(m, pool.sizes, live, big, nw);
      pool.Free(was.p, was.cls, Size(was.key, Vlen(was.val) % WORD));
      Swap(idx, nw);
    }

    /** How many value bytes the item can hold where it is. */
    function Capacity(it: Item): int {
      if it.cls < |pool.sizes| then pool.sizes[it.cls] - HEADER - |it.key| else Vlen(it.val)
    }

    /** Changes an item where it is. */
    method Update(idx: nat, it: Item)
      requires Valid() && idx < |slots| && slots[idx].Full?
      requires it.key == slots[idx].it.key && it.p == slots[idx].it.p && it.cls == slots[idx].it.cls
      requires Vlen(it.val) == Vlen(slots[idx].it.val) || (it.cls < |pool.sizes| && Vlen(it.val) <= Capacity(it) && Vlen(it.val) < WORD)
      modifies this
      ensures Valid() && m == old(m)[it.key := it] && used == old(used) - Cost(old(slots[idx].it)) + Cost(it)
      ensures |slots| == |old(slots)| && slots[idx].Full? && slots[idx].it == it
    {
      hide Table, Counted, House, Pool.Valid, Pool.LiveSet;
      TagTold(hash, slots, m, idx);
      InHouse(m, pool.sizes, pool.LiveSet(), pool.big, it.key);
      StayIn(m, pool.sizes, pool.LiveSet(), pool.big, it);
      Swap(idx, it);
    }

    /** Stores a string under a key; idx and ins come from a search for it. */
    method SetStr(idx: int, ins: int, key: Bytes, val: Bytes, exp: int)
      requires Valid() && Found(hash, slots, m, key, idx, ins) && |val| < WORD
      requires idx < 0 ==> 4 * (count + tombs + 1) <= 3 * |slots|
      modifies this, pool, pool.arena, pool.arena.os
      ensures Valid() && Abs(m) == Abs(old(m))[key := Entry(Str(val), exp)]
      ensures Respects(old(pool.World()), pool.World())
    {
      hide Table, Counted, House, Pool.Valid, Pool.LiveSet, Loaded, ClearTo, Vacant;
      if idx >= 0 {
        var it := slots[idx].it;
        if it.val.Str? && |val| <= Capacity(it) && it.cls < |pool.sizes| {
          Update(idx, it.(val := Str(val), exp := exp));
          return;
        }
      }
      ghost var live, big := pool.LiveSet(), pool.big;
      ghost var w0 := pool.World();
      var p, cls := NewItem(key, |val|, Str(val), exp);
      ghost var w1 := pool.World();
      var nw := Item(p, cls, key, Str(val), exp);
      if idx >= 0 {
        Replace(idx, nw, live, big);
        RespectsOn(w0, w1, pool.World());
      } else {
        Insert(ins, nw, live, big);
      }
    }

    /** Unmaps the dedicated mappings. */
    method FreeBig()
      requires Valid()
      modifies pool, pool.arena.os
      ensures pool.Valid() && pool.big == {} && pool.blocks == old(pool.blocks)
      ensures pool.arena.os.mapped == old(pool.arena.os.mapped) - old(pool.big)
    {
      hide Table, Counted, Loaded, House, Pool.Valid, Pool.LiveSet, RoundPage;
      ghost var rest := m;  // the items that still have memory
      PoolClasses(pool);
      forall j | 0 <= j < |slots| && slots[j].Full?
        ensures slots[j].it.key in rest
      {
        TagTold(hash, slots, m, j);
      }
      for i := 0 to |slots|
        invariant pool.Valid() && House(rest, pool.sizes, pool.LiveSet(), pool.big) && pool.blocks == old(pool.blocks)
        invariant pool.big <= old(pool.big)
        invariant pool.arena.os.mapped == old(pool.arena.os.mapped) - (old(pool.big) - pool.big)
        invariant forall j :: i <= j < |slots| && slots[j].Full? ==> slots[j].it.key in rest
        invariant forall k :: k in rest ==> k in m && rest[k] == m[k]
        invariant forall j :: 0 <= j < i && slots[j].Full? && slots[j].it.cls >= |pool.sizes| ==> slots[j].it.key !in rest
      {
        if slots[i].Full? {
          var it := slots[i].it;
          TagTold(hash, slots, m, i);
          if it.cls == BIG {
            MoveOut(rest, pool.sizes, pool.LiveSet(), pool.big, it.key);
            InHouse(rest, pool.sizes, pool.LiveSet(), pool.big, it.key);
            pool.Free(it.p, it.cls, Size(it.key, Vlen(it.val) % WORD));
            rest := rest - {it.key};
            OtherKeys(hash, slots, m, i);
          } else {
            InHouse(m, pool.sizes, old(pool.LiveSet()), old(pool.big), it.key);
          }
        }
      }
      NoBigLeft(hash, slots, m, rest, pool.sizes, pool.LiveSet(), pool.big);
    }

    /** Forgets every item and gives all memory back. */
    method Flush()
      requires Valid()
      modifies this, pool, pool.arena.os
      ensures Valid() && m == map[] && used == 0 && pool.big == {} && pool.blocks == {}
      ensures Respects(old(pool.World()), pool.World()) && pool.arena.os.mapped == old(pool.arena.os.mapped) - old(pool.big)
    {
      hide Table, Counted, House, Pool.Valid, Pool.LiveSet;
      FreeBig();
      pool.Forget();
      slots, count, tombs, nexp, used := Blank(8), 0, 0, 0, 0;
      m := map[];
      EmptyTable(hash, 8);
      assert Blank(8) == seq(8, i => Empty);
      CountedBlank(8);
      PowerOfEight();
      EmptyHouse(pool.sizes);
    }

    /** Stores an empty container under a new key. */
    method NewContainer(ins: int, key: Bytes, val: Value) returns (it: Item)
      requires Valid() && key !in m && FreeFor(hash, slots, key, ins) && !val.Str?
      requires 4 * (count + tombs + 1) <= 3 * |slots|
      modifies this, pool, pool.arena, pool.arena.os
      ensures Valid() && Abs(m) == Abs(old(m))[key := Entry(val, 0)] && it.key == key && it.val == val && it.exp == 0
      ensures Respects(old(pool.World()), pool.World()) && 0 <= ins < |slots| && slots[ins].Full? && slots[ins].it == it
    {
      hide Table, Counted, House, Pool.Valid, Pool.LiveSet, Loaded, ClearTo, Vacant;
      ghost var live, big := pool.LiveSet(), pool.big;
      var p, cls := NewItem(key, 4, val, 0);
      it := Item(p, cls, key, val, 0);
      Insert(ins, it, live, big);
    }
  }

  /** The slot of a key is within its reach. */
  lemma ReachedFor(hash: Bytes -> nat, slots: seq<Slot>, m: map<Bytes, Item>, i: nat)
    requires Table(hash, slots, m) && i < |slots| && slots[i].Full?
    ensures ClearTo(slots, Home(hash(slots[i].it.key), |slots|), i)
  {
    assert FullAt(hash, slots, i, m);
  }

  /** Emptying the key's slot leaves the free slot found before it, or is itself free for the key. */
  lemma FreedFor(hash: Bytes -> nat, was: seq<Slot>, slots: seq<Slot>, key: Bytes, idx: nat, ins: int)
    requires idx < |was| == |slots| && slots == was[idx := slots[idx]] && !slots[idx].Full?
    requires ClearTo(was, Home(hash(key), |was|), idx)
    requires ins >= 0 ==> FreeFor(hash, was, key, ins) && OnPath(Home(hash(key), |was|), idx, ins)
    ensures FreeFor(hash, slots, key, idx) && (ins >= 0 ==> FreeFor(hash, slots, key, ins))
  {}

  lemma EmptyHouse(sizes: seq<nat>)
    ensures House(map[], sizes, {}, {})
  {}

  lemma OtherKeys(hash: Bytes -> nat, slots: seq<Slot>, m: map<Bytes, Item>, i: nat)
    requires Table(hash, slots, m) && i < |slots| && slots[i].Full?
    ensures forall j :: 0 <= j < |slots| && j != i && slots[j].Full? ==> slots[j].it.key != slots[i].it.key
  {}

  lemma NoBigLeft(hash: Bytes -> nat, slots: seq<Slot>, m: map<Bytes, Item>, rest: map<Bytes, Item>, sizes: seq<nat>,
                  live: set<Region>, big: set<Region>)
    requires Table(hash, slots, m) && House(rest, sizes, live, big)
    requires forall k :: k in rest ==> k in m && rest[k] == m[k]
    requires forall j :: 0 <= j < |slots| && slots[j].Full? && slots[j].it.cls >= |sizes| ==> slots[j].it.key !in rest
    ensures big == {}
  {
    forall r
      ensures r !in big
    {
      if r in big {
        BigHasSlot(hash, slots, m, rest, sizes, r);
      }
    }
  }

  lemma BigHasSlot(hash: Bytes -> nat, slots: seq<Slot>, m: map<Bytes, Item>, rest: map<Bytes, Item>, sizes: seq<nat>, r: Region)
    requires Table(hash, slots, m) && Inhabited(rest, sizes, r, false)
    requires forall k :: k in rest ==> k in m && rest[k] == m[k]
    ensures exists j :: 0 <= j < |slots| && slots[j].Full? && slots[j].it.cls >= |sizes| && slots[j].it.key in rest
  {
    var k :| k in rest && Extent(rest[k], sizes) == r && (rest[k].cls < |sizes| <==> false);
    assert HasKey(slots, k);
    var j :| 0 <= j < |slots| && slots[j].Full? && slots[j].it.key == k;
    TagTold(hash, slots, m, j);
  }

  lemma CountNat(slots: seq<Slot>, count: int, tombs: int, nexp: int, used: int)
    requires Counted(slots, count, tombs, nexp, used)
    ensures count >= 0 && tombs >= 0
  {
    NoneNegative(slots);
  }

  lemma PowerOfEight()
    ensures PowerOfTwo(8)
  {
    assert PowerOfTwo(1) && PowerOfTwo(2) && PowerOfTwo(4);
  }

  lemma PoolClasses(pool: Pool)
    requires pool.Valid()
    ensures |pool.sizes| <= 80 && forall c :: 0 <= c < |pool.sizes| ==> pool.sizes[c] <= MAX_SMALL
  {}

  /** No item has a value of 4 GiB or more, so the length that its header keeps in 32 bits is the true one: what is
      released for an item with a mapping of its own is exactly what was mapped. */
  lemma ReleasedAsMapped(s: Shard, k: Bytes)
    requires s.Valid() && k in s.m
    ensures var it := s.m[k];
      && it.key == k && Vlen(it.val) < WORD
      && (it.cls == BIG ==>
           var r := Region(it.p, RoundPage(Size(it.key, Vlen(it.val) % WORD)));
           r in s.pool.big && r in s.pool.arena.os.mapped && r !in s.pool.arena.chunks)
  {
    hide Counted, Loaded, House, RoundPage, Pieces, Spares, Rests, LookupTable, ClassTable, Arena.Valid;
    InHouse(s.m, s.pool.sizes, s.pool.LiveSet(), s.pool.big, k);
    PoolClasses(s.pool);
    KeyOfItem(s.hash, s.slots, s.m, k);
  }

  lemma KeyOfItem(hash: Bytes -> nat, slots: seq<Slot>, m: map<Bytes, Item>, k: Bytes)
    requires Table(hash, slots, m) && k in m
    ensures m[k].key == k
  {
    assert HasKey(slots, k);
    var j :| 0 <= j < |slots| && slots[j].Full? && slots[j].it.key == k;
    TagTold(hash, slots, m, j);
  }

  lemma InHouse(m: map<Bytes, Item>, sizes: seq<nat>, live: set<Region>, big: set<Region>, k: Bytes)
    requires House(m, sizes, live, big) && k in m
    ensures Housed(m[k], sizes, live, big)
  {}
}
