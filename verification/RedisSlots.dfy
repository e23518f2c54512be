/** The slot array of a shard: open addressing with tombstones, as a representation of a finite map. */
module RedisSlots {
  newtype Byte = x: int | 0 <= x < 256

  type Bytes = seq<Byte>

  /** A string, or a container with the cost it keeps of its contents. */
  datatype Value = Str(bytes: Bytes) | List(elems: seq<Bytes>, cost: int) | Hash(fields: map<Bytes, Bytes>, cost: int)

  /** A record in memory at address `p`, taken from size class `cls`; it expires at `exp` unless that is 0. */
  datatype Item = Item(p: nat, cls: nat, key: Bytes, val: Value, exp: int)

  datatype Slot = Empty | Tomb | Full(tag: nat, it: Item)

  // ----- probing -----

  function Home(h: nat, n: nat): (i: nat)
    requires n > 0
    ensures i < n
  {
    h / 256 % n
  }

  function Tag(h: nat): nat {
    h / 0x1_0000_0000_0000
  }

  function Next(i: nat, n: nat): (j: nat)
    requires i < n
    ensures j < n
  {
    if i + 1 == n then 0 else i + 1
  }

  /** Slot j is probed before slot i on the way from `home`. */
  predicate OnPath(home: nat, i: nat, j: nat) {
    if home <= i then home <= j < i else home <= j || j < i
  }

  lemma PathStep(home: nat, i: nat, n: nat, j: nat)
    requires home < n && i < n && j < n && Next(i, n) != home
    ensures OnPath(home, Next(i, n), j) <==> OnPath(home, i, j) || j == i
  {}

  /** No probe for the item in slot i meets an empty slot first. */
  ghost predicate Reachable(hash: Bytes -> nat, slots: seq<Slot>, i: nat)
    requires i < |slots| && slots[i].Full?
  {
    ClearTo(slots, Home(hash(slots[i].it.key), |slots|), i)
  }

  ghost predicate ClearTo(slots: seq<Slot>, home: nat, i: nat) {
    forall j :: 0 <= j < |slots| && OnPath(home, i, j) ==> slots[j] != Empty
  }

  ghost predicate HasKey(slots: seq<Slot>, k: Bytes) {
    exists i :: 0 <= i < |slots| && slots[i].Full? && slots[i].it.key == k
  }

  ghost predicate FullAt(hash: Bytes -> nat, slots: seq<Slot>, i: nat, m: map<Bytes, Item>)
    requires i < |slots|
  {
    slots[i].Full? ==>
      && Reachable(hash, slots, i) && slots[i].tag == Tag(hash(slots[i].it.key))
      && slots[i].it.key in m && m[slots[i].it.key] == slots[i].it
  }

  /** The slots hold exactly the items of `m`, each under its key, once, and within reach. */
  ghost predicate Table(hash: Bytes -> nat, slots: seq<Slot>, m: map<Bytes, Item>) {
    && (forall i :: 0 <= i < |slots| ==> FullAt(hash, slots, i, m))
    && (forall i, j :: 0 <= i < j < |slots| && slots[i].Full? && slots[j].Full? ==> slots[i].it.key != slots[j].it.key)
    && (forall k :: k in m ==> HasKey(slots, k) && m[k].key == k)
  }

  /** A probe that comes to an empty slot has missed nothing. */
  lemma NotBeyondEmpty(hash: Bytes -> nat, slots: seq<Slot>, m: map<Bytes, Item>, k: Bytes, i: nat)
    requires Table(hash, slots, m) && i < |slots| && slots[i] == Empty
    requires forall j :: 0 <= j < |slots| && OnPath(Home(hash(k), |slots|), i, j) ==> !(slots[j].Full? && slots[j].it.key == k)
    ensures k !in m
  {
    if k in m {
      assert HasKey(slots, k);
      var j :| 0 <= j < |slots| && slots[j].Full? && slots[j].it.key == k;
      FoundFirst(hash, slots, m, k, i, j);
    }
  }

  lemma FoundFirst(hash: Bytes -> nat, slots: seq<Slot>, m: map<Bytes, Item>, k: Bytes, i: nat, j: nat)
    requires Table(hash, slots, m) && i < |slots| && slots[i] == Empty
    requires j < |slots| && slots[j].Full? && slots[j].it.key == k
    ensures OnPath(Home(hash(k), |slots|), i, j)
  {
    assert FullAt(hash, slots, j, m);
    assert !OnPath(Home(hash(k), |slots|), j, i);
  }

  // ----- changing one slot -----

  /** Filling a free slot that a probe for the key reaches. */
  lemma Filled(hash: Bytes -> nat, slots: seq<Slot>, m: map<Bytes, Item>, i: nat, it: Item)
    requires Table(hash, slots, m) && i < |slots| && !slots[i].Full? && it.key !in m
    requires ClearTo(slots, Home(hash(it.key), |slots|), i)
    ensures Table(hash, slots[i := Full(Tag(hash(it.key)), it)], m[it.key := it])
  {
    var s, m' := slots[i := Full(Tag(hash(it.key)), it)], m[it.key := it];
    forall j | 0 <= j < |s|
      ensures FullAt(hash, s, j, m') && (j != i && s[j].Full? ==> s[j].it.key != it.key)
    {
      if j != i {
        assert FullAt(hash, slots, j, m);
      }
    }
    forall k | k in m'
      ensures HasKey(s, k)
    {
      if k == it.key {
        assert s[i].it.key == k;
      } else {
        assert HasKey(slots, k);
        var j :| 0 <= j < |slots| && slots[j].Full? && slots[j].it.key == k;
        assert s[j] == slots[j];
      }
    }
  }

  /** Clearing a slot: a tombstone always does, nothing at all only if the next slot is empty. */
  lemma Cleared(hash: Bytes -> nat, slots: seq<Slot>, m: map<Bytes, Item>, i: nat, to: Slot)
    requires Table(hash, slots, m) && i < |slots| && slots[i].Full?
    requires to == Tomb || (to == Empty && slots[Next(i, |slots|)] == Empty)
    ensures Table(hash, slots[i := to], m - {slots[i].it.key})
  {
    var s, m' := slots[i := to], m - {slots[i].it.key};
    forall j | 0 <= j < |s|
      ensures FullAt(hash, s, j, m')
    {
      assert FullAt(hash, slots, j, m);
      if j != i && s[j].Full? && to == Empty {
        NotThrough(hash, slots, i, j);
      }
    }
    forall k | k in m'
      ensures HasKey(s, k)
    {
      assert HasKey(slots, k);
      var j :| 0 <= j < |slots| && slots[j].Full? && slots[j].it.key == k;
      assert s[j] == slots[j];
    }
  }

  /** No probe passes a slot whose successor is empty. */
  lemma NotThrough(hash: Bytes -> nat, slots: seq<Slot>, i: nat, j: nat)
    requires i < |slots| && j < |slots| && i != j && slots[j].Full? && Reachable(hash, slots, j)
    requires slots[Next(i, |slots|)] == Empty
    ensures !OnPath(Home(hash(slots[j].it.key), |slots|), j, i)
  {
    var home, n := Home(hash(slots[j].it.key), |slots|), Next(i, |slots|);
    assert !OnPath(home, j, n);
    assert n != j;
  }

  /** Putting another item with the same key into a slot. */
  lemma Swapped(hash: Bytes -> nat, slots: seq<Slot>, m: map<Bytes, Item>, i: nat, it: Item)
    requires Table(hash, slots, m) && i < |slots| && slots[i].Full? && slots[i].it.key == it.key
    ensures Table(hash, slots[i := slots[i].(it := it)], m[it.key := it])
  {
    var s, m' := slots[i := slots[i].(it := it)], m[it.key := it];
    forall j | 0 <= j < |s|
      ensures FullAt(hash, s, j, m')
    {
      assert FullAt(hash, slots, j, m);
    }
    forall k | k in m'
      ensures HasKey(s, k)
    {
      if k == it.key {
        assert s[i].it.key == k;
      } else {
        assert HasKey(slots, k);
        var j :| 0 <= j < |slots| && slots[j].Full? && slots[j].it.key == k;
        assert s[j] == slots[j];
      }
    }
  }

  lemma EmptyTable(hash: Bytes -> nat, n: nat)
    ensures Table(hash, seq(n, i => Empty), map[])
  {}

  // ----- totals -----

  function Total(f: Slot -> int, slots: seq<Slot>): int {
    if slots == [] then 0 else Total(f, slots[..|slots| - 1]) + f(slots[|slots| - 1])
  }

  lemma {:induction false} TotalUpdate(f: Slot -> int, slots: seq<Slot>, i: nat, s: Slot)
    requires i < |slots|
    ensures Total(f, slots[i := s]) == Total(f, slots) - f(slots[i]) + f(s)
  {
    var n := |slots| - 1;
    if i == n {
      assert slots[i := s][..n] == slots[..n];
    } else {
      assert slots[i := s][..n] == slots[..n][i := s];
      TotalUpdate(f, slots[..n], i, s);
    }
  }

  lemma {:induction false} TotalBounds(f: Slot -> int, slots: seq<Slot>, lo: int, hi: int)
    requires forall i :: 0 <= i < |slots| ==> lo <= f(slots[i]) <= hi
    ensures lo * |slots| <= Total(f, slots) <= hi * |slots|
  {
    if slots != [] {
      var n := |slots| - 1;
      TotalBounds(f, slots[..n], lo, hi);
      assert lo * n + lo == lo * (n + 1) && hi * n + hi == hi * (n + 1);
    }
  }

  function IsFull(s: Slot): int {
    if s.Full? then 1 else 0
  }

  function IsTomb(s: Slot): int {
    if s.Tomb? then 1 else 0
  }

  function Expires(s: Slot): int {
    if s.Full? && s.it.exp != 0 then 1 else 0
  }

  function Payload(v: Value): int {
    match v
    case Str(b) => |b|
    case List(_, cost) => cost
    case Hash(_, cost) => cost
  }

  function Cost(it: Item): int {
    64 + |it.key| + Payload(it.val)
  }

  function CostOf(s: Slot): int {
    if s.Full? then Cost(s.it) else 0
  }
}
