/** All shards together: shared memory, active expiry, eviction and the commands on several keys. */
module RedisStore {
  import opened RedisSlots
  import opened RedisAlloc
  import opened RedisShard
  import opened RedisCommands

  const SHARDS := 256

  // ----- shards share one arena -----

  ghost predicate Separate(a: Pool, b: Pool)
    reads a, b
  {
    a.blocks !! b.blocks && a.big !! b.big
  }

  /** Everything a shard's memory consists of: its pieces of blocks and its dedicated mappings. */
  ghost function Territory(a: Pool): set<Region>
    reads a
  {
    a.owner.Keys + a.big
  }

  /** Memory of two shards never overlaps. */
  lemma NoOverlap(a: Pool, b: Pool, r: Region, q: Region)
    requires a.Valid() && b.Valid() && a.arena == b.arena && Separate(a, b)
    requires r in Territory(a) && q in Territory(b)
    ensures Apart(r, q)
  {
    if r in a.owner && q in b.owner {
      var x :| x in a.blocks && Within(r, x);
      var y :| y in b.blocks && Within(q, y);
      assert Apart(x, y);
    } else if r in a.owner {
      PieceInChunk(a, r, q);
    } else if q in b.owner {
      PieceInChunk(b, q, r);
    } else {
      assert Apart(r, q);
    }
  }

  /** Nor do a shard's own pieces and mappings. */
  lemma NoOverlapInside(a: Pool, r: Region, q: Region)
    requires a.Valid() && r in Territory(a) && q in Territory(a) && r != q
    ensures Apart(r, q)
  {
    if r in a.owner && q in a.big {
      PieceInChunk(a, r, q);
    } else if q in a.owner && r in a.big {
      PieceInChunk(a, q, r);
    }
  }

  lemma PieceInChunk(a: Pool, r: Region, q: Region)
    requires a.Valid() && r in a.owner && q in a.arena.os.mapped && q !in a.arena.chunks
    ensures Apart(r, q)
  {
    var x :| x in a.blocks && Within(r, x);
    var c :| c in a.arena.chunks && Within(x, c);
    assert Apart(c, q);
  }

  /** The shard that acts, and another one. */
  datatype Neighbours = Neighbours(a: Pool, b: Pool)

  /** What one shard does leaves the others intact. */
  twostate lemma Unharmed(n: Neighbours)
    requires n.a.arena == n.b.arena && old(n.a.Valid()) && old(n.b.Valid()) && old(Separate(n.a, n.b))
    requires n.a.Valid() && SamePool(n.b) && Respects(old(n.a.World()), n.a.World())
    ensures n.b.Valid() && Separate(n.a, n.b) && Separate(n.b, n.a)
  {
    hide Pieces, Spares, Rests, LookupTable, ClassTable, Arena.Valid, Respects;
    OthersKeep(old(n.a.World()), n.a.World(), n.b.blocks, n.b.big);
  }

  lemma OthersKeep(w0: World, w1: World, blocks: set<Region>, big: set<Region>)
    requires Respects(w0, w1) && blocks <= w0.given && blocks !! w0.blocks
    requires big <= w0.mapped && big !! w0.big && big !! w0.chunks
    ensures blocks <= w1.given && blocks !! w1.blocks && big <= w1.mapped && big !! w1.big && big !! w1.chunks
  {
    forall r | r in blocks
      ensures r in w1.given && r !in w1.blocks
    {
      assert r in w0.given - w0.blocks;
    }
    forall r | r in big
      ensures r in w1.mapped && r !in w1.big && r !in w1.chunks
    {
      assert r in w0.mapped - w0.big;
    }
  }

  /** A shard of a new store. */
  ghost predicate Blankly(s: Shard, a: Arena, h: Bytes -> nat)
    reads s, s.pool, s.pool.arena, s.pool.arena.os
  {
    s.pool.arena == a && s.hash == h && Healthy(s) && s.m == map[] && s.pool.blocks == {} && s.pool.big == {}
  }

  lemma BlankMeans(s: Shard, a: Arena, h: Bytes -> nat)
    requires Blankly(s, a, h)
    ensures s.pool.arena == a && s.hash == h && Healthy(s) && s.pool.blocks == {} && s.pool.big == {}
    ensures forall t :: Seen(s, t) == map[]
  {}

  method NewShard(a: Arena, sizes: seq<nat>, lookup: seq<nat>, h: Bytes -> nat) returns (s: Shard)
    requires a.Valid() && ClassTable(sizes) && LookupTable(sizes, lookup)
    ensures fresh(s) && fresh(s.pool) && Blankly(s, a, h)
  {
    hide ClassTable, LookupTable, Arena.Valid, Pool.Valid, Shard.Valid;
    var p := new Pool(a, sizes, lookup);
    s := new Shard(h, p);
  }

  method NewShards(a: Arena, h: Bytes -> nat) returns (ss: seq<Shard>)
    requires a.Valid()
    ensures |ss| == SHARDS && forall i :: 0 <= i < |ss| ==> fresh(ss[i]) && fresh(ss[i].pool) && Blankly(ss[i], a, h)
    ensures forall i, j :: 0 <= i < j < |ss| ==> ss[i] != ss[j] && ss[i].pool != ss[j].pool
  {
    hide Blankly, Arena.Valid, ClassTable, LookupTable;
    var sizes := BuildClasses();
    var lookup := BuildLookup(sizes);
    ss := [];
    for n := 0 to SHARDS
      invariant |ss| == n && forall i :: 0 <= i < n ==> fresh(ss[i]) && fresh(ss[i].pool) && Blankly(ss[i], a, h)
      invariant forall i, j :: 0 <= i < j < n ==> ss[i] != ss[j] && ss[i].pool != ss[j].pool
    {
      var s := NewShard(a, sizes, lookup, h);
      ss := ss + [s];
    }
  }

  twostate predicate SamePool(p: Pool)
    reads p
  {
    unchanged(p)
  }

  twostate predicate Untouched(s: Shard)
    reads s, s.pool
  {
    unchanged(s) && SamePool(s.pool)
  }

  function Sum(us: seq<int>): int {
    if us == [] then 0 else Sum(us[..|us| - 1]) + us[|us| - 1]
  }

  lemma {:induction false} SumUpdate(us: seq<int>, i: nat, x: int)
    requires i < |us|
    ensures Sum(us[i := x]) == Sum(us) - us[i] + x
  {
    var n := |us| - 1;
    if i < n {
      SumUpdate(us[..n], i, x);
      assert us[i := x][..n] == us[..n][i := x];
    } else {
      assert us[i := x][..n] == us[..n];
    }
  }

  lemma {:induction false} SumZero(us: seq<int>)
    requires forall i :: 0 <= i < |us| ==> us[i] == 0
    ensures Sum(us) == 0
  {
    if us != [] {
      SumZero(us[..|us| - 1]);
    }
  }

  ghost function Useds(ss: seq<Shard>): (us: seq<int>)
    reads ss
    ensures |us| == |ss| && forall i :: 0 <= i < |ss| ==> us[i] == ss[i].used
  {
    seq(|ss|, i requires 0 <= i < |ss| reads ss => ss[i].used)
  }

  ghost function SumUsed(ss: seq<Shard>): int
    reads ss
  {
    Sum(Useds(ss))
  }

  lemma SumOneChanged(us: seq<int>, us': seq<int>, i: nat)
    requires i < |us| == |us'| && forall j :: 0 <= j < |us| && j != i ==> us'[j] == us[j]
    ensures Sum(us') == Sum(us) - us[i] + us'[i]
  {
    SumUpdate(us, i, us'[i]);
    assert us' == us[i := us'[i]];
  }

  lemma NothingUsed(ss: seq<Shard>, a: Arena, h: Bytes -> nat)
    requires forall i :: 0 <= i < |ss| ==> Blankly(ss[i], a, h)
    ensures SumUsed(ss) == 0
  {
    forall i | 0 <= i < |ss|
      ensures ss[i].used == 0
    {
      BlankUsed(ss[i]);
    }
    SumZero(Useds(ss));
  }

  lemma BlankUsed(s: Shard)
    requires s.Sound() && s.m == map[]
    ensures s.used == 0
  {
    forall i | 0 <= i < |s.slots|
      ensures CostOf(s.slots[i]) == 0
    {
      assert FullAt(s.hash, s.slots, i, s.m);
    }
    TotalBounds(CostOf, s.slots, 0, 0);
  }

  datatype Maybe = None | Some(e: Entry)

  function Pick(db: Db, key: Bytes): Maybe {
    if key in db then Some(db[key]) else None
  }

  /** A key and a string for it. */
  datatype Put = Put(key: Bytes, val: Bytes)

  function PutAll(was: Maybe, ps: seq<Put>, k: Bytes): Maybe {
    if ps == [] then was
    else if ps[|ps| - 1].key == k then Some(Entry(Str(ps[|ps| - 1].val), 0))
    else PutAll(was, ps[..|ps| - 1], k)
  }

  class Store {
    const shards: seq<Shard>
    const arena: Arena
    const hash: Bytes -> nat
    const limit: int
    var globalUsed: int

    ghost predicate Built() {
      && |shards| == SHARDS
      && (forall i :: 0 <= i < SHARDS ==> shards[i].pool.arena == arena && shards[i].hash == hash)
      && (forall i, j :: 0 <= i < j < SHARDS ==> shards[i] != shards[j] && shards[i].pool != shards[j].pool)
    }

    ghost function Repr(): set<object> {
      (set i | 0 <= i < |shards| :: shards[i]) + (set i | 0 <= i < |shards| :: shards[i].pool) + {arena, arena.os, this}
    }

    function Index(key: Bytes): (i: nat)
      ensures i < SHARDS
    {
      hash(key) % SHARDS
    }

    /** Every shard is sound, and no two share memory. */
    ghost predicate Valid()
      reads Repr()
    {
      && Built() && Sound() && (limit > 0 ==> globalUsed == SumUsed(shards))
    }

    ghost predicate Sound()
      reads Repr()
    {
      && Built() && arena.Valid()
      && (forall i :: 0 <= i < SHARDS ==> Healthy(shards[i]))
      && (forall i, j :: 0 <= i < SHARDS && 0 <= j < SHARDS && i != j ==> Separate(shards[i].pool, shards[j].pool))
    }

    /** What clients see under a key. */
    ghost function Sees(k: Bytes, now: int): Maybe
      requires Built()
      reads Repr()
    {
      Pick(Seen(shards[Index(k)], now), k)
    }

    /** What is seen has not expired, and a container that is seen is not empty. */
    lemma SeesLive(k: Bytes, now: int)
      requires Valid() && Sees(k, now).Some?
      ensures var e := Sees(k, now).e; (e.exp == 0 || now < e.exp) && Good(e.val)
    {
      hide Shard.Valid, Good, Separate, SumUsed, Arena.Valid;
      MyShard(Index(k));
    }

    /** Nothing changes with time but that what expires is gone: from its expiry on. */
    lemma SeesLater(k: Bytes, now: int, t: int)
      requires Built() && now <= t
      ensures Sees(k, t) == if Sees(k, now).Some? && (Sees(k, now).e.exp == 0 || t < Sees(k, now).e.exp) then Sees(k, now) else None
    {}

    constructor (ss: seq<Shard>, a: Arena, h: Bytes -> nat, max: int)
      requires |ss| == SHARDS && a.Valid() && forall i :: 0 <= i < SHARDS ==> Blankly(ss[i], a, h)
      requires forall i, j :: 0 <= i < j < SHARDS ==> ss[i] != ss[j] && ss[i].pool != ss[j].pool
      ensures Valid() && shards == ss && arena == a && forall k, t :: Sees(k, t) == None
    {
      hide Blankly, Arena.Valid, Healthy, Seen;
      shards, arena, hash, limit, globalUsed := ss, a, h, max, 0;
      new;
      NothingUsed(ss, a, h);
      forall i | 0 <= i < SHARDS
        ensures ss[i].pool.arena == a && ss[i].hash == h && Healthy(ss[i]) && ss[i].pool.blocks == {} && ss[i].pool.big == {}
        ensures forall t :: Seen(ss[i], t) == map[]
      {
        BlankMeans(ss[i], a, h);
      }
    }

    /** One shard changed within its rights: the store is still sound, and other shards show what they showed. */
    twostate lemma OneChanged(i: nat)
      requires old(Sound()) && i < SHARDS && Healthy(shards[i])
      requires forall j :: 0 <= j < SHARDS && j != i ==> Untouched(shards[j])
      requires Respects(old(shards[i].pool.World()), shards[i].pool.World())
      ensures Sound() && SumUsed(shards) == old(SumUsed(shards)) - old(shards[i].used) + shards[i].used
      ensures forall k, t :: Index(k) != i ==> Sees(k, t) == old(Sees(k, t))
    {
      hide Shard.Sound, House, AllGood, Pool.Valid, Respects, Separate, RedisCommands.Live, RedisShard.Abs;
      PoolOfHealthy(shards[i]);
      SumOneChanged(old(Useds(shards)), Useds(shards), i);
      forall j | 0 <= j < SHARDS && j != i
        ensures Healthy(shards[j]) && Separate(shards[i].pool, shards[j].pool) && Separate(shards[j].pool, shards[i].pool)
      {
        assert old(Healthy(shards[j])) && old(Healthy(shards[i]));
        assert old(Separate(shards[i].pool, shards[j].pool));
        Unharmed(Neighbours(shards[i].pool, shards[j].pool));
      }
      forall x, y | 0 <= x < SHARDS && 0 <= y < SHARDS && x != y
        ensures Separate(shards[x].pool, shards[y].pool)
      {
        if x != i && y != i {
          assert old(Separate(shards[x].pool, shards[y].pool));
          SeparateSame(Neighbours(shards[x].pool, shards[y].pool));
        }
      }
    }

    lemma MyShard(i: nat)
      requires Sound() && i < SHARDS
      ensures {shards[i], shards[i].pool, arena, arena.os} <= Repr() && shards[i].pool.arena == arena && Healthy(shards[i])
    {
      assert shards[i] in Repr() && shards[i].pool in Repr();
    }

    /** Stores one string. */
    method PutOne(key: Bytes, val: Bytes, now: int)
      requires Valid() && |val| < WORD
      modifies Repr()
      ensures Valid() && Sees(key, now) == Some(Entry(Str(val), 0))
      ensures forall k :: k != key ==> Sees(k, now) == old(Sees(k, now))
    {
      hide Shard.Valid, AllGood, Respects, RedisCommands.Live, RedisShard.Abs, Separate, Arena.Valid, Pool.Valid, Healthy, SumUsed;
      var i := Index(key);
      MyShard(i);
      var s := shards[i];
      var before := s.used;
      var r, stored := Set(s, key, val, SetOptions(false, false, false, false, 0), 0, now);
      OneChanged(i);
      NeverGone(old(Seen(s, now)), old(RedisShard.Abs(s.m)), key, val, now);
      if limit > 0 {
        globalUsed := globalUsed + (s.used - before);
      }
    }

    /** Stores all pairs; a key given twice gets its last value. */
    method Mset(ps: seq<Put>, now: int) returns (ok: bool)
      requires Valid() && forall i :: 0 <= i < |ps| ==> |ps[i].val| < WORD
      modifies Repr()
      ensures Valid()
      ensures ok <==> limit <= 0 || PutCost(ps) <= limit
      ensures forall k :: Sees(k, now) == if ok then PutAll(old(Sees(k, now)), ps, k) else old(Sees(k, now))
    {
      hide Sound, SumUsed, Seen;
      ok := true;
      if limit > 0 {
        var total := PutCosts(ps);
        if total > limit {
          return false;
        }
      }
      for n := 0 to |ps|
        invariant Valid() && forall k :: Sees(k, now) == PutAll(old(Sees(k, now)), ps[..n], k)
      {
        assert ps[..n + 1][..n] == ps[..n];
        PutOne(ps[n].key, ps[n].val, now);
      }
      assert ps[..|ps|] == ps;
    }

    /** Reads one key. */
    method Read(key: Bytes, now: int) returns (r: Reply)
      requires Valid()
      modifies Repr()
      ensures Valid() && forall k :: Sees(k, now) == old(Sees(k, now))
      ensures r == Shown(Sees(key, now))
    {
      hide Shard.Valid, AllGood, Respects, RedisCommands.Live, RedisShard.Abs, Separate, Arena.Valid, Pool.Valid, Healthy, SumUsed;
      var i := Index(key);
      MyShard(i);
      var s := shards[i];
      var before := s.used;
      var idx, ins := Look(s, key, now);
      FoundAt(s.hash, s.slots, s.m, key, idx, ins);
      OneChanged(i);
      if limit > 0 {
        globalUsed := globalUsed + (s.used - before);
      }
      r := if idx >= 0 && s.slots[idx].it.val.Str? then Bulk(s.slots[idx].it.val.bytes) else Nil;
    }

    /** Reads the keys one after the other; what clients see does not change. */
    method Mget(keys: seq<Bytes>, now: int) returns (rs: seq<Reply>)
      requires Valid()
      modifies Repr()
      ensures Valid() && forall k :: Sees(k, now) == old(Sees(k, now))
      ensures |rs| == |keys| && forall i :: 0 <= i < |keys| ==> rs[i] == Shown(old(Sees(keys[i], now)))
      ensures forall i :: 0 <= i < |keys| ==>
        var was := old(Sees(keys[i], now)); rs[i] == if was.Some? && was.e.val.Str? then Bulk(was.e.val.bytes) else Nil
    {
      hide Sound, SumUsed, Seen;
      rs := [];
      for n := 0 to |keys|
        invariant Valid() && |rs| == n && forall k :: Sees(k, now) == old(Sees(k, now))
        invariant forall i :: 0 <= i < n ==> rs[i] == Shown(old(Sees(keys[i], now)))
      {
        var r := Read(keys[n], now);
        rs := rs + [r];
      }
    }

    /** Whether a key is there, whatever it holds. */
    method Has(key: Bytes, now: int) returns (there: bool)
      requires Valid()
      modifies Repr()
      ensures Valid() && (forall k :: Sees(k, now) == old(Sees(k, now))) && (there <==> Sees(key, now).Some?)
    {
      hide Shard.Valid, AllGood, Respects, RedisCommands.Live, RedisShard.Abs, Separate, Arena.Valid, Pool.Valid, Healthy, SumUsed;
      var i := Index(key);
      MyShard(i);
      var s := shards[i];
      var before := s.used;
      var idx, ins := Look(s, key, now);
      OneChanged(i);
      if limit > 0 {
        globalUsed := globalUsed + (s.used - before);
      }
      there := idx >= 0;
    }

    /** Counts the keys that are there; a key given twice counts twice. */
    method Exists(keys: seq<Bytes>, now: int) returns (n: nat)
      requires Valid()
      modifies Repr()
      ensures Valid() && forall k :: Sees(k, now) == old(Sees(k, now))
      ensures n == |set i | 0 <= i < |keys| && old(Sees(keys[i], now)).Some?|
    {
      hide Sound, SumUsed, Seen;
      n := 0;
      ghost var at: set<int> := {};
      for i := 0 to |keys|
        invariant Valid() && forall k :: Sees(k, now) == old(Sees(k, now))
        invariant n == |at| && forall j :: j in at <==> 0 <= j < i && old(Sees(keys[j], now)).Some?
      {
        var there := Has(keys[i], now);
        if there {
          at := at + {i};
          n := n + 1;
        }
      }
      assert at == set j | 0 <= j < |keys| && old(Sees(keys[j], now)).Some?;
    }

    /** Deletes one key; tells whether it was there. */
    method Drop(key: Bytes, now: int) returns (was: bool)
      requires Valid()
      modifies Repr()
      ensures Valid() && (was <==> old(Sees(key, now)).Some?) && Sees(key, now) == None
      ensures forall k :: k != key ==> Sees(k, now) == old(Sees(k, now))
    {
      hide Shard.Valid, AllGood, Respects, RedisCommands.Live, RedisShard.Abs, Separate, Arena.Valid, Pool.Valid, SumUsed;
      var i := Index(key);
      MyShard(i);
      var s := shards[i];
      var before := s.used;
      was := DelKey(s, key, now);
      OneChanged(i);
      if limit > 0 {
        globalUsed := globalUsed + (s.used - before);
      }
    }

    method Del(keys: seq<Bytes>, now: int) returns (n: nat)
      requires Valid()
      modifies Repr()
      ensures Valid() && forall k :: Sees(k, now) == if k in keys then None else old(Sees(k, now))
      ensures n == |set k | k in keys && old(Sees(k, now)).Some?|
    {
      hide Sound, SumUsed, Seen, Pick, Sees;
      n := 0;
      ghost var there: set<Bytes> := {};
      for i := 0 to |keys|
        invariant Valid() && forall k :: Sees(k, now) == if k in keys[..i] then None else old(Sees(k, now))
        invariant n == |there| && forall k :: k in there <==> k in keys[..i] && old(Sees(k, now)).Some?
      {
        assert keys[..i + 1] == keys[..i] + [keys[i]];
        if Sees(keys[i], now).Some? {
          there := there + {keys[i]};
        }
        var was := Drop(keys[i], now);
        if was {
          n := n + 1;
        }
      }
      assert keys[..|keys|] == keys;
      assert there == set k | k in keys && old(Sees(k, now)).Some?;
    }

    method FlushOne(n: nat)
      requires Valid() && n < SHARDS
      modifies Repr()
      ensures Valid() && Flushed(shards[n]) && forall i :: 0 <= i < SHARDS && i != n ==> old(Flushed(shards[i])) ==> Flushed(shards[i])
      ensures forall i :: 0 <= i < SHARDS && i != n ==> shards[i].pool.big == old(shards[i].pool.big)
      ensures arena.chunks == old(arena.chunks) && arena.os.mapped == old(arena.os.mapped) - old(shards[n].pool.big)
    {
      hide Shard.Valid, Respects, RedisCommands.Live, RedisShard.Abs, Separate, Arena.Valid, Pool.Valid, SumUsed, Seen;
      MyShard(n);
      var s := shards[n];
      var before := s.used;
      s.Flush();
      OneChanged(n);
      if limit > 0 {
        globalUsed := globalUsed - before;
      }
    }

    method ResetArena()
      requires Valid() && forall i :: 0 <= i < SHARDS ==> Flushed(shards[i])
      modifies arena, arena.os
      ensures Valid() && forall k, t :: Sees(k, t) == None
      ensures arena.chunks == {} && forall i :: 0 <= i < SHARDS ==> Flushed(shards[i])
      ensures arena.os.mapped == old(arena.os.mapped) - old(arena.chunks)
    {
      hide Shard.Sound, House, RedisCommands.Live, RedisShard.Abs, Arena.Valid, SumUsed, Pieces, Spares, Rests;
      arena.Reset();
      assert Useds(shards) == old(Useds(shards));
      forall i | 0 <= i < SHARDS
        ensures Healthy(shards[i]) && forall t :: Seen(shards[i], t) == map[]
      {
        NothingSeen(shards[i]);
      }
    }

    /** The dedicated mappings of the first n shards. */
    ghost function Dedicated(n: nat): set<Region>
      requires Built() && n <= SHARDS
      reads Repr()
    {
      if n == 0 then {} else Dedicated(n - 1) + shards[n - 1].pool.big
    }

    /** Forgets everything: what stays mapped is what was not the store's. */
    method Flushall()
      requires Valid()
      modifies Repr()
      ensures Valid() && forall k, t :: Sees(k, t) == None
      ensures arena.chunks == {} && forall i :: 0 <= i < SHARDS ==> shards[i].pool.big == {} && shards[i].used == 0
      ensures arena.os.mapped == old(arena.os.mapped) - old(arena.chunks) - old(Dedicated(SHARDS))
    {
      hide Shard.Valid, AllGood, Respects, RedisCommands.Live, RedisShard.Abs, Separate, Arena.Valid, Pool.Valid, Healthy, SumUsed, Seen;
      for n := 0 to SHARDS
        invariant Valid() && forall i :: 0 <= i < n ==> Flushed(shards[i])
        invariant forall i :: n <= i < SHARDS ==> shards[i].pool.big == old(shards[i].pool.big)
        invariant arena.chunks == old(arena.chunks) && arena.os.mapped == old(arena.os.mapped) - old(Dedicated(n))
      {
        FlushOne(n);
      }
      ResetArena();
    }

    /** Deletes the item in a slot of shard i. */
    method DropSlot(i: nat, idx: nat)
      requires Valid() && i < SHARDS && idx < |shards[i].slots| && shards[i].slots[idx].Full?
      modifies Repr()
      ensures Valid() && (forall j :: 0 <= j < SHARDS && j != i ==> shards[j].m == old(shards[j].m))
      ensures shards[i].m == old(shards[i].m) - {old(shards[i].slots[idx].it.key)} && (limit <= 0 || globalUsed <= old(globalUsed) - 64)
    {
      hide Shard.Valid, RedisCommands.Live, RedisShard.Abs, Separate, Arena.Valid, Pool.Valid, SumUsed, Respects, Seen, Good;
      MyShard(i);
      var s := shards[i];
      var before := s.used;
      ghost var m, it := s.m, s.slots[idx].it;
      AtLeast64(s, idx);
      s.Del(idx);
      Dropped(m, it.key, 0);
      OneChanged(i);
      if limit > 0 {
        globalUsed := globalUsed + (s.used - before);
      }
    }

    /** Removes from shard i the least recently used of up to 16 unprotected items, looking from slot `start` on. */
    method EvictFrom(i: nat, start: nat, protect: seq<Bytes>, lru: Item -> nat) returns (gone: bool)
      requires Valid() && i < SHARDS
      modifies Repr()
      ensures Valid() && (forall j :: 0 <= j < SHARDS && j != i ==> shards[j].m == old(shards[j].m))
      ensures Thinned(old(shards[i].m), shards[i].m, protect)
      ensures gone ==> limit <= 0 || globalUsed <= old(globalUsed) - 64
      ensures !gone ==> shards[i].m == old(shards[i].m) && globalUsed == old(globalUsed)
    {
      hide Sound, SumUsed, Shard.Valid, AllGood, Cost;
      MyShard(i);
      var s := shards[i];
      gone := false;
      if s.count == 0 || start >= |s.slots| {
        return;
      }
      var best;
      ghost var seen;
      best, seen := Sample(s.slots, start, protect, lru);
      if best >= 0 {
        DropSlot(i, best);
        gone := true;
      }
    }

    /** One eviction: up to four times as many tries as there are shards; `pick` stands for the random choices. */
    method EvictOne(protect: seq<Bytes>, lru: Item -> nat, pick: nat -> (nat, nat), turn: nat) returns (gone: bool)
      requires Valid()
      modifies Repr()
      ensures Valid() && (gone ==> limit <= 0 || globalUsed <= old(globalUsed) - 64)
      ensures forall i :: 0 <= i < SHARDS ==> Thinned(old(shards[i].m), shards[i].m, protect)
    {
      hide Sound, SumUsed;
      gone := false;
      for tries := 0 to SHARDS * 4
        invariant Valid() && !gone && globalUsed == old(globalUsed)
        invariant forall i :: 0 <= i < SHARDS ==> shards[i].m == old(shards[i].m)
      {
        var (i, start) := pick(turn + tries);
        gone := EvictFrom(i % SHARDS, start, protect, lru);
        if gone {
          return;
        }
      }
    }

    /** Evicts until memory is within the limit or an attempt finds nothing. Protected keys stay. */
    method Evict(protect: seq<Bytes>, lru: Item -> nat, pick: nat -> (nat, nat)) returns (done: bool)
      requires Valid() && limit > 0
      modifies Repr()
      ensures Valid() && (done <==> globalUsed <= limit)
      ensures forall i :: 0 <= i < SHARDS ==> Thinned(old(shards[i].m), shards[i].m, protect)
    {
      hide Sound, SumUsed;
      var turn: nat := 0;
      while globalUsed > limit
        invariant Valid() && forall i :: 0 <= i < SHARDS ==> Thinned(old(shards[i].m), shards[i].m, protect)
        decreases globalUsed - limit
      {
        var gone := EvictOne(protect, lru, pick, turn);
        if !gone {
          done := globalUsed <= limit;
          return;
        }
        turn := turn + SHARDS * 4;
      }
      done := true;
    }

    /** What follows a write when memory is limited. The keys just written stay as they are. */
    method AfterWrite(keys: seq<Bytes>, lru: Item -> nat, pick: nat -> (nat, nat))
      requires Valid()
      modifies Repr()
      ensures Valid() && forall k, t :: k in keys ==> Sees(k, t) == old(Sees(k, t))
      ensures forall k, t :: Sees(k, t) == old(Sees(k, t)) || (limit > 0 && Sees(k, t) == None)
    {
      hide Sound, SumUsed, Thinned, RedisCommands.Live, RedisShard.Abs;
      if limit > 0 && globalUsed > limit {
        ghost var was := Maps();
        var done := Evict(keys, lru, pick);
        forall k, t
          ensures Sees(k, t) == old(Sees(k, t)) || Sees(k, t) == None
          ensures k in keys ==> Sees(k, t) == old(Sees(k, t))
        {
          ThinnedSees(shards[Index(k)], was[Index(k)], keys, k, t);
        }
      }
    }

    ghost function Maps(): (ms: seq<map<Bytes, Item>>)
      requires Built()
      reads Repr()
      ensures |ms| == SHARDS && forall i :: 0 <= i < SHARDS ==> ms[i] == shards[i].m
    {
      seq(SHARDS, i requires 0 <= i < SHARDS reads Repr() => shards[i].m)
    }
  }

  lemma ThinnedSees(s: Shard, was: map<Bytes, Item>, protect: seq<Bytes>, k: Bytes, t: int)
    requires Thinned(was, s.m, protect)
    ensures var before, after := Pick(RedisCommands.Live(RedisShard.Abs(was), t), k), Pick(Seen(s, t), k);
      (after == before || after == None) && (k in protect ==> after == before)
  {}

  /** Items were only removed, and none under a protected key. */
  ghost predicate Thinned(m: map<Bytes, Item>, m': map<Bytes, Item>, protect: seq<Bytes>) {
    && (forall k :: k in m' ==> k in m && m'[k] == m[k])
    && (forall k :: k in m && k in protect ==> k in m')
  }

  predicate Evictable(s: Slot, protect: seq<Bytes>) {
    s.Full? && s.it.key !in protect
  }

  /** How many evictable items are in the first k slots from `start` on. */
  function Sampled(slots: seq<Slot>, start: nat, k: nat, protect: seq<Bytes>): nat
    requires start < |slots| && k <= |slots|
  {
    if k == 0 then 0
    else Sampled(slots, start, k - 1, protect) + (if Evictable(slots[RoundFrom(start, k - 1, |slots|)], protect) then 1 else 0)
  }

  /** Slot `best` holds the least recently used of the evictable items in the first k slots; -1 if there is none. */
  ghost predicate Oldest(slots: seq<Slot>, start: nat, k: nat, protect: seq<Bytes>, lru: Item -> nat, best: int)
    requires start < |slots| && k <= |slots|
  {
    && -1 <= best < |slots|
    && (best >= 0 ==> Evictable(slots[best], protect) && exists c :: 0 <= c < k && best == RoundFrom(start, c, |slots|))
    && (forall c :: 0 <= c < k && Evictable(slots[RoundFrom(start, c, |slots|)], protect) ==>
         best >= 0 && lru(slots[best].it) <= lru(slots[RoundFrom(start, c, |slots|)].it))
  }

  /** Looks from `start` on at all slots, or until 16 evictable items were seen, and picks the oldest. */
  method Sample(slots: seq<Slot>, start: nat, protect: seq<Bytes>, lru: Item -> nat) returns (best: int, ghost seen: nat)
    requires start < |slots|
    ensures seen <= |slots| && Oldest(slots, start, seen, protect, lru, best)
    ensures seen == |slots| || Sampled(slots, start, seen, protect) == 16
    ensures best < 0 ==> forall j :: 0 <= j < |slots| ==> !Evictable(slots[j], protect)
  {
    var n := |slots|;
    var i: nat, sampled, bestLru := start, 0, 0;
    best := -1;
    var scanned := 0;
    while scanned < n && sampled < 16
      invariant 0 <= scanned <= n && Oldest(slots, start, scanned, protect, lru, best)
      invariant i == if scanned == n then start else RoundFrom(start, scanned, n)
      invariant best >= 0 ==> bestLru == lru(slots[best].it)
      invariant sampled == Sampled(slots, start, scanned, protect) <= 16 && (best < 0 ==> sampled == 0)
    {
      if Evictable(slots[i], protect) {
        sampled := sampled + 1;
        var l := lru(slots[i].it);
        if best < 0 || l < bestLru {
          best, bestLru := i, l;
        }
      }
      i := Next(i, n);
      scanned := scanned + 1;
    }
    seen := scanned;
    forall j | 0 <= j < n && best < 0
      ensures !Evictable(slots[j], protect)
    {
      var c := if j >= start then j - start else j - start + n;
      assert j == RoundFrom(start, c, n);
    }
  }

  lemma AtLeast64(s: Shard, idx: nat)
    requires Healthy(s) && idx < |s.slots| && s.slots[idx].Full?
    ensures Cost(s.slots[idx].it) >= 64
  {
    TagTold(s.hash, s.slots, s.m, idx);
    assert Good(s.m[s.slots[idx].it.key].val);
  }

  ghost predicate Flushed(s: Shard)
    reads s, s.pool
  {
    s.m == map[] && s.used == 0 && s.pool.big == {} && s.pool.blocks == {}
  }

  /** A missing key and one that holds no string read as nil. */
  function Shown(e: Maybe): Reply {
    if e.Some? && e.e.val.Str? then Bulk(e.e.val.bytes) else Nil
  }

  function PutCost(ps: seq<Put>): int {
    if ps == [] then 0 else PutCost(ps[..|ps| - 1]) + 64 + |ps[|ps| - 1].key| + |ps[|ps| - 1].val|
  }

  method PutCosts(ps: seq<Put>) returns (n: int)
    ensures n == PutCost(ps)
  {
    n := 0;
    for i := 0 to |ps|
      invariant n == PutCost(ps[..i])
    {
      assert ps[..i + 1][..i] == ps[..i];
      n := n + (64 + |ps[i].key| + |ps[i].val|);
    }
    assert ps[..|ps|] == ps;
  }

  lemma NothingSeen(s: Shard)
    requires s.m == map[]
    ensures forall t :: Seen(s, t) == map[]
  {}

  lemma NeverGone(db: Db, all: Db, key: Bytes, val: Bytes, now: int)
    requires db == RedisCommands.Live(all, now)
    ensures var e := Entry(Str(val), 0);
      DoSet(db, key, val, SetOptions(false, false, false, false, 0), 0).db == db[key := e] &&
      RedisCommands.Live(db[key := e], now) == db[key := e]
  {}

  /** A new store, with memory from the operating system. */
  method Open(h: Bytes -> nat, os: Os, max: int) returns (st: Store)
    requires os.Valid()
    ensures fresh(st) && st.Valid() && st.arena.os == os && forall k, t :: st.Sees(k, t) == None
  {
    hide Blankly, Arena.Valid, Store.Valid, Store.Sees;
    var a := new Arena(os);
    var ss := NewShards(a, h);
    st := new Store(ss, a, h, max);
  }

  lemma PoolOfHealthy(s: Shard)
    requires Healthy(s)
    ensures s.pool.Valid() && s.pool.arena.Valid()
  {}

  twostate lemma SeparateSame(n: Neighbours)
    requires old(Separate(n.a, n.b)) && SamePool(n.a) && SamePool(n.b)
    ensures Separate(n.a, n.b)
  {}
}
