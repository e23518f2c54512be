/** Every command that changes something, on the whole store: its key changes as on a plain map, no other key does,
    and the totals stay in step. A write is followed by eviction, which leaves the key just written. */
module RedisServer {
  import opened RedisSlots
  import opened RedisAlloc
  import opened RedisShard
  import opened RedisObjects
  import opened RedisNumbers
  import opened RedisCommands
  import opened RedisStore
  import opened RedisLaws

  // ----- commands look at their own key only -----

  /** What a command does to a database, it does to its key alone. */
  ghost predicate Local(db: Db, key: Bytes, o: Outcome, o1: Outcome) {
    o.reply == o1.reply && Pick(o.db, key) == Pick(o1.db, key) && forall k :: k != key ==> Pick(o.db, k) == Pick(db, k)
  }

  lemma Lifted(db: Db, all: Db, key: Bytes, o: Outcome, o1: Outcome, now: int)
    requires db == RedisCommands.Live(all, now) && Local(db, key, o, o1)
    ensures Pick(RedisCommands.Live(o.db, now), key) == Pick(RedisCommands.Live(o1.db, now), key)
    ensures forall k :: k != key ==> Pick(RedisCommands.Live(o.db, now), k) == Pick(db, k)
  {
    forall k | k != key
      ensures Pick(RedisCommands.Live(o.db, now), k) == Pick(db, k)
    {
      assert Pick(o.db, k) == Pick(db, k);
    }
  }

  lemma SetLocal(db: Db, key: Bytes, val: Bytes, o: SetOptions, limit: int)
    ensures Local(db, key, DoSet(db, key, val, o, limit), DoSet(Alone(key, Pick(db, key)), key, val, o, limit))
  {}

  lemma IncrByLocal(db: Db, key: Bytes, delta: int)
    ensures Local(db, key, DoIncr(db, key, delta), DoIncr(Alone(key, Pick(db, key)), key, delta))
  {}

  lemma PushLocal(db: Db, key: Bytes, vs: seq<Bytes>, front: bool, limit: int)
    ensures Local(db, key, DoPush(db, key, vs, front, limit), DoPush(Alone(key, Pick(db, key)), key, vs, front, limit))
  {}

  lemma HsetLocal(db: Db, key: Bytes, ps: seq<Pair>, limit: int)
    ensures Local(db, key, DoHset(db, key, ps, limit), DoHset(Alone(key, Pick(db, key)), key, ps, limit))
  {}

  lemma HincrbyLocal(db: Db, key: Bytes, f: Bytes, delta: int, limit: int)
    ensures Local(db, key, DoHincr(db, key, f, delta, limit), DoHincr(Alone(key, Pick(db, key)), key, f, delta, limit))
  {}

  lemma ExpireAtLocal(db: Db, key: Bytes, when: int, now: int)
    ensures Local(db, key, DoExpire(db, key, when, now), DoExpire(Alone(key, Pick(db, key)), key, when, now))
  {}

  lemma PersistLocal(db: Db, key: Bytes)
    ensures Local(db, key, DoPersist(db, key), DoPersist(Alone(key, Pick(db, key)), key))
  {}

  lemma PopLocal(db: Db, key: Bytes, count: int, front: bool)
    ensures Local(db, key, DoPop(db, key, count, front), DoPop(Alone(key, Pick(db, key)), key, count, front))
  {}

  lemma HdelLocal(db: Db, key: Bytes, fs: seq<Bytes>)
    ensures Local(db, key, DoHdel(db, key, fs), DoHdel(Alone(key, Pick(db, key)), key, fs))
  {}

  lemma AppendLocal(db: Db, key: Bytes, v: Bytes, limit: int)
    ensures Local(db, key, DoAppend(db, key, v, limit), DoAppend(Alone(key, Pick(db, key)), key, v, limit))
    ensures Overlong(db, key, v, limit) <==> Overlong(Alone(key, Pick(db, key)), key, v, limit)
  {}

  /** What clients see under a key before a command. */
  lemma Before(st: Store, key: Bytes, now: int) returns (was: RedisStore.Maybe)
    requires st.Valid()
    ensures was == st.Sees(key, now) && Alive(was, now)
    ensures was.Some? && was.e.val.List? ==> was.e.val.elems != []
  {
    hide Store.Sound, SumUsed, Store.Sees;
    was := st.Sees(key, now);
    if was.Some? {
      st.SeesLive(key, now);
    }
  }

  // ----- under the lock of the key's shard -----

  method SetLocked(st: Store, key: Bytes, val: Bytes, o: SetOptions, now: int) returns (r: Reply, stored: bool)
    requires st.Valid() && |val| < WORD
    modifies st.Repr()
    ensures st.Valid() && forall k :: k != key ==> st.Sees(k, now) == old(st.Sees(k, now))
    ensures stored <==> Stores(Alone(key, old(st.Sees(key, now))), key, val, o, st.limit)
    ensures var want := DoSet(Alone(key, old(st.Sees(key, now))), key, val, o, st.limit);
      r == want.reply && st.Sees(key, now) == Pick(RedisCommands.Live(want.db, now), key)
  {
    hide Shard.Valid, AllGood, Respects, RedisCommands.Live, RedisShard.Abs, Separate, Arena.Valid, Pool.Valid, Healthy, SumUsed,
      DoSet, Stores;
    var i := st.Index(key);
    st.MyShard(i);
    var s := st.shards[i];
    var before := s.used;
    ghost var db := Seen(s, now);
    r, stored := RedisCommands.Set(s, key, val, o, st.limit, now);
    st.OneChanged(i);
    SetLocal(db, key, val, o, st.limit);
    Lifted(db, old(RedisShard.Abs(s.m)), key, DoSet(db, key, val, o, st.limit),
      DoSet(Alone(key, Pick(db, key)), key, val, o, st.limit), now);
    StoresLocal(db, key, val, o, st.limit);
    if st.limit > 0 {
      st.globalUsed := st.globalUsed + (s.used - before);
    }
  }

  /** SET with its options. */
  method Set(st: Store, key: Bytes, val: Bytes, o: SetOptions, lru: Item -> nat, pick: nat -> (nat, nat), now: int) returns (r: Reply)
    requires st.Valid() && |val| < WORD
    modifies st.Repr()
    ensures st.Valid() && forall k :: k != key ==> Kept(old(st.Sees(k, now)), st.Sees(k, now), st.limit)
    ensures SetDone(old(st.Sees(key, now)), r, st.Sees(key, now), key, val, o, st.limit, now)
  {
    hide Store.Sound, SumUsed, Seen, DoSet, SetDone;
    ghost var was := Before(st, key, now);
    var stored;
    r, stored := SetLocked(st, key, val, o, now);
    SetMeans(was, key, val, o, st.limit, now);
    if stored {
      st.AfterWrite([key], lru, pick);
    }
  }

  method IncrByLocked(st: Store, key: Bytes, delta: int, now: int) returns (r: Reply)
    requires st.Valid() && MIN_INT64 <= delta <= MAX_INT64
    modifies st.Repr()
    ensures st.Valid() && forall k :: k != key ==> st.Sees(k, now) == old(st.Sees(k, now))
    ensures var want := DoIncr(Alone(key, old(st.Sees(key, now))), key, delta);
      r == want.reply && st.Sees(key, now) == Pick(RedisCommands.Live(want.db, now), key)
  {
    hide Shard.Valid, AllGood, Respects, RedisCommands.Live, RedisShard.Abs, Separate, Arena.Valid, Pool.Valid, Healthy, SumUsed,
      DoIncr;
    var i := st.Index(key);
    st.MyShard(i);
    var s := st.shards[i];
    var before := s.used;
    ghost var db := Seen(s, now);
    r := RedisCommands.IncrBy(s, key, delta, now);
    st.OneChanged(i);
    IncrByLocal(db, key, delta);
    Lifted(db, old(RedisShard.Abs(s.m)), key, DoIncr(db, key, delta), DoIncr(Alone(key, Pick(db, key)), key, delta), now);
    if st.limit > 0 {
      st.globalUsed := st.globalUsed + (s.used - before);
    }
  }

  /** INCRBY and the like. */
  method IncrBy(st: Store, key: Bytes, delta: int, lru: Item -> nat, pick: nat -> (nat, nat), now: int) returns (r: Reply)
    requires st.Valid() && MIN_INT64 <= delta <= MAX_INT64
    modifies st.Repr()
    ensures st.Valid() && forall k :: k != key ==> Kept(old(st.Sees(k, now)), st.Sees(k, now), st.limit)
    ensures Incremented(old(st.Sees(key, now)), r, st.Sees(key, now), delta)
  {
    hide Store.Sound, SumUsed, Seen, DoIncr, Incremented;
    ghost var was := Before(st, key, now);
    r := IncrByLocked(st, key, delta, now);
    IncrMeans(was, key, delta, now);
    if r.Int? {
      st.AfterWrite([key], lru, pick);
    }
  }

  method PushLocked(st: Store, key: Bytes, vs: seq<Bytes>, front: bool, now: int) returns (r: Reply)
    requires st.Valid() && vs != []
    modifies st.Repr()
    ensures st.Valid() && forall k :: k != key ==> st.Sees(k, now) == old(st.Sees(k, now))
    ensures var want := DoPush(Alone(key, old(st.Sees(key, now))), key, vs, front, st.limit);
      r == want.reply && st.Sees(key, now) == Pick(RedisCommands.Live(want.db, now), key)
  {
    hide Shard.Valid, AllGood, Respects, RedisCommands.Live, RedisShard.Abs, Separate, Arena.Valid, Pool.Valid, Healthy, SumUsed,
      DoPush;
    var i := st.Index(key);
    st.MyShard(i);
    var s := st.shards[i];
    var before := s.used;
    ghost var db := Seen(s, now);
    r := RedisCommands.Push(s, key, vs, front, st.limit, now);
    st.OneChanged(i);
    PushLocal(db, key, vs, front, st.limit);
    Lifted(db, old(RedisShard.Abs(s.m)), key, DoPush(db, key, vs, front, st.limit),
      DoPush(Alone(key, Pick(db, key)), key, vs, front, st.limit), now);
    if st.limit > 0 {
      st.globalUsed := st.globalUsed + (s.used - before);
    }
  }

  /** LPUSH and RPUSH. */
  method Push(st: Store, key: Bytes, vs: seq<Bytes>, front: bool, lru: Item -> nat, pick: nat -> (nat, nat), now: int) returns (r: Reply)
    requires st.Valid() && vs != []
    modifies st.Repr()
    ensures st.Valid() && forall k :: k != key ==> Kept(old(st.Sees(k, now)), st.Sees(k, now), st.limit)
    ensures PushDone(old(st.Sees(key, now)), r, st.Sees(key, now), key, vs, front, st.limit)
  {
    hide Store.Sound, SumUsed, Seen, DoPush, PushDone;
    ghost var was := Before(st, key, now);
    r := PushLocked(st, key, vs, front, now);
    PushMeans(was, key, vs, front, st.limit, now);
    if r.Int? {
      st.AfterWrite([key], lru, pick);
    }
  }

  method HsetLocked(st: Store, key: Bytes, ps: seq<Pair>, now: int) returns (r: Reply)
    requires st.Valid() && ps != []
    modifies st.Repr()
    ensures st.Valid() && forall k :: k != key ==> st.Sees(k, now) == old(st.Sees(k, now))
    ensures var want := DoHset(Alone(key, old(st.Sees(key, now))), key, ps, st.limit);
      r == want.reply && st.Sees(key, now) == Pick(RedisCommands.Live(want.db, now), key)
  {
    hide Shard.Valid, AllGood, Respects, RedisCommands.Live, RedisShard.Abs, Separate, Arena.Valid, Pool.Valid, Healthy, SumUsed,
      DoHset;
    var i := st.Index(key);
    st.MyShard(i);
    var s := st.shards[i];
    var before := s.used;
    ghost var db := Seen(s, now);
    r := RedisCommands.Hset(s, key, ps, st.limit, now);
    st.OneChanged(i);
    HsetLocal(db, key, ps, st.limit);
    Lifted(db, old(RedisShard.Abs(s.m)), key, DoHset(db, key, ps, st.limit), DoHset(Alone(key, Pick(db, key)), key, ps, st.limit), now);
    if st.limit > 0 {
      st.globalUsed := st.globalUsed + (s.used - before);
    }
  }

  /** HSET. */
  method Hset(st: Store, key: Bytes, ps: seq<Pair>, lru: Item -> nat, pick: nat -> (nat, nat), now: int) returns (r: Reply)
    requires st.Valid() && ps != []
    modifies st.Repr()
    ensures st.Valid() && forall k :: k != key ==> Kept(old(st.Sees(k, now)), st.Sees(k, now), st.limit)
    ensures HsetDone(old(st.Sees(key, now)), r, st.Sees(key, now), key, ps, st.limit)
  {
    hide Store.Sound, SumUsed, Seen, DoHset, HsetDone;
    ghost var was := Before(st, key, now);
    r := HsetLocked(st, key, ps, now);
    HsetMeans(was, key, ps, st.limit, now);
    if r.Int? {
      st.AfterWrite([key], lru, pick);
    }
  }

  method HincrbyLocked(st: Store, key: Bytes, f: Bytes, delta: int, now: int) returns (r: Reply)
    requires st.Valid() && MIN_INT64 <= delta <= MAX_INT64
    modifies st.Repr()
    ensures st.Valid() && forall k :: k != key ==> st.Sees(k, now) == old(st.Sees(k, now))
    ensures var want := DoHincr(Alone(key, old(st.Sees(key, now))), key, f, delta, st.limit);
      r == want.reply && st.Sees(key, now) == Pick(RedisCommands.Live(want.db, now), key)
  {
    hide Shard.Valid, AllGood, Respects, RedisCommands.Live, RedisShard.Abs, Separate, Arena.Valid, Pool.Valid, Healthy, SumUsed,
      DoHincr;
    var i := st.Index(key);
    st.MyShard(i);
    var s := st.shards[i];
    var before := s.used;
    ghost var db := Seen(s, now);
    r := RedisCommands.Hincrby(s, key, f, delta, st.limit, now);
    st.OneChanged(i);
    HincrbyLocal(db, key, f, delta, st.limit);
    Lifted(db, old(RedisShard.Abs(s.m)), key, DoHincr(db, key, f, delta, st.limit),
      DoHincr(Alone(key, Pick(db, key)), key, f, delta, st.limit), now);
    if st.limit > 0 {
      st.globalUsed := st.globalUsed + (s.used - before);
    }
  }

  /** HINCRBY. */
  method Hincrby(st: Store, key: Bytes, f: Bytes, delta: int, lru: Item -> nat, pick: nat -> (nat, nat), now: int) returns (r: Reply)
    requires st.Valid() && MIN_INT64 <= delta <= MAX_INT64
    modifies st.Repr()
    ensures st.Valid() && forall k :: k != key ==> Kept(old(st.Sees(k, now)), st.Sees(k, now), st.limit)
    ensures HincrDone(old(st.Sees(key, now)), r, st.Sees(key, now), key, f, delta, st.limit)
  {
    hide Store.Sound, SumUsed, Seen, DoHincr, HincrDone;
    ghost var was := Before(st, key, now);
    r := HincrbyLocked(st, key, f, delta, now);
    HincrMeans(was, key, f, delta, st.limit, now);
    if r.Int? {
      st.AfterWrite([key], lru, pick);
    }
  }

  method ExpireAtLocked(st: Store, key: Bytes, when: int, now: int) returns (r: Reply)
    requires st.Valid()
    modifies st.Repr()
    ensures st.Valid() && forall k :: k != key ==> st.Sees(k, now) == old(st.Sees(k, now))
    ensures var want := DoExpire(Alone(key, old(st.Sees(key, now))), key, when, now);
      r == want.reply && st.Sees(key, now) == Pick(RedisCommands.Live(want.db, now), key)
  {
    hide Shard.Valid, AllGood, Respects, RedisCommands.Live, RedisShard.Abs, Separate, Arena.Valid, Pool.Valid, Healthy, SumUsed,
      DoExpire;
    var i := st.Index(key);
    st.MyShard(i);
    var s := st.shards[i];
    var before := s.used;
    ghost var db := Seen(s, now);
    r := RedisCommands.ExpireAt(s, key, when, now);
    st.OneChanged(i);
    ExpireAtLocal(db, key, when, now);
    Lifted(db, old(RedisShard.Abs(s.m)), key, DoExpire(db, key, when, now), DoExpire(Alone(key, Pick(db, key)), key, when, now), now);
    if st.limit > 0 {
      st.globalUsed := st.globalUsed + (s.used - before);
    }
  }

  /** EXPIRE and the like. */
  method ExpireAt(st: Store, key: Bytes, when: int, now: int) returns (r: Reply)
    requires st.Valid()
    modifies st.Repr()
    ensures st.Valid() && forall k :: k != key ==> st.Sees(k, now) == old(st.Sees(k, now))
    ensures ExpireDone(old(st.Sees(key, now)), r, st.Sees(key, now), when, now)
  {
    hide Store.Sound, SumUsed, Seen, DoExpire, ExpireDone;
    ghost var was := Before(st, key, now);
    r := ExpireAtLocked(st, key, when, now);
    ExpireMeans(was, key, when, now);
  }

  method PersistLocked(st: Store, key: Bytes, now: int) returns (r: Reply)
    requires st.Valid()
    modifies st.Repr()
    ensures st.Valid() && forall k :: k != key ==> st.Sees(k, now) == old(st.Sees(k, now))
    ensures var want := DoPersist(Alone(key, old(st.Sees(key, now))), key);
      r == want.reply && st.Sees(key, now) == Pick(RedisCommands.Live(want.db, now), key)
  {
    hide Shard.Valid, AllGood, Respects, RedisCommands.Live, RedisShard.Abs, Separate, Arena.Valid, Pool.Valid, Healthy, SumUsed,
      DoPersist;
    var i := st.Index(key);
    st.MyShard(i);
    var s := st.shards[i];
    var before := s.used;
    ghost var db := Seen(s, now);
    r := RedisCommands.Persist(s, key, now);
    st.OneChanged(i);
    PersistLocal(db, key);
    Lifted(db, old(RedisShard.Abs(s.m)), key, DoPersist(db, key), DoPersist(Alone(key, Pick(db, key)), key), now);
    if st.limit > 0 {
      st.globalUsed := st.globalUsed + (s.used - before);
    }
  }

  /** PERSIST. */
  method Persist(st: Store, key: Bytes, now: int) returns (r: Reply)
    requires st.Valid()
    modifies st.Repr()
    ensures st.Valid() && forall k :: k != key ==> st.Sees(k, now) == old(st.Sees(k, now))
    ensures PersistDone(old(st.Sees(key, now)), r, st.Sees(key, now))
  {
    hide Store.Sound, SumUsed, Seen, DoPersist, PersistDone;
    ghost var was := Before(st, key, now);
    r := PersistLocked(st, key, now);
    PersistMeans(was, key, now);
  }

  method PopLocked(st: Store, key: Bytes, count: int, front: bool, now: int) returns (r: Reply)
    requires st.Valid()
    modifies st.Repr()
    ensures st.Valid() && forall k :: k != key ==> st.Sees(k, now) == old(st.Sees(k, now))
    ensures var want := DoPop(Alone(key, old(st.Sees(key, now))), key, count, front);
      r == want.reply && st.Sees(key, now) == Pick(RedisCommands.Live(want.db, now), key)
  {
    hide Shard.Valid, AllGood, Respects, RedisCommands.Live, RedisShard.Abs, Separate, Arena.Valid, Pool.Valid, Healthy, SumUsed,
      DoPop;
    var i := st.Index(key);
    st.MyShard(i);
    var s := st.shards[i];
    var before := s.used;
    ghost var db := Seen(s, now);
    r := RedisCommands.Pop(s, key, count, front, now);
    st.OneChanged(i);
    PopLocal(db, key, count, front);
    Lifted(db, old(RedisShard.Abs(s.m)), key, DoPop(db, key, count, front), DoPop(Alone(key, Pick(db, key)), key, count, front), now);
    if st.limit > 0 {
      st.globalUsed := st.globalUsed + (s.used - before);
    }
  }

  /** LPOP and RPOP. */
  method Pop(st: Store, key: Bytes, count: int, front: bool, now: int) returns (r: Reply)
    requires st.Valid()
    modifies st.Repr()
    ensures st.Valid() && forall k :: k != key ==> st.Sees(k, now) == old(st.Sees(k, now))
    ensures PopDone(old(st.Sees(key, now)), r, st.Sees(key, now), count, front)
  {
    hide Store.Sound, SumUsed, Seen, DoPop, PopDone;
    ghost var was := Before(st, key, now);
    r := PopLocked(st, key, count, front, now);
    PopMeans(was, key, count, front, now);
  }

  method HdelLocked(st: Store, key: Bytes, fs: seq<Bytes>, now: int) returns (r: Reply)
    requires st.Valid()
    modifies st.Repr()
    ensures st.Valid() && forall k :: k != key ==> st.Sees(k, now) == old(st.Sees(k, now))
    ensures var want := DoHdel(Alone(key, old(st.Sees(key, now))), key, fs);
      r == want.reply && st.Sees(key, now) == Pick(RedisCommands.Live(want.db, now), key)
  {
    hide Shard.Valid, AllGood, Respects, RedisCommands.Live, RedisShard.Abs, Separate, Arena.Valid, Pool.Valid, Healthy, SumUsed,
      DoHdel;
    var i := st.Index(key);
    st.MyShard(i);
    var s := st.shards[i];
    var before := s.used;
    ghost var db := Seen(s, now);
    r := RedisCommands.Hdel(s, key, fs, now);
    st.OneChanged(i);
    HdelLocal(db, key, fs);
    Lifted(db, old(RedisShard.Abs(s.m)), key, DoHdel(db, key, fs), DoHdel(Alone(key, Pick(db, key)), key, fs), now);
    if st.limit > 0 {
      st.globalUsed := st.globalUsed + (s.used - before);
    }
  }

  /** HDEL. */
  method Hdel(st: Store, key: Bytes, fs: seq<Bytes>, now: int) returns (r: Reply)
    requires st.Valid()
    modifies st.Repr()
    ensures st.Valid() && forall k :: k != key ==> st.Sees(k, now) == old(st.Sees(k, now))
    ensures HdelDone(old(st.Sees(key, now)), r, st.Sees(key, now), fs)
  {
    hide Store.Sound, SumUsed, Seen, DoHdel, HdelDone;
    ghost var was := Before(st, key, now);
    r := HdelLocked(st, key, fs, now);
    HdelMeans(was, key, fs, now);
  }

  method AppendLocked(st: Store, key: Bytes, v: Bytes, now: int) returns (r: Reply)
    requires st.Valid() && |v| < WORD
    modifies st.Repr()
    ensures r == Crash <==> Overlong(Alone(key, old(st.Sees(key, now))), key, v, st.limit)
    ensures r != Crash ==> st.Valid() && forall k :: k != key ==> st.Sees(k, now) == old(st.Sees(k, now))
    ensures r != Crash ==>
      var want := DoAppend(Alone(key, old(st.Sees(key, now))), key, v, st.limit);
      r == want.reply && st.Sees(key, now) == Pick(RedisCommands.Live(want.db, now), key)
  {
    hide Shard.Valid, AllGood, Respects, RedisCommands.Live, RedisShard.Abs, Separate, Arena.Valid, Pool.Valid, Healthy, SumUsed,
      DoAppend, Overlong;
    var i := st.Index(key);
    st.MyShard(i);
    var s := st.shards[i];
    var before := s.used;
    ghost var db := Seen(s, now);
    r := RedisCommands.Append(s, key, v, st.limit, now);
    AppendLocal(db, key, v, st.limit);
    if r == Crash {
      return;
    }
    st.OneChanged(i);
    Lifted(db, old(RedisShard.Abs(s.m)), key, DoAppend(db, key, v, st.limit), DoAppend(Alone(key, Pick(db, key)), key, v, st.limit), now);
    if st.limit > 0 {
      st.globalUsed := st.globalUsed + (s.used - before);
    }
  }

  /** APPEND; the server stops if the result would be 4 GiB or longer. */
  method Append(st: Store, key: Bytes, v: Bytes, lru: Item -> nat, pick: nat -> (nat, nat), now: int) returns (r: Reply)
    requires st.Valid() && |v| < WORD
    modifies st.Repr()
    ensures r == Crash <==>
      var was := old(st.Sees(key, now));
      && was.Some? && was.e.val.Str? && |was.e.val.bytes| + |v| >= 0x1_0000_0000
      && (st.limit <= 0 || 64 + |key| + |was.e.val.bytes| + |v| <= st.limit)
    ensures r != Crash ==> st.Valid() && forall k :: k != key ==> Kept(old(st.Sees(k, now)), st.Sees(k, now), st.limit)
    ensures r != Crash ==> AppendDone(old(st.Sees(key, now)), r, st.Sees(key, now), key, v, st.limit)
  {
    hide Store.Sound, SumUsed, Seen, DoAppend, AppendDone;
    ghost var was := Before(st, key, now);
    r := AppendLocked(st, key, v, now);
    AppendMeans(was, key, v, st.limit, now);
    if r.Int? {
      st.AfterWrite([key], lru, pick);
    }
  }

  /** MSET: a key given twice gets its last value; the keys written stay. */
  method Mset(st: Store, ps: seq<Put>, lru: Item -> nat, pick: nat -> (nat, nat), now: int) returns (ok: bool)
    requires st.Valid() && forall i :: 0 <= i < |ps| ==> |ps[i].val| < WORD
    modifies st.Repr()
    ensures st.Valid() && (ok <==> st.limit <= 0 || PutCost(ps) <= st.limit)
    ensures forall i :: 0 <= i < |ps| && LastOf(ps, i) && ok ==> st.Sees(ps[i].key, now) == Some(Entry(Str(ps[i].val), 0))
    ensures forall k :: k in KeysOf(ps) ==> st.Sees(k, now) == if ok then PutAll(old(st.Sees(k, now)), ps, k) else old(st.Sees(k, now))
    ensures forall k :: k !in KeysOf(ps) ==> Kept(old(st.Sees(k, now)), st.Sees(k, now), st.limit)
  {
    hide Store.Sound, SumUsed, Seen, PutAll, PutCost;
    ok := st.Mset(ps, now);
    forall k | k !in KeysOf(ps)
      ensures PutAll(old(st.Sees(k, now)), ps, k) == old(st.Sees(k, now))
    {
      NotPut(old(st.Sees(k, now)), ps, k);
    }
    ghost var was := map i | 0 <= i < |ps| :: old(st.Sees(ps[i].key, now));
    if ok {
      st.AfterWrite(KeysOf(ps), lru, pick);
      forall i | 0 <= i < |ps| && LastOf(ps, i)
        ensures st.Sees(ps[i].key, now) == Some(Entry(Str(ps[i].val), 0))
      {
        LastWins(was[i], ps, i);
        assert KeysOf(ps)[i] == ps[i].key;
      }
    }
  }

  /** No later pair has the same key. */
  ghost predicate LastOf(ps: seq<Put>, i: nat)
    requires i < |ps|
  {
    forall j :: i < j < |ps| ==> ps[j].key != ps[i].key
  }

  lemma {:induction false} LastWins(was: RedisStore.Maybe, ps: seq<Put>, i: nat)
    requires i < |ps| && LastOf(ps, i)
    ensures PutAll(was, ps, ps[i].key) == Some(Entry(Str(ps[i].val), 0))
  {
    var n := |ps| - 1;
    if i < n {
      assert forall j :: i < j < n ==> ps[..n][j] == ps[j];
      LastWins(was, ps[..n], i);
    }
  }

  function KeysOf(ps: seq<Put>): (ks: seq<Bytes>)
    ensures |ks| == |ps| && forall i :: 0 <= i < |ps| ==> ks[i] == ps[i].key
  {
    seq(|ps|, i requires 0 <= i < |ps| => ps[i].key)
  }

  lemma {:induction false} NotPut(was: RedisStore.Maybe, ps: seq<Put>, k: Bytes)
    requires k !in KeysOf(ps)
    ensures PutAll(was, ps, k) == was
  {
    if ps != [] {
      var n := |ps| - 1;
      assert KeysOf(ps)[n] == ps[n].key;
      assert KeysOf(ps[..n]) == KeysOf(ps)[..n];
      NotPut(was, ps[..n], k);
    }
  }

  /** Active expiry of one shard: clients see no difference, now or later. */
  method Sweep(st: Store, i: nat, from: nat, budget: nat, now: int) returns (cur: nat)
    requires st.Valid() && i < SHARDS
    modifies st.Repr()
    ensures st.Valid() && forall k, t :: now <= t ==> st.Sees(k, t) == old(st.Sees(k, t))
    ensures forall j :: 0 <= j < budget && j < |old(st.shards[i].slots)| ==>
      Swept(old(st.shards[i].slots), st.shards[i].m, now, RoundFrom(from, j, |old(st.shards[i].slots)|))
  {
    hide Shard.Valid, AllGood, Respects, RedisCommands.Live, RedisShard.Abs, Separate, Arena.Valid, Pool.Valid, Healthy, SumUsed,
      Swept;
    st.MyShard(i);
    var s := st.shards[i];
    var before := s.used;
    cur := RedisCommands.Sweep(s, from, budget, now);
    st.OneChanged(i);
    if st.limit > 0 {
      st.globalUsed := st.globalUsed + (s.used - before);
    }
  }

  /** A key that a command did not write: as before, or evicted. */
  ghost predicate Kept(was: RedisStore.Maybe, e: RedisStore.Maybe, limit: int) {
    e == was || (limit > 0 && e == RedisStore.Maybe.None)
  }

  lemma StoresLocal(db: Db, key: Bytes, val: Bytes, o: SetOptions, limit: int)
    ensures Stores(db, key, val, o, limit) <==> Stores(Alone(key, Pick(db, key)), key, val, o, limit)
  {}
}
