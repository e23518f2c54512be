/** Commands on one shard, under its lock: each acts on what clients see as it would on a plain map. */
module RedisCommands {
  import opened RedisSlots
  import opened RedisAlloc
  import opened RedisShard
  import opened RedisObjects
  import opened RedisNumbers

  type Db = map<Bytes, Entry>

  datatype Error = WrongType | NotInt | HashNotInt | Overflow | OutOfMemory

  datatype Reply = Ok | Nil | NilArray | Int(n: int) | Bulk(b: Bytes) | Bulks(bs: seq<Bytes>) | Err(e: Error)
    | Crash  // the server stops

  datatype Outcome = Outcome(db: Db, reply: Reply)

  // ----- what clients see -----

  predicate Gone(e: Entry, t: int) {
    e.exp != 0 && e.exp <= t
  }

  function Live(db: Db, t: int): Db {
    map k | k in db && !Gone(db[k], t) :: db[k]
  }

  /** What clients see at time t. */
  ghost function Seen(s: Shard, t: int): Db
    reads s
  {
    Live(RedisShard.Abs(s.m), t)
  }

  /** Nothing comes back: what is seen later is what of it has not expired. */
  lemma SeenLater(db: Db, now: int, t: int)
    requires now <= t
    ensures Live(db, t) == Live(Live(db, now), t)
  {}

  /** A container is never empty, and its cost is that of its contents. */
  ghost predicate Good(v: Value) {
    match v
    case Str(_) => true
    case List(xs, cost) => xs != [] && cost == ListCost(xs)
    case Hash(m, cost) => m != map[] && cost == FieldsCost(m)
  }

  ghost predicate AllGood(m: map<Bytes, Item>) {
    forall k :: k in m ==> Good(m[k].val)
  }

  ghost predicate Healthy(s: Shard)
    reads s, s.pool, s.pool.arena, s.pool.arena.os
  {
    s.Valid() && AllGood(s.m)
  }

  lemma GetSees(m: map<Bytes, Item>, m': map<Bytes, Item>, key: Bytes, now: int)
    requires m' == if key in m && Expired(m[key], now) then m - {key} else m
    ensures Live(RedisShard.Abs(m'), now) == Live(RedisShard.Abs(m), now)
    ensures AllGood(m) ==> AllGood(m')
    ensures key in m' <==> key in Live(RedisShard.Abs(m), now)
    ensures key in m' ==> Live(RedisShard.Abs(m), now)[key] == Entry(m'[key].val, m'[key].exp)
  {}

  lemma SetSees(db: Db, key: Bytes, e: Entry, now: int)
    ensures Live(db[key := e], now) == Live(Live(db, now)[key := e], now)
    ensures !Gone(e, now) ==> Live(db[key := e], now) == Live(db, now)[key := e]
    ensures Live(db - {key}, now) == Live(db, now) - {key}
  {}

  /** The start of every command on a key: `e` is what clients see there. */
  method Look(s: Shard, key: Bytes, now: int) returns (idx: int, ins: int)
    requires Healthy(s)
    modifies s, s.pool, s.pool.arena.os
    ensures Healthy(s) && Found(s.hash, s.slots, s.m, key, idx, ins) && Seen(s, now) == old(Seen(s, now))
    ensures idx >= 0 <==> key in Seen(s, now)
    ensures idx >= 0 ==> Seen(s, now)[key] == Entry(s.slots[idx].it.val, s.slots[idx].it.exp) && Good(s.slots[idx].it.val)
    ensures |s.slots| == |old(s.slots)| && s.count + s.tombs <= old(s.count + s.tombs)
    ensures Respects(old(s.pool.World()), s.pool.World())
  {
    hide Shard.Valid, Live, Good, RedisShard.Abs;
    idx, ins := s.Get(key, now);
    GetSees(old(s.m), s.m, key, now);
  }

  /** The same for a command that may insert. */
  method LookToInsert(s: Shard, key: Bytes, now: int) returns (idx: int, ins: int)
    requires Healthy(s)
    modifies s, s.pool, s.pool.arena.os
    ensures Healthy(s) && Found(s.hash, s.slots, s.m, key, idx, ins) && Seen(s, now) == old(Seen(s, now))
    ensures idx >= 0 <==> key in Seen(s, now)
    ensures idx >= 0 ==> Seen(s, now)[key] == Entry(s.slots[idx].it.val, s.slots[idx].it.exp) && Good(s.slots[idx].it.val)
    ensures 4 * (s.count + s.tombs + 1) <= 3 * |s.slots|
    ensures Respects(old(s.pool.World()), s.pool.World())
  {
    hide Shard.Sound, House, Pool.Valid, Live, Good, RedisShard.Abs, Found;
    s.Grow();
    idx, ins := Look(s, key, now);
  }

  // ----- strings -----

  datatype SetOptions = SetOptions(nx: bool, xx: bool, get: bool, keep: bool, exp: int)

  function DoSet(db: Db, key: Bytes, val: Bytes, o: SetOptions, limit: int): Outcome {
    var was := if key in db && db[key].val.Str? then Bulk(db[key].val.bytes) else Nil;
    if limit > 0 && 64 + |key| + |val| > limit then Outcome(db, Err(OutOfMemory))
    else if o.get && key in db && !db[key].val.Str? then Outcome(db, Err(WrongType))
    else if (o.nx && key in db) || (o.xx && key !in db) then Outcome(db, if o.get then was else Nil)
    else
      Outcome(db[key := Entry(Str(val), if o.keep && key in db then db[key].exp else o.exp)], if o.get then was else Ok)
  }

  /** Neither refused nor prevented by an option. */
  predicate Stores(db: Db, key: Bytes, val: Bytes, o: SetOptions, limit: int) {
    && (limit <= 0 || 64 + |key| + |val| <= limit) && (o.get && key in db ==> db[key].val.Str?)
    && (o.nx ==> key !in db) && (o.xx ==> key in db)
  }

  lemma StrStored(m: map<Bytes, Item>, m': map<Bytes, Item>, key: Bytes, val: Bytes, exp: int, now: int)
    requires AllGood(m) && RedisShard.Abs(m') == RedisShard.Abs(m)[key := Entry(Str(val), exp)]
    ensures AllGood(m')
    ensures Live(RedisShard.Abs(m'), now) == Live(Live(RedisShard.Abs(m), now)[key := Entry(Str(val), exp)], now)
  {
    SetSees(RedisShard.Abs(m), key, Entry(Str(val), exp), now);
    forall k | k in m'
      ensures Good(m'[k].val)
    {
      assert k in RedisShard.Abs(m');
      assert k != key ==> RedisShard.Abs(m')[k] == RedisShard.Abs(m)[k];
    }
  }

  method Set(s: Shard, key: Bytes, val: Bytes, o: SetOptions, limit: int, now: int) returns (r: Reply, stored: bool)
    requires Healthy(s) && |val| < WORD
    modifies s, s.pool, s.pool.arena, s.pool.arena.os
    ensures Healthy(s) && Respects(old(s.pool.World()), s.pool.World())
    ensures stored <==> Stores(old(Seen(s, now)), key, val, o, limit)
    ensures var want := DoSet(old(Seen(s, now)), key, val, o, limit);
      r == want.reply && Seen(s, now) == Live(want.db, now)
  {
    hide Shard.Valid, Live, Good, RedisShard.Abs, Found, Respects;
    LiveAgain(old(Seen(s, now)), RedisShard.Abs(s.m), now);
    RespectsSelf(s.pool.World());
    if limit > 0 && 64 + |key| + |val| > limit {
      return Err(OutOfMemory), false;
    }
    var idx, ins := LookToInsert(s, key, now);
    FoundAt(s.hash, s.slots, s.m, key, idx, ins);
    if o.get && idx >= 0 && !s.slots[idx].it.val.Str? {
      return Err(WrongType), false;
    }
    var was := if idx >= 0 && s.slots[idx].it.val.Str? then Bulk(s.slots[idx].it.val.bytes) else Nil;
    if (o.nx && idx >= 0) || (o.xx && idx < 0) {
      return if o.get then was else Nil, false;
    }
    var exp := if o.keep && idx >= 0 then s.slots[idx].it.exp else o.exp;
    ghost var w, m := s.pool.World(), s.m;
    s.SetStr(idx, ins, key, val, exp);
    RespectsOn(old(s.pool.World()), w, s.pool.World());
    StrStored(m, s.m, key, val, exp, now);
    r, stored := if o.get then was else Ok, true;
  }

  lemma LiveAgain(seen: Db, db: Db, now: int)
    requires seen == Live(db, now)
    ensures Live(seen, now) == seen
  {}

  lemma RespectsSelf(w: World)
    ensures Respects(w, w)
  {}

  lemma FoundAt(hash: Bytes -> nat, slots: seq<Slot>, m: map<Bytes, Item>, key: Bytes, idx: int, ins: int)
    requires Found(hash, slots, m, key, idx, ins)
    ensures idx < |slots| && (idx >= 0 ==> slots[idx].Full? && slots[idx].it.key == key && key in m && m[key] == slots[idx].it)
    ensures idx < 0 ==> key !in m && FreeFor(hash, slots, key, ins)
  {}

  function DoAppend(db: Db, key: Bytes, v: Bytes, limit: int): Outcome {
    if key in db && !db[key].val.Str? then Outcome(db, Err(WrongType))
    else
      var was := if key in db then db[key].val.bytes else [];
      var exp := if key in db then db[key].exp else 0;
      if limit > 0 && 64 + |key| + |was| + |v| > limit then Outcome(db, Err(OutOfMemory))
      else Outcome(db[key := Entry(Str(was + v), exp)], Int(|was| + |v|))
  }

  /** Room for n value bytes and some more, unless that would need a mapping of its own. */
  function Headroom(key: Bytes, n: nat): nat {
    if Size(key, n + n / 4) > MAX_SMALL then n else n + n / 4
  }

  /** The result would be 4 GiB or longer. */
  predicate Overlong(db: Db, key: Bytes, v: Bytes, limit: int) {
    && key in db && db[key].val.Str? && |db[key].val.bytes| + |v| >= WORD
    && (limit <= 0 || 64 + |key| + |db[key].val.bytes| + |v| <= limit)
  }

  /** The header keeps the length in 32 bits, so copying the new bytes behind the old ones is out of range exactly if
      the result is overlong. Then nothing is stored and the server stops. */
  method Append(s: Shard, key: Bytes, v: Bytes, limit: int, now: int) returns (r: Reply)
    requires Healthy(s) && |v| < WORD
    modifies s, s.pool, s.pool.arena, s.pool.arena.os
    ensures r == Crash <==> Overlong(old(Seen(s, now)), key, v, limit)
    ensures r == Crash ==> Seen(s, now) == old(Seen(s, now))
    ensures r != Crash ==> Healthy(s) && Respects(old(s.pool.World()), s.pool.World())
    ensures r != Crash ==>
      var want := DoAppend(old(Seen(s, now)), key, v, limit);
      r == want.reply && Seen(s, now) == Live(want.db, now)
  {
    hide Shard.Valid, Live, Good, RedisShard.Abs, Found, Respects;
    LiveAgain(old(Seen(s, now)), RedisShard.Abs(s.m), now);
    ghost var w0 := s.pool.World();
    var idx, ins := LookToInsert(s, key, now);
    FoundAt(s.hash, s.slots, s.m, key, idx, ins);
    ghost var w, m := s.pool.World(), s.m;
    if idx < 0 {
      if limit > 0 && 64 + |key| + |v| > limit {
        return Err(OutOfMemory);
      }
      s.SetStr(idx, ins, key, v, 0);
      RespectsOn(w0, w, s.pool.World());
      StrStored(m, s.m, key, v, 0, now);
      assert [] + v == v;
      return Int(|v|);
    }
    var it := s.slots[idx].it;
    if !it.val.Str? {
      return Err(WrongType);
    }
    var all := it.val.bytes + v;
    if limit > 0 && 64 + |key| + |all| > limit {
      return Err(OutOfMemory);
    }
    var ok := StoreLonger(s, idx, it, v);
    if !ok {
      return Crash;
    }
    RespectsOn(w0, w, s.pool.World());
    StrStored(m, s.m, key, all, it.exp, now);
    r := Int(|all|);
  }

  /** Adds to the string where it is, or in a new item with room to grow; fails if the bytes cannot be copied there. */
  method StoreLonger(s: Shard, idx: nat, it: Item, v: Bytes) returns (ok: bool)
    requires s.Valid() && idx < |s.slots| && s.slots[idx].Full? && s.slots[idx].it == it && it.val.Str?
    requires |v| < WORD && it.key in s.m && s.m[it.key] == it
    modifies s, s.pool, s.pool.arena, s.pool.arena.os
    ensures ok <==> |it.val.bytes| + |v| < WORD
    ensures ok ==> s.Valid() && Respects(old(s.pool.World()), s.pool.World())
    ensures ok ==> RedisShard.Abs(s.m) == RedisShard.Abs(old(s.m))[it.key := Entry(Str(it.val.bytes + v), it.exp)]
    ensures !ok ==> s.m == old(s.m)
  {
    hide Table, Counted, House, Pool.Valid, Pool.LiveSet, Loaded, Vacant, Respects;
    ghost var w0 := s.pool.World();
    var all := it.val.bytes + v;
    ReleasedAsMapped(s, it.key);
    if |all| <= s.Capacity(it) && it.cls < |s.pool.sizes| {
      PoolClasses(s.pool);
      s.Update(idx, it.(val := Str(all)));
      RespectsSelf(w0);
      return true;
    }
    ghost var live, big := s.pool.LiveSet(), s.pool.big;
    var p, cls := s.NewItem(it.key, Headroom(it.key, |all|), Str(all), it.exp);
    var kept := |all| % WORD;
    if |it.val.bytes| > kept {
      return false;
    }
    ghost var w1 := s.pool.World();
    s.Replace(idx, Item(p, cls, it.key, Str(all), it.exp), live, big);
    RespectsOn(w0, w1, s.pool.World());
    ok := true;
  }

  /** The database after appending v to a key n times. */
  function Appended(db: Db, key: Bytes, v: Bytes, n: nat): Db {
    if n == 0 then db else DoAppend(Appended(db, key, v, n - 1), key, v, 0).db
  }

  /** Without a limit, appending 512 MiB to a new key works seven times and stops the server the eighth time. */
  lemma EighthAppend(db: Db, key: Bytes, v: Bytes)
    requires key !in db && |v| == WORD / 8
    ensures forall n :: 0 <= n < 7 ==> !Overlong(Appended(db, key, v, n), key, v, 0)
    ensures Overlong(Appended(db, key, v, 7), key, v, 0)
  {
    hide Appended;
    forall n | 0 <= n < 7
      ensures !Overlong(Appended(db, key, v, n), key, v, 0)
    {
      AppendedLength(db, key, v, n);
    }
    AppendedLength(db, key, v, 7);
  }

  lemma {:induction false} AppendedLength(db: Db, key: Bytes, v: Bytes, n: nat)
    requires key !in db
    ensures n == 0 ==> Appended(db, key, v, n) == db
    ensures n > 0 ==> key in Appended(db, key, v, n) && Appended(db, key, v, n)[key].val.Str?
    ensures n > 0 ==> |Appended(db, key, v, n)[key].val.bytes| == n * |v|
  {
    if n > 0 {
      AppendedLength(db, key, v, n - 1);
      assert n * |v| == (n - 1) * |v| + |v|;
    }
  }

  ghost predicate IsInt(b: Bytes) {
    exists v :: Represents(b, v)
  }

  ghost function IntOf(b: Bytes): int
    requires IsInt(b)
  {
    var v :| Represents(b, v);
    v
  }

  lemma IntOfUnique(b: Bytes, v: int)
    requires Represents(b, v)
    ensures IsInt(b) && IntOf(b) == v
  {
    FormOf(b, v);
    FormOf(b, IntOf(b));
  }

  ghost function DoIncr(db: Db, key: Bytes, delta: int): Outcome {
    if key in db && !db[key].val.Str? then Outcome(db, Err(WrongType))
    else if key in db && !IsInt(db[key].val.bytes) then Outcome(db, Err(NotInt))
    else
      var n := (if key in db then IntOf(db[key].val.bytes) else 0) + delta;
      if !(MIN_INT64 <= n <= MAX_INT64) then Outcome(db, Err(Overflow))
      else Outcome(db[key := Entry(Str(Format(n)), if key in db then db[key].exp else 0)], Int(n))
  }

  /** Adds to a number without ever leaving 64 bits. */
  method IncrBy(s: Shard, key: Bytes, delta: int, now: int) returns (r: Reply)
    requires Healthy(s) && MIN_INT64 <= delta <= MAX_INT64
    modifies s, s.pool, s.pool.arena, s.pool.arena.os
    ensures Healthy(s) && Respects(old(s.pool.World()), s.pool.World())
    ensures var want := DoIncr(old(Seen(s, now)), key, delta);
      r == want.reply && Seen(s, now) == Live(want.db, now)
  {
    hide Shard.Valid, Live, Good, RedisShard.Abs, Found, Respects, Represents, Format;
    LiveAgain(old(Seen(s, now)), RedisShard.Abs(s.m), now);
    ghost var w0 := s.pool.World();
    var idx, ins := LookToInsert(s, key, now);
    FoundAt(s.hash, s.slots, s.m, key, idx, ins);
    ghost var w, m := s.pool.World(), s.m;
    var cur, exp := 0, 0;
    if idx >= 0 {
      var it := s.slots[idx].it;
      if !it.val.Str? {
        return Err(WrongType);
      }
      var v, ok := ParseInt(it.val.bytes);
      if !ok {
        return Err(NotInt);
      }
      IntOfUnique(it.val.bytes, v);
      InRange(it.val.bytes, v);
      cur, exp := v, it.exp;
    }
    if (delta > 0 && cur > MAX_INT64 - delta) || (delta < 0 && cur < MIN_INT64 - delta) {
      return Err(Overflow);
    }
    cur := cur + delta;
    Format64Length(cur);
    s.SetStr(idx, ins, key, Format(cur), exp);
    RespectsOn(w0, w, s.pool.World());
    StrStored(m, s.m, key, Format(cur), exp, now);
    r := Int(cur);
  }

  lemma InRange(b: Bytes, v: int)
    requires Represents(b, v)
    ensures MIN_INT64 <= v <= MAX_INT64
  {}

  // ----- expiry -----

  function DoExpire(db: Db, key: Bytes, when: int, now: int): Outcome {
    if key !in db then Outcome(db, Int(0))
    else if when <= now then Outcome(db - {key}, Int(1))
    else Outcome(db[key := db[key].(exp := when)], Int(1))
  }

  lemma Dropped(m: map<Bytes, Item>, key: Bytes, now: int)
    ensures Live(RedisShard.Abs(m - {key}), now) == Live(RedisShard.Abs(m), now) - {key}
    ensures AllGood(m) ==> AllGood(m - {key})
  {
    assert RedisShard.Abs(m - {key}) == RedisShard.Abs(m) - {key};
  }

  lemma Stored(m: map<Bytes, Item>, it: Item, now: int)
    requires AllGood(m)
    ensures Good(it.val) ==> AllGood(m[it.key := it])
    ensures Live(RedisShard.Abs(m[it.key := it]), now) == Live(Live(RedisShard.Abs(m), now)[it.key := Entry(it.val, it.exp)], now)
  {
    assert RedisShard.Abs(m[it.key := it]) == RedisShard.Abs(m)[it.key := Entry(it.val, it.exp)];
    SetSees(RedisShard.Abs(m), it.key, Entry(it.val, it.exp), now);
  }

  /** DEL of one key: whether it was there. */
  method DelKey(s: Shard, key: Bytes, now: int) returns (was: bool)
    requires Healthy(s)
    modifies s, s.pool, s.pool.arena.os
    ensures Healthy(s) && Respects(old(s.pool.World()), s.pool.World())
    ensures (was <==> key in old(Seen(s, now))) && Seen(s, now) == old(Seen(s, now)) - {key}
  {
    hide Shard.Valid, Live, Good, RedisShard.Abs, Found, Respects;
    ghost var w0 := s.pool.World();
    var idx, ins := Look(s, key, now);
    FoundAt(s.hash, s.slots, s.m, key, idx, ins);
    was := idx >= 0;
    if idx >= 0 {
      ghost var w, m := s.pool.World(), s.m;
      s.Del(idx);
      Dropped(m, key, now);
      RespectsOn(w0, w, s.pool.World());
    }
  }

  method ExpireAt(s: Shard, key: Bytes, when: int, now: int) returns (r: Reply)
    requires Healthy(s)
    modifies s, s.pool, s.pool.arena.os
    ensures Healthy(s) && Respects(old(s.pool.World()), s.pool.World())
    ensures var want := DoExpire(old(Seen(s, now)), key, when, now);
      r == want.reply && Seen(s, now) == Live(want.db, now)
  {
    hide Shard.Valid, Live, Good, RedisShard.Abs, Found, Respects;
    LiveAgain(old(Seen(s, now)), RedisShard.Abs(s.m), now);
    ghost var w0 := s.pool.World();
    var idx, ins := Look(s, key, now);
    FoundAt(s.hash, s.slots, s.m, key, idx, ins);
    if idx < 0 {
      return Int(0);
    }
    ghost var w, m := s.pool.World(), s.m;
    if when <= now {
      s.Del(idx);
      Dropped(m, key, now);
      RespectsOn(w0, w, s.pool.World());
      LiveAgain(Seen(s, now), RedisShard.Abs(s.m), now);
    } else {
      var it := s.slots[idx].it.(exp := when);
      s.Update(idx, it);
      Stored(m, it, now);
    }
    r := Int(1);
  }

  function DoPersist(db: Db, key: Bytes): Outcome {
    if key in db && db[key].exp != 0 then Outcome(db[key := db[key].(exp := 0)], Int(1)) else Outcome(db, Int(0))
  }

  method Persist(s: Shard, key: Bytes, now: int) returns (r: Reply)
    requires Healthy(s)
    modifies s, s.pool, s.pool.arena.os
    ensures Healthy(s) && Respects(old(s.pool.World()), s.pool.World())
    ensures var want := DoPersist(old(Seen(s, now)), key);
      r == want.reply && Seen(s, now) == Live(want.db, now)
  {
    hide Shard.Valid, Live, Good, RedisShard.Abs, Found, Respects;
    LiveAgain(old(Seen(s, now)), RedisShard.Abs(s.m), now);
    var idx, ins := Look(s, key, now);
    FoundAt(s.hash, s.slots, s.m, key, idx, ins);
    r := Int(0);
    if idx >= 0 && s.slots[idx].it.exp != 0 {
      ghost var m := s.m;
      var it := s.slots[idx].it.(exp := 0);
      s.Update(idx, it);
      Stored(m, it, now);
      r := Int(1);
    }
  }

  // ----- lists -----

  function DoPush(db: Db, key: Bytes, vs: seq<Bytes>, front: bool, limit: int): Outcome {
    if key in db && !db[key].val.List? then Outcome(db, Err(WrongType))
    else
      var xs := if key in db then db[key].val.elems else [];
      var ys := if front then Reversed(vs) + xs else xs + vs;
      var exp := if key in db then db[key].exp else 0;
      if limit > 0 && 64 + |key| + ListCost(ys) > limit then Outcome(db, Err(OutOfMemory))
      else Outcome(db[key := Entry(List(ys, ListCost(ys)), exp)], Int(|ys|))
  }

  method CostOfAll(vs: seq<Bytes>) returns (d: int)
    ensures d == ListCost(vs)
  {
    d := 0;
    for i := 0 to |vs|
      invariant d == ListCost(vs[..i])
    {
      assert vs[..i + 1][..i] == vs[..i];
      d := d + 16 + |vs[i]|;
    }
    assert vs[..|vs|] == vs;
  }

  lemma PushCost(xs: seq<Bytes>, vs: seq<Bytes>)
    ensures ListCost(Reversed(vs) + xs) == ListCost(xs) + ListCost(vs) && ListCost(xs + vs) == ListCost(xs) + ListCost(vs)
  {
    ListCostConcat(Reversed(vs), xs);
    ListCostConcat(xs, vs);
    ListCostReversed(vs);
  }

  /** Pushes the values one after the other. */
  method PushEach(l: ListObj, vs: seq<Bytes>, front: bool)
    requires l.Valid()
    modifies l, l.buf
    ensures l.Valid() && l.cost == old(l.cost)
    ensures l.Contents() == if front then Reversed(vs) + old(l.Contents()) else old(l.Contents()) + vs
  {
    hide ListObj.Contents, ListObj.Valid;
    ghost var xs := l.Contents();
    for i := 0 to |vs|
      invariant l.Valid() && l.cost == old(l.cost) && (l.buf == old(l.buf) || fresh(l.buf))
      invariant l.Contents() == if front then Reversed(vs[..i]) + xs else xs + vs[..i]
    {
      assert vs[..i + 1][..i] == vs[..i];
      assert front ==> [vs[i]] + (Reversed(vs[..i]) + xs) == ([vs[i]] + Reversed(vs[..i])) + xs;
      l.Push(vs[i], front);
    }
    assert vs[..|vs|] == vs;
  }

  /** The list object of a value, after the pushes. */
  method PushTo(v: Value, vs: seq<Bytes>, front: bool, delta: int) returns (v': Value)
    requires v.List?
    ensures v' == List(if front then Reversed(vs) + v.elems else v.elems + vs, v.cost + delta)
  {
    hide Ring, Reversed;
    var l := new ListObj(v.elems, v.cost);
    PushEach(l, vs, front);
    l.cost := l.cost + delta;
    var xs := l.Elements();
    v' := List(xs, l.cost);
  }

  lemma GoodList(v: Value)
    requires Good(v) && v.List?
    ensures v.elems != [] && v.cost == ListCost(v.elems)
  {}

  method Push(s: Shard, key: Bytes, vs: seq<Bytes>, front: bool, limit: int, now: int) returns (r: Reply)
    requires Healthy(s) && vs != []
    modifies s, s.pool, s.pool.arena, s.pool.arena.os
    ensures Healthy(s) && Respects(old(s.pool.World()), s.pool.World())
    ensures var want := DoPush(old(Seen(s, now)), key, vs, front, limit);
      r == want.reply && Seen(s, now) == Live(want.db, now)
  {
    hide Shard.Valid, Live, Good, RedisShard.Abs, Found, Respects, ListCost, Reversed;
    LiveAgain(old(Seen(s, now)), RedisShard.Abs(s.m), now);
    ghost var w0 := s.pool.World();
    var idx, ins := LookToInsert(s, key, now);
    FoundAt(s.hash, s.slots, s.m, key, idx, ins);
    if idx >= 0 && !s.slots[idx].it.val.List? {
      return Err(WrongType);
    }
    var delta := CostOfAll(vs);
    ghost var xs := if idx >= 0 then s.slots[idx].it.val.elems else [];
    PushCost(xs, vs);
    NoneCost();
    if idx >= 0 {
      GoodList(s.slots[idx].it.val);
    }
    if limit > 0 {
      var cur := if idx >= 0 then Cost(s.slots[idx].it) else 64 + |key|;
      if cur + delta > limit {
        return Err(OutOfMemory);
      }
    }
    ghost var w, m := s.pool.World(), s.m;
    var at := idx;
    if idx < 0 {
      var it := s.NewContainer(ins, key, List([], 0));
      RespectsOn(w0, w, s.pool.World());
      at := ins;
    }
    var was := s.slots[at].it;
    var v := PushTo(was.val, vs, front, delta);
    var it := was.(val := v);
    ghost var mid := s.m;
    s.Update(at, it);
    ContainerStored(m, mid, s.m, Entry(List([], 0), 0), it, now);
    r := Int(|v.elems|);
  }

  lemma NoneCost()
    ensures ListCost([]) == 0 && FieldsCost(map[]) == 0
  {}

  /** Storing under a key, perhaps by way of an empty container. */
  lemma ContainerStored(m: map<Bytes, Item>, mid: map<Bytes, Item>, m': map<Bytes, Item>, e: Entry, it: Item, now: int)
    requires AllGood(m) && m' == mid[it.key := it] && Good(it.val)
    requires mid == m || RedisShard.Abs(mid) == RedisShard.Abs(m)[it.key := e]
    ensures AllGood(m')
    ensures Live(RedisShard.Abs(m'), now) == Live(Live(RedisShard.Abs(m), now)[it.key := Entry(it.val, it.exp)], now)
  {
    var a := Entry(it.val, it.exp);
    assert RedisShard.Abs(m') == RedisShard.Abs(mid)[it.key := a];
    assert RedisShard.Abs(m') == RedisShard.Abs(m)[it.key := a];
    SetSees(RedisShard.Abs(m), it.key, a, now);
    forall k | k in m'
      ensures Good(m'[k].val)
    {
      assert k in RedisShard.Abs(m');
      assert k != it.key ==> RedisShard.Abs(m')[k] == RedisShard.Abs(m)[k];
    }
  }

  function Least(a: int, b: int): int {
    if a < b then a else b
  }

  /** What is popped and what remains; popping from the back takes the last element first. */
  function Popped(xs: seq<Bytes>, n: nat, front: bool): (seq<Bytes>, seq<Bytes>)
    requires n <= |xs|
  {
    if front then (xs[..n], xs[n..]) else (Reversed(xs[|xs| - n..]), xs[..|xs| - n])
  }

  /** `count` is negative for the form without a count. */
  function DoPop(db: Db, key: Bytes, count: int, front: bool): Outcome {
    if key !in db then Outcome(db, if count >= 0 then NilArray else Nil)
    else if !db[key].val.List? then Outcome(db, Err(WrongType))
    else
      var xs := db[key].val.elems;
      var n := if count < 0 then Least(1, |xs|) else Least(count, |xs|);
      var (out, rest) := Popped(xs, n, front);
      Outcome(if rest == [] then db - {key} else db[key := db[key].(val := List(rest, ListCost(rest)))],
              if count >= 0 then Bulks(out) else if out == [] then Nil else Bulk(out[0]))
  }

  /** Pops one by one, adding up what the popped elements cost. */
  method PopEach(l: ListObj, n: nat, front: bool) returns (out: seq<Bytes>, delta: int)
    requires l.Valid() && n <= l.n
    modifies l, l.buf
    ensures l.Valid() && l.cost == old(l.cost) && (out, l.Contents()) == Popped(old(l.Contents()), n, front)
    ensures ListCost(l.Contents()) == ListCost(old(l.Contents())) - delta
  {
    hide ListCost, Reversed, Popped, ListObj.Contents, ListObj.Valid;
    ghost var xs := l.Contents();
    out, delta := [], 0;
    PopNone(xs, front);
    for i := 0 to n
      invariant l.Valid() && l.cost == old(l.cost) && (l.buf == old(l.buf) || fresh(l.buf))
      invariant (out, l.Contents()) == Popped(xs, i, front) && |l.Contents()| == |xs| - i == l.n
      invariant ListCost(l.Contents()) == ListCost(xs) - delta
    {
      PopOne(xs, i, front);
      var v := l.Pop(front);
      out := out + [v];
      delta := delta + 16 + |v|;
    }
  }

  /** The list object of a value, after n pops. */
  method PopFrom(v: Value, n: nat, front: bool) returns (out: seq<Bytes>, v': Value)
    requires v.List? && n <= |v.elems| && v.cost == ListCost(v.elems)
    ensures v'.List? && (out, v'.elems) == Popped(v.elems, n, front) && v'.cost == ListCost(v'.elems)
  {
    hide ListCost, Reversed, Popped, Ring;
    var l := new ListObj(v.elems, v.cost);
    var delta;
    out, delta := PopEach(l, n, front);
    l.cost := l.cost - delta;
    var rest := l.Elements();
    v' := List(rest, l.cost);
  }

  lemma PopNone(xs: seq<Bytes>, front: bool)
    ensures Popped(xs, 0, front) == ([], xs)
  {
    assert xs[0..] == xs && xs[..|xs|] == xs && xs[|xs|..] == [];
  }

  lemma PopOne(xs: seq<Bytes>, i: nat, front: bool)
    requires i < |xs|
    ensures var (out, rest) := Popped(xs, i, front);
      && |rest| == |xs| - i
      && Popped(xs, i + 1, front) == (out + [if front then rest[0] else rest[|rest| - 1]],
                                      if front then rest[1..] else rest[..|rest| - 1])
      && ListCost(rest) == ListCost(if front then rest[1..] else rest[..|rest| - 1])
                           + 16 + |if front then rest[0] else rest[|rest| - 1]|
  {
    var (out, rest) := Popped(xs, i, front);
    if front {
      assert xs[..i + 1] == xs[..i] + [xs[i]] && rest[1..] == xs[i + 1..];
      assert rest == [rest[0]] + rest[1..];
      ListCostConcat([rest[0]], rest[1..]);
      assert [rest[0]][..0] == [];
      assert ListCost([rest[0]]) == 16 + |rest[0]|;
    } else {
      var tail := xs[|xs| - i - 1..];
      assert tail[1..] == xs[|xs| - i..];
      assert Reversed(tail) == Reversed(tail[1..]) + [tail[0]];
      assert tail[0] == rest[|rest| - 1];
      assert xs[|xs| - (i + 1)..] == tail && xs[..|xs| - (i + 1)] == rest[..|rest| - 1];
    }
  }

  method Pop(s: Shard, key: Bytes, count: int, front: bool, now: int) returns (r: Reply)
    requires Healthy(s)
    modifies s, s.pool, s.pool.arena.os
    ensures Healthy(s) && Respects(old(s.pool.World()), s.pool.World())
    ensures var want := DoPop(old(Seen(s, now)), key, count, front);
      r == want.reply && Seen(s, now) == Live(want.db, now)
  {
    hide Shard.Valid, Live, Good, RedisShard.Abs, Found, Respects, ListCost, Reversed, Popped;
    LiveAgain(old(Seen(s, now)), RedisShard.Abs(s.m), now);
    ghost var w0 := s.pool.World();
    var idx, ins := Look(s, key, now);
    FoundAt(s.hash, s.slots, s.m, key, idx, ins);
    if idx < 0 {
      return if count >= 0 then NilArray else Nil;
    }
    var was := s.slots[idx].it;
    if !was.val.List? {
      return Err(WrongType);
    }
    GoodList(was.val);
    ghost var w := s.pool.World();
    var xs := was.val.elems;
    var n := if count < 0 then 1 else Least(count, |xs|);
    var out, v := PopFrom(was.val, n, front);
    PoppedLength(xs, n, front);
    if v.elems != [] {
      StillGood(v.elems);
    }
    StoreOrDrop(s, idx, was.(val := v), v.elems == [], now);
    RespectsOn(w0, w, s.pool.World());
    LiveAgain(Seen(s, now), RedisShard.Abs(s.m), now);
    r := if count >= 0 then Bulks(out) else Bulk(out[0]);
  }

  /** Puts a container's new contents in its place, or deletes the key if nothing is left. */
  method StoreOrDrop(s: Shard, idx: nat, it: Item, empty: bool, now: int)
    requires Healthy(s) && idx < |s.slots| && s.slots[idx].Full? && (empty || Good(it.val))
    requires it.key == s.slots[idx].it.key && it.p == s.slots[idx].it.p && it.cls == s.slots[idx].it.cls
    requires Vlen(it.val) == Vlen(s.slots[idx].it.val)
    modifies s, s.pool, s.pool.arena.os
    ensures Healthy(s) && Respects(old(s.pool.World()), s.pool.World())
    ensures Seen(s, now) == if empty then old(Seen(s, now)) - {it.key} else Live(old(Seen(s, now))[it.key := Entry(it.val, it.exp)], now)
  {
    hide Shard.Valid, Live, Good, RedisShard.Abs, Found, Respects;
    ghost var m := s.m;
    RespectsSelf(s.pool.World());
    s.Update(idx, it);
    if empty {
      ghost var mid := s.m;
      s.Del(idx);
      assert mid - {it.key} == m - {it.key};
      Dropped(m, it.key, now);
    } else {
      Stored(m, it, now);
    }
  }

  lemma StillGood(xs: seq<Bytes>)
    requires xs != []
    ensures Good(List(xs, ListCost(xs)))
  {}

  lemma PoppedLength(xs: seq<Bytes>, n: nat, front: bool)
    requires n <= |xs|
    ensures |Popped(xs, n, front).0| == n && |Popped(xs, n, front).1| == |xs| - n
  {}

  // ----- hashes -----

  function SetAll(m: map<Bytes, Bytes>, ps: seq<Pair>): map<Bytes, Bytes> {
    if ps == [] then m else SetAll(m, ps[..|ps| - 1])[ps[|ps| - 1].field := ps[|ps| - 1].value]
  }

  /** How many fields are new. */
  function Added(m: map<Bytes, Bytes>, ps: seq<Pair>): nat {
    if ps == [] then 0
    else
      var n := |ps| - 1;
      Added(m, ps[..n]) + (if ps[n].field in SetAll(m, ps[..n]) then 0 else 1)
  }

  function Estimate(ps: seq<Pair>): nat {
    if ps == [] then 0 else Estimate(ps[..|ps| - 1]) + 32 + |ps[|ps| - 1].field| + |ps[|ps| - 1].value|
  }

  ghost function DoHset(db: Db, key: Bytes, ps: seq<Pair>, limit: int): Outcome {
    if key in db && !db[key].val.Hash? then Outcome(db, Err(WrongType))
    else
      var m := if key in db then db[key].val.fields else map[];
      if limit > 0 && 64 + |key| + FieldsCost(m) + Estimate(ps) > limit then Outcome(db, Err(OutOfMemory))
      else
        var m' := SetAll(m, ps);
        Outcome(db[key := Entry(Hash(m', FieldsCost(m')), if key in db then db[key].exp else 0)], Int(Added(m, ps)))
  }

  method SetEach(h: HashObj, ps: seq<Pair>) returns (delta: int, added: nat)
    requires h.Valid()
    modifies h
    ensures h.Valid() && h.contents == SetAll(old(h.contents), ps) && added == Added(old(h.contents), ps) && h.cost == old(h.cost)
    ensures FieldsCost(h.contents) == FieldsCost(old(h.contents)) + delta
  {
    hide FieldsCost, HashObj.Valid;
    ghost var m := h.contents;
    delta, added := 0, 0;
    for i := 0 to |ps|
      invariant h.Valid() && h.contents == SetAll(m, ps[..i]) && added == Added(m, ps[..i]) && h.cost == old(h.cost)
      invariant FieldsCost(h.contents) == FieldsCost(m) + delta
    {
      assert ps[..i + 1][..i] == ps[..i];
      var f, v := ps[i].field, ps[i].value;
      FieldsCostSet(h.contents, f, v);
      var was, ok := h.Set(f, v);
      if ok {
        delta := delta + |v| - |was|;
      } else {
        delta := delta + 32 + |f| + |v|;
        added := added + 1;
      }
    }
    assert ps[..|ps|] == ps;
  }

  /** The hash object of a value, after the fields are set. */
  method SetIn(v: Value, ps: seq<Pair>) returns (v': Value, added: nat)
    requires v.Hash? && v.cost == FieldsCost(v.fields)
    ensures added == Added(v.fields, ps)
    ensures v' == Hash(SetAll(v.fields, ps), FieldsCost(SetAll(v.fields, ps)))
  {
    hide FieldsCost, HashObj.Valid, SetAll, Added;
    var h := HashOf(v.fields, v.cost);
    var delta;
    delta, added := SetEach(h, ps);
    var fields, cost := TakeHash(h, delta);
    v' := Hash(fields, cost);
  }

  method TakeHash(h: HashObj, delta: int) returns (fields: map<Bytes, Bytes>, cost: int)
    requires h.Valid()
    modifies h
    ensures h.Valid() && fields == h.contents == old(h.contents) && cost == h.cost == old(h.cost) + delta
  {
    h.cost := h.cost + delta;
    fields := h.Fields();
    cost := h.cost;
  }

  method EstimateAll(ps: seq<Pair>) returns (n: nat)
    ensures n == Estimate(ps)
  {
    n := 0;
    for i := 0 to |ps|
      invariant n == Estimate(ps[..i])
    {
      assert ps[..i + 1][..i] == ps[..i];
      n := n + 32 + |ps[i].field| + |ps[i].value|;
    }
    assert ps[..|ps|] == ps;
  }

  lemma GoodHash(v: Value)
    requires Good(v) && v.Hash?
    ensures v.fields != map[] && v.cost == FieldsCost(v.fields)
  {}

  lemma SomeSet(m: map<Bytes, Bytes>, ps: seq<Pair>)
    requires ps != []
    ensures SetAll(m, ps) != map[] && Good(Hash(SetAll(m, ps), FieldsCost(SetAll(m, ps))))
  {
    assert ps[|ps| - 1].field in SetAll(m, ps);
  }

  method Hset(s: Shard, key: Bytes, ps: seq<Pair>, limit: int, now: int) returns (r: Reply)
    requires Healthy(s) && ps != []
    modifies s, s.pool, s.pool.arena, s.pool.arena.os
    ensures Healthy(s) && Respects(old(s.pool.World()), s.pool.World())
    ensures var want := DoHset(old(Seen(s, now)), key, ps, limit);
      r == want.reply && Seen(s, now) == Live(want.db, now)
  {
    hide Shard.Valid, Live, Good, RedisShard.Abs, Found, Respects, FieldsCost, SetAll, Added, Estimate;
    LiveAgain(old(Seen(s, now)), RedisShard.Abs(s.m), now);
    ghost var w0 := s.pool.World();
    var idx, ins := LookToInsert(s, key, now);
    FoundAt(s.hash, s.slots, s.m, key, idx, ins);
    if idx >= 0 && !s.slots[idx].it.val.Hash? {
      return Err(WrongType);
    }
    NoneCost();
    if idx >= 0 {
      GoodHash(s.slots[idx].it.val);
    }
    if limit > 0 {
      var cur := if idx >= 0 then Cost(s.slots[idx].it) else 64 + |key|;
      var more := EstimateAll(ps);
      if cur + more > limit {
        return Err(OutOfMemory);
      }
    }
    ghost var w, m := s.pool.World(), s.m;
    var at := idx;
    if idx < 0 {
      var it := s.NewContainer(ins, key, Hash(map[], 0));
      RespectsOn(w0, w, s.pool.World());
      at := ins;
    }
    var added := StoreFields(s, at, ps, m, now);
    r := Int(added);
  }

  /** Sets the fields of the hash in a slot; `m` is what the shard held before that hash was perhaps created. */
  method StoreFields(s: Shard, at: nat, ps: seq<Pair>, ghost m: map<Bytes, Item>, ghost now: int) returns (added: nat)
    requires s.Valid() && at < |s.slots| && s.slots[at].Full? && s.slots[at].it.val.Hash? && ps != []
    requires s.slots[at].it.val.cost == FieldsCost(s.slots[at].it.val.fields) && AllGood(m)
    requires s.m == m || RedisShard.Abs(s.m) == RedisShard.Abs(m)[s.slots[at].it.key := Entry(Hash(map[], 0), 0)]
    modifies s
    ensures Healthy(s) && added == Added(old(s.slots[at].it.val.fields), ps)
    ensures var it := old(s.slots[at].it);
      var fields := SetAll(it.val.fields, ps);
      Seen(s, now) == Live(Live(RedisShard.Abs(m), now)[it.key := Entry(Hash(fields, FieldsCost(fields)), it.exp)], now)
  {
    hide Shard.Valid, Live, Good, RedisShard.Abs, Found, FieldsCost, SetAll, Added;
    var was := s.slots[at].it;
    var v;
    v, added := SetIn(was.val, ps);
    var it := was.(val := v);
    ghost var mid := s.m;
    SomeSet(was.val.fields, ps);
    s.Update(at, it);
    ContainerStored(m, mid, s.m, Entry(Hash(map[], 0), 0), it, now);
  }

  ghost function DoHincr(db: Db, key: Bytes, f: Bytes, delta: int, limit: int): Outcome {
    if key in db && !db[key].val.Hash? then Outcome(db, Err(WrongType))
    else
      var m := if key in db then db[key].val.fields else map[];
      if f in m && !IsInt(m[f]) then Outcome(db, Err(HashNotInt))
      else
        var n := (if f in m then IntOf(m[f]) else 0) + delta;
        var more := 64 + |key| + 32 + |f| + |Format(n)| + (if key in db then 64 + |key| + FieldsCost(m) else 0);
        if !(MIN_INT64 <= n <= MAX_INT64) then Outcome(db, Err(Overflow))
        else if limit > 0 && more > limit then Outcome(db, Err(OutOfMemory))
        else
          var m' := m[f := Format(n)];
          Outcome(db[key := Entry(Hash(m', FieldsCost(m')), if key in db then db[key].exp else 0)], Int(n))
  }

  /** The number to add to: that of the field, 0 without one; not ok if the field holds no number. */
  method FieldNumber(v: Value, f: Bytes) returns (cur: int, ok: bool)
    requires v.Hash?
    ensures ok <==> f !in v.fields || IsInt(v.fields[f])
    ensures ok ==> MIN_INT64 <= cur <= MAX_INT64 && cur == if f in v.fields then IntOf(v.fields[f]) else 0
  {
    hide HashObj.Valid, Represents;
    var h := HashOf(v.fields, v.cost);
    var x, found := h.Get(f);
    cur, ok := 0, true;
    if found {
      cur, ok := ParseInt(x);
      if ok {
        IntOfUnique(x, cur);
        InRange(x, cur);
      }
    }
  }

  lemma OneSet(m: map<Bytes, Bytes>, f: Bytes, v: Bytes)
    ensures SetAll(m, [Pair(f, v)]) == m[f := v]
  {
    assert [Pair(f, v)][..0] == [];
  }

  method Hincrby(s: Shard, key: Bytes, f: Bytes, delta: int, limit: int, now: int) returns (r: Reply)
    requires Healthy(s) && MIN_INT64 <= delta <= MAX_INT64
    modifies s, s.pool, s.pool.arena, s.pool.arena.os
    ensures Healthy(s) && Respects(old(s.pool.World()), s.pool.World())
    ensures var want := DoHincr(old(Seen(s, now)), key, f, delta, limit);
      r == want.reply && Seen(s, now) == Live(want.db, now)
  {
    hide Shard.Valid, Live, Good, RedisShard.Abs, Found, Respects, FieldsCost, SetAll, Added, Format, IsInt, IntOf;
    LiveAgain(old(Seen(s, now)), RedisShard.Abs(s.m), now);
    ghost var w0 := s.pool.World();
    var idx, ins := LookToInsert(s, key, now);
    FoundAt(s.hash, s.slots, s.m, key, idx, ins);
    if idx >= 0 && !s.slots[idx].it.val.Hash? {
      return Err(WrongType);
    }
    NoneCost();
    var cur := 0;
    if idx >= 0 {
      GoodHash(s.slots[idx].it.val);
      var ok;
      cur, ok := FieldNumber(s.slots[idx].it.val, f);
      if !ok {
        return Err(HashNotInt);
      }
    }
    if (delta > 0 && cur > MAX_INT64 - delta) || (delta < 0 && cur < MIN_INT64 - delta) {
      return Err(Overflow);
    }
    cur := cur + delta;
    var nv := Format(cur);
    if limit > 0 && 64 + |key| + 32 + |f| + |nv| + (if idx >= 0 then Cost(s.slots[idx].it) else 0) > limit {
      return Err(OutOfMemory);
    }
    ghost var w, m := s.pool.World(), s.m;
    var at := idx;
    if idx < 0 {
      var it := s.NewContainer(ins, key, Hash(map[], 0));
      RespectsOn(w0, w, s.pool.World());
      at := ins;
    }
    var added := StoreFields(s, at, [Pair(f, nv)], m, now);
    OneSet(if idx >= 0 then m[key].val.fields else map[], f, nv);
    r := Int(cur);
  }

  function DelAll(m: map<Bytes, Bytes>, fs: seq<Bytes>): map<Bytes, Bytes> {
    if fs == [] then m else DelAll(m, fs[..|fs| - 1]) - {fs[|fs| - 1]}
  }

  /** How many of the fields were there. */
  function Removed(m: map<Bytes, Bytes>, fs: seq<Bytes>): nat {
    if fs == [] then 0
    else
      var n := |fs| - 1;
      Removed(m, fs[..n]) + (if fs[n] in DelAll(m, fs[..n]) then 1 else 0)
  }

  ghost function DoHdel(db: Db, key: Bytes, fs: seq<Bytes>): Outcome {
    if key !in db then Outcome(db, Int(0))
    else if !db[key].val.Hash? then Outcome(db, Err(WrongType))
    else
      var m := DelAll(db[key].val.fields, fs);
      Outcome(if m == map[] then db - {key} else db[key := db[key].(val := Hash(m, FieldsCost(m)))],
              Int(Removed(db[key].val.fields, fs)))
  }

  method DelEach(h: HashObj, fs: seq<Bytes>) returns (delta: int, n: nat)
    requires h.Valid()
    modifies h
    ensures h.Valid() && h.contents == DelAll(old(h.contents), fs) && n == Removed(old(h.contents), fs) && h.cost == old(h.cost)
    ensures FieldsCost(h.contents) == FieldsCost(old(h.contents)) - delta
  {
    hide FieldsCost, HashObj.Valid;
    ghost var m := h.contents;
    delta, n := 0, 0;
    for i := 0 to |fs|
      invariant h.Valid() && h.contents == DelAll(m, fs[..i]) && n == Removed(m, fs[..i]) && h.cost == old(h.cost)
      invariant FieldsCost(h.contents) == FieldsCost(m) - delta
    {
      assert fs[..i + 1][..i] == fs[..i];
      var f := fs[i];
      if f in h.contents {
        FieldsCostWithout(h.contents, f);
      } else {
        assert h.contents - {f} == h.contents;
      }
      var was, ok := h.Del(f);
      if ok {
        delta := delta + 32 + |f| + |was|;
        n := n + 1;
      }
    }
    assert fs[..|fs|] == fs;
  }

  /** The hash object of a value, after the fields are deleted. */
  method DelIn(v: Value, fs: seq<Bytes>) returns (v': Value, n: nat, empty: bool)
    requires v.Hash? && v.cost == FieldsCost(v.fields)
    ensures n == Removed(v.fields, fs) && (empty <==> v' == Hash(map[], FieldsCost(map[])))
    ensures v' == Hash(DelAll(v.fields, fs), FieldsCost(DelAll(v.fields, fs)))
  {
    hide FieldsCost, HashObj.Valid, DelAll, Removed;
    var h := HashOf(v.fields, v.cost);
    var delta;
    delta, n := DelEach(h, fs);
    var fields, cost := TakeHash(h, -delta);
    v' := Hash(fields, cost);
    var size := h.Size();
    empty := size == 0;
  }

  method Hdel(s: Shard, key: Bytes, fs: seq<Bytes>, now: int) returns (r: Reply)
    requires Healthy(s)
    modifies s, s.pool, s.pool.arena.os
    ensures Healthy(s) && Respects(old(s.pool.World()), s.pool.World())
    ensures var want := DoHdel(old(Seen(s, now)), key, fs);
      r == want.reply && Seen(s, now) == Live(want.db, now)
  {
    hide Shard.Valid, Live, Good, RedisShard.Abs, Found, Respects, FieldsCost, DelAll, Removed;
    LiveAgain(old(Seen(s, now)), RedisShard.Abs(s.m), now);
    ghost var w0 := s.pool.World();
    var idx, ins := Look(s, key, now);
    FoundAt(s.hash, s.slots, s.m, key, idx, ins);
    if idx < 0 {
      return Int(0);
    }
    var was := s.slots[idx].it;
    if !was.val.Hash? {
      return Err(WrongType);
    }
    GoodHash(was.val);
    ghost var w := s.pool.World();
    var v, n, empty := DelIn(was.val, fs);
    if !empty {
      StillGoodHash(v.fields);
    }
    StoreOrDrop(s, idx, was.(val := v), empty, now);
    RespectsOn(w0, w, s.pool.World());
    LiveAgain(Seen(s, now), RedisShard.Abs(s.m), now);
    r := Int(n);
  }

  lemma StillGoodHash(m: map<Bytes, Bytes>)
    requires m != map[]
    ensures Good(Hash(m, FieldsCost(m)))
  {}

  // ----- active expiry -----

  /** Slot j of a round that starts at `from`. */
  function RoundFrom(from: nat, j: nat, n: nat): nat {
    var start := if from < n then from else 0;
    if start + j < n then start + j else if start + j < 2 * n then start + j - n else 0
  }

  /** The expired item that slot k of the old table held is no longer in the map. */
  ghost predicate Swept(slots: seq<Slot>, m: map<Bytes, Item>, now: int, k: nat) {
    k < |slots| && slots[k].Full? && Expired(slots[k].it, now) ==> slots[k].it.key !in m
  }

  /** Removes expired items from up to `budget` slots from `from` on: none is left there, and clients see no difference,
      now or later. */
  method Sweep(s: Shard, from: nat, budget: nat, now: int) returns (cur: nat)
    requires Healthy(s)
    modifies s, s.pool, s.pool.arena.os
    ensures Healthy(s) && Respects(old(s.pool.World()), s.pool.World())
    ensures forall t :: now <= t ==> Seen(s, t) == old(Seen(s, t))
    ensures forall j :: 0 <= j < budget && j < |old(s.slots)| ==>
      Swept(old(s.slots), s.m, now, RoundFrom(from, j, |old(s.slots)|))
  {
    hide Shard.Sound, House, Pool.Valid, Live, Good, RedisShard.Abs, Respects;
    cur := from;
    ghost var was := s.slots;
    RespectsSelf(s.pool.World());
    for i := 0 to budget
      invariant Healthy(s) && Respects(old(s.pool.World()), s.pool.World())
      invariant forall t :: now <= t ==> Seen(s, t) == old(Seen(s, t))
      invariant |s.slots| == |was|
      invariant forall j :: 0 <= j < i && j < |was| ==> Swept(was, s.m, now, RoundFrom(from, j, |was|))
      invariant i <= |was| ==> Unswept(was, s.slots, from, i)
      invariant i < |was| ==> RoundFrom(from, i, |was|) == if cur < |was| then cur else 0
    {
      SomeSlots(s);
      if cur >= |s.slots| {
        cur := 0;
      }
      ghost var before, m := s.slots, s.m;
      SweepSlot(s, cur, now, old(s.pool.World()));
      SweptMore(was, before, s.slots, m, s.m, from, i, cur, now);
      cur := cur + 1;
    }
    if s.count * 8 < |s.slots| && |s.slots| > 64 {
      s.Shrink();
      cur := 0;
    }
  }

  /** The slots not reached yet are as they were. */
  ghost predicate Unswept(was: seq<Slot>, slots: seq<Slot>, from: nat, i: nat) {
    |slots| == |was| && forall j :: i <= j < |was| ==> slots[RoundFrom(from, j, |was|)] == was[RoundFrom(from, j, |was|)]
  }

  lemma SweptMore(was: seq<Slot>, slots: seq<Slot>, slots': seq<Slot>, m: map<Bytes, Item>, m': map<Bytes, Item>, from: nat, i: nat,
                  cur: nat, now: int)
    requires |was| == |slots| == |slots'| && cur < |was| && m'.Keys <= m.Keys
    requires forall j :: 0 <= j < i && j < |was| ==> Swept(was, m, now, RoundFrom(from, j, |was|))
    requires i <= |was| ==> Unswept(was, slots, from, i)
    requires i < |was| ==> RoundFrom(from, i, |was|) == cur
    requires Swept(slots, m', now, cur) && forall k :: 0 <= k < |slots| && k != cur ==> slots'[k] == slots[k]
    ensures forall j :: 0 <= j < i + 1 && j < |was| ==> Swept(was, m', now, RoundFrom(from, j, |was|))
    ensures i + 1 <= |was| ==> Unswept(was, slots', from, i + 1)
    ensures i + 1 < |was| ==> RoundFrom(from, i + 1, |was|) == if cur + 1 < |was| then cur + 1 else 0
  {
    forall j | i + 1 <= j < |was|
      ensures RoundFrom(from, j, |was|) != cur
    {
      RoundApart(from, i, j, |was|);
    }
  }

  lemma RoundApart(from: nat, i: nat, j: nat, n: nat)
    requires i < j < n
    ensures RoundFrom(from, i, n) != RoundFrom(from, j, n) && RoundFrom(from, j, n) < n
  {}

  /** Looks at one slot. */
  method SweepSlot(s: Shard, cur: nat, now: int, ghost w0: World)
    requires Healthy(s) && cur < |s.slots| && Respects(w0, s.pool.World())
    modifies s, s.pool, s.pool.arena.os
    ensures Healthy(s) && Respects(w0, s.pool.World()) && forall t :: now <= t ==> Seen(s, t) == old(Seen(s, t))
    ensures |s.slots| == |old(s.slots)| && forall k :: 0 <= k < |s.slots| && k != cur ==> s.slots[k] == old(s.slots)[k]
    ensures s.m.Keys <= old(s.m).Keys && Swept(old(s.slots), s.m, now, cur)
  {
    hide Shard.Sound, House, Pool.Valid, Live, Good, RedisShard.Abs, Respects;
    if s.slots[cur].Full? && Expired(s.slots[cur].it, now) {
      SweepOne(s, cur, now, w0);
    }
  }

  lemma SomeSlots(s: Shard)
    requires s.Sound()
    ensures |s.slots| > 0
  {}

  method SweepOne(s: Shard, cur: nat, now: int, ghost w0: World)
    requires Healthy(s) && cur < |s.slots| && s.slots[cur].Full? && Expired(s.slots[cur].it, now)
    requires Respects(w0, s.pool.World())
    modifies s, s.pool, s.pool.arena.os
    ensures Healthy(s) && Respects(w0, s.pool.World()) && forall t :: now <= t ==> Seen(s, t) == old(Seen(s, t))
    ensures |s.slots| == |old(s.slots)| && s.slots == old(s.slots)[cur := s.slots[cur]] && s.m == old(s.m) - {old(s.slots[cur].it.key)}
  {
    hide Counted, Loaded, House, Pool.Valid, Live, RedisShard.Abs, Respects;
    ghost var m, w, it := s.m, s.pool.World(), s.slots[cur].it;
    TagTold(s.hash, s.slots, m, cur);
    s.Del(cur);
    RespectsOn(w0, w, s.pool.World());
    forall t | now <= t
      ensures Live(RedisShard.Abs(s.m), t) == Live(RedisShard.Abs(m), t)
    {
      GoneUnseen(m, it.key, t);
    }
    Dropped(m, it.key, now);
  }

  lemma GoneUnseen(m: map<Bytes, Item>, key: Bytes, t: int)
    requires key in m && Expired(m[key], t)
    ensures Live(RedisShard.Abs(m - {key}), t) == Live(RedisShard.Abs(m), t)
  {}
}
