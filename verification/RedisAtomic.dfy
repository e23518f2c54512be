/** MSET, MGET, DEL, EXISTS and FLUSHALL among other clients: each is one step, and that step is what the store's method does. */
module RedisAtomic {
  import opened RedisSlots
  import opened RedisShard
  import opened RedisCommands
  import opened RedisStore
  import opened RedisLocks

  // ----- the commands as lists of operations on single shards -----

  function ReadOp(shardOf: Bytes -> nat, k: Bytes): Op<Db, Maybe> {
    Op(shardOf(k), (m: Db) => (m, Pick(m, k)))
  }

  function WriteOp(shardOf: Bytes -> nat, p: Put): Op<Db, Maybe> {
    Op(shardOf(p.key), (m: Db) => (m[p.key := Entry(Str(p.val), 0)], None))
  }

  function DelOp(shardOf: Bytes -> nat, k: Bytes): Op<Db, Maybe> {
    Op(shardOf(k), (m: Db) => (m - {k}, Pick(m, k)))
  }

  function ClearOp(i: nat): Op<Db, Maybe> {
    Op(i, (m: Db) => (map[], None))
  }

  /** MGET and EXISTS read their keys one after the other. */
  function Reads(shardOf: Bytes -> nat, keys: seq<Bytes>): seq<Op<Db, Maybe>> {
    seq(|keys|, i requires 0 <= i < |keys| => ReadOp(shardOf, keys[i]))
  }

  function Writes(shardOf: Bytes -> nat, ps: seq<Put>): seq<Op<Db, Maybe>> {
    seq(|ps|, i requires 0 <= i < |ps| => WriteOp(shardOf, ps[i]))
  }

  function Deletes(shardOf: Bytes -> nat, keys: seq<Bytes>): seq<Op<Db, Maybe>> {
    seq(|keys|, i requires 0 <= i < |keys| => DelOp(shardOf, keys[i]))
  }

  function Clears(shards: nat): seq<Op<Db, Maybe>> {
    seq(shards, i requires 0 <= i => ClearOp(i))
  }

  ghost predicate Sharded(shardOf: Bytes -> nat, shards: nat) {
    forall k :: shardOf(k) < shards
  }

  /** What is stored under a key. */
  function At(db: seq<Db>, shardOf: Bytes -> nat, k: Bytes): Maybe {
    if shardOf(k) < |db| then Pick(db[shardOf(k)], k) else None
  }

  function ShardsOf(shardOf: Bytes -> nat, keys: seq<Bytes>): seq<nat> {
    seq(|keys|, i requires 0 <= i < |keys| => shardOf(keys[i]))
  }

  function PutKeys(ps: seq<Put>): seq<Bytes> {
    seq(|ps|, i requires 0 <= i < |ps| => ps[i].key)
  }

  /** The locks taken for a command's keys are those its operations need. */
  lemma LocksSuffice(shardOf: Bytes -> nat, keys: seq<Bytes>, ps: seq<Put>, locks: seq<nat>, shards: nat)
    requires Sharded(shardOf, shards) && Ascending(locks) && forall x :: x in locks <==> x in ShardsOf(shardOf, keys)
    ensures WellFormed(Cmd(locks, Reads(shardOf, keys)), shards) && WellFormed(Cmd(locks, Deletes(shardOf, keys)), shards)
    ensures keys == PutKeys(ps) ==> WellFormed(Cmd(locks, Writes(shardOf, ps)), shards)
  {
    forall j | 0 <= j < |locks|
      ensures locks[j] < shards
    {
      assert locks[j] in ShardsOf(shardOf, keys);
    }
    forall i | 0 <= i < |keys|
      ensures shardOf(keys[i]) in locks
    {
      assert ShardsOf(shardOf, keys)[i] in locks;
    }
    if keys == PutKeys(ps) {
      forall i | 0 <= i < |ps|
        ensures Writes(shardOf, ps)[i].shard in locks
      {
        assert PutKeys(ps)[i] == keys[i];
      }
    }
  }

  /** FLUSHALL takes every lock. */
  lemma AllLocksSuffice(shards: nat)
    ensures WellFormed(Cmd(seq(shards, i requires 0 <= i => i), Clears(shards)), shards)
  {
    var locks := seq(shards, i requires 0 <= i => i);
    forall k | 0 <= k < shards
      ensures k in locks
    {
      assert locks[k] == k;
    }
  }

  // ----- what they do when they run alone -----

  /** MGET reads every key from one and the same state. */
  lemma {:induction false} MgetReads(shardOf: Bytes -> nat, keys: seq<Bytes>, db: seq<Db>)
    requires Sharded(shardOf, |db|)
    ensures Fits(Reads(shardOf, keys), |db|) && Run(Reads(shardOf, keys), db).db == db
    ensures forall i :: 0 <= i < |keys| ==> Run(Reads(shardOf, keys), db).replies[i] == At(db, shardOf, keys[i])
    decreases |keys|
  {
    if keys != [] {
      var n := |keys| - 1;
      var ops, op := Reads(shardOf, keys[..n]), ReadOp(shardOf, keys[n]);
      assert Reads(shardOf, keys) == ops + [op];
      MgetReads(shardOf, keys[..n], db);
      RunLast(ops, op, db);
      assert db[op.shard := db[op.shard]] == db;
    }
  }

  /** MSET writes all of its keys and no others. */
  lemma {:induction false} MsetWrites(shardOf: Bytes -> nat, ps: seq<Put>, db: seq<Db>, k: Bytes)
    requires Sharded(shardOf, |db|)
    ensures Fits(Writes(shardOf, ps), |db|)
    ensures At(Run(Writes(shardOf, ps), db).db, shardOf, k) == PutAll(At(db, shardOf, k), ps, k)
    decreases |ps|
  {
    if ps != [] {
      var n := |ps| - 1;
      var ops, op := Writes(shardOf, ps[..n]), WriteOp(shardOf, ps[n]);
      assert Writes(shardOf, ps) == ops + [op];
      MsetWrites(shardOf, ps[..n], db, k);
      RunLast(ops, op, db);
    }
  }

  /** How many replies say that something was there. */
  function CountSome(rs: seq<Maybe>): nat {
    if rs == [] then 0 else CountSome(rs[..|rs| - 1]) + (if rs[|rs| - 1].Some? then 1 else 0)
  }

  /** DEL removes all of its keys and no others. */
  lemma {:induction false} DelRemoves(shardOf: Bytes -> nat, keys: seq<Bytes>, db: seq<Db>, k: Bytes)
    requires Sharded(shardOf, |db|)
    ensures Fits(Deletes(shardOf, keys), |db|)
    ensures At(Run(Deletes(shardOf, keys), db).db, shardOf, k) == if k in keys then None else At(db, shardOf, k)
    decreases |keys|
  {
    if keys != [] {
      var n := |keys| - 1;
      var ops, op := Deletes(shardOf, keys[..n]), DelOp(shardOf, keys[n]);
      assert Deletes(shardOf, keys) == ops + [op] && keys == keys[..n] + [keys[n]];
      DelRemoves(shardOf, keys[..n], db, k);
      RunLast(ops, op, db);
    }
  }

  /** DEL counts each key that was there once, however often it is given. */
  lemma {:induction false} DelCounts(shardOf: Bytes -> nat, keys: seq<Bytes>, db: seq<Db>)
    requires Sharded(shardOf, |db|) && Fits(Deletes(shardOf, keys), |db|)
    ensures CountSome(Run(Deletes(shardOf, keys), db).replies) == |set k | k in keys && At(db, shardOf, k).Some?|
    decreases |keys|
  {
    if keys != [] {
      var n := |keys| - 1;
      var ops, op := Deletes(shardOf, keys[..n]), DelOp(shardOf, keys[n]);
      assert Deletes(shardOf, keys) == ops + [op] && keys == keys[..n] + [keys[n]];
      RunLast(ops, op, db);
      DelCounts(shardOf, keys[..n], db);
      DelRemoves(shardOf, keys[..n], db, keys[n]);
      OneKeyMore(shardOf, keys, db);
    }
  }

  lemma OneKeyMore(shardOf: Bytes -> nat, keys: seq<Bytes>, db: seq<Db>)
    requires keys != []
    ensures var n := |keys| - 1;
      |set k | k in keys && At(db, shardOf, k).Some?| ==
      |set k | k in keys[..n] && At(db, shardOf, k).Some?| + if keys[n] !in keys[..n] && At(db, shardOf, keys[n]).Some? then 1 else 0
  {
    var n := |keys| - 1;
    assert keys == keys[..n] + [keys[n]];
    var was, all := set k | k in keys[..n] && At(db, shardOf, k).Some?, set k | k in keys && At(db, shardOf, k).Some?;
    if keys[n] !in keys[..n] && At(db, shardOf, keys[n]).Some? {
      assert all == was + {keys[n]};
    } else {
      assert all == was;
    }
  }

  /** EXISTS counts a key as often as it is given. */
  lemma ExistsCounts(shardOf: Bytes -> nat, keys: seq<Bytes>, db: seq<Db>)
    requires Sharded(shardOf, |db|)
    ensures Fits(Reads(shardOf, keys), |db|)
    ensures CountSome(Run(Reads(shardOf, keys), db).replies) == |set i | 0 <= i < |keys| && At(db, shardOf, keys[i]).Some?|
  {
    MgetReads(shardOf, keys, db);
    var rs := Run(Reads(shardOf, keys), db).replies;
    SomePlaces(rs);
    assert (set i | 0 <= i < |keys| && At(db, shardOf, keys[i]).Some?) == set i | 0 <= i < |rs| && rs[i].Some?;
  }

  lemma {:induction false} SomePlaces(rs: seq<Maybe>)
    ensures CountSome(rs) == |set i | 0 <= i < |rs| && rs[i].Some?|
  {
    if rs != [] {
      var n := |rs| - 1;
      SomePlaces(rs[..n]);
      var was, all := set i | 0 <= i < n && rs[..n][i].Some?, set i | 0 <= i < |rs| && rs[i].Some?;
      assert all == if rs[n].Some? then was + {n} else was;
    }
  }

  /** FLUSHALL leaves nothing in any shard. */
  lemma {:induction false} FlushEmpties(n: nat, db: seq<Db>)
    requires n <= |db|
    ensures Fits(Clears(n), |db|) && forall i :: 0 <= i < |db| ==> Run(Clears(n), db).db[i] == if i < n then map[] else db[i]
  {
    if n > 0 {
      assert Clears(n) == Clears(n - 1) + [ClearOp(n - 1)];
      FlushEmpties(n - 1, db);
      RunLast(Clears(n - 1), ClearOp(n - 1), db);
    }
  }

  // ----- the store's methods do the same -----

  /** The shards' contents as clients see them. */
  ghost predicate Matches(st: Store, now: int, db: seq<Db>)
    requires st.Built()
    reads st.Repr()
  {
    |db| == SHARDS && forall k :: At(db, Home(st), k) == st.Sees(k, now)
  }

  function Home(st: Store): (f: Bytes -> nat)
    ensures forall k :: f(k) == st.Index(k)
  {
    (k: Bytes) => st.Index(k)
  }

  method MsetAlone(st: Store, ps: seq<Put>, now: int, ghost db: seq<Db>) returns (ok: bool)
    requires st.Valid() && Matches(st, now, db) && forall i :: 0 <= i < |ps| ==> |ps[i].val| < WORD
    modifies st.Repr()
    ensures st.Valid() && (ok <==> st.limit <= 0 || PutCost(ps) <= st.limit)
    ensures Fits(Writes(Home(st), ps), SHARDS) && Matches(st, now, if ok then Run(Writes(Home(st), ps), db).db else db)
  {
    hide Store.Sound, Store.Sees, PutAll, PutCost, Run;
    ok := st.Mset(ps, now);
    forall k
      ensures Fits(Writes(Home(st), ps), SHARDS)
      ensures At(Run(Writes(Home(st), ps), db).db, Home(st), k) == PutAll(At(db, Home(st), k), ps, k)
    {
      MsetWrites(Home(st), ps, db, k);
    }
  }

  method MgetAlone(st: Store, keys: seq<Bytes>, now: int, ghost db: seq<Db>) returns (rs: seq<Reply>)
    requires st.Valid() && Matches(st, now, db)
    modifies st.Repr()
    ensures st.Valid() && Fits(Reads(Home(st), keys), SHARDS) && Matches(st, now, Run(Reads(Home(st), keys), db).db)
    ensures |rs| == |keys| && forall i :: 0 <= i < |keys| ==> rs[i] == Shown(Run(Reads(Home(st), keys), db).replies[i])
  {
    hide Store.Sound, Store.Sees, Run;
    rs := st.Mget(keys, now);
    MgetReads(Home(st), keys, db);
  }

  method DelAlone(st: Store, keys: seq<Bytes>, now: int, ghost db: seq<Db>) returns (n: nat)
    requires st.Valid() && Matches(st, now, db)
    modifies st.Repr()
    ensures st.Valid() && Fits(Deletes(Home(st), keys), SHARDS) && Matches(st, now, Run(Deletes(Home(st), keys), db).db)
    ensures n == CountSome(Run(Deletes(Home(st), keys), db).replies)
  {
    hide Store.Sound, Store.Sees, Run, CountSome;
    ghost var there := set k | k in keys && st.Sees(k, now).Some?;
    n := st.Del(keys, now);
    forall k
      ensures Fits(Deletes(Home(st), keys), SHARDS)
      ensures At(Run(Deletes(Home(st), keys), db).db, Home(st), k) == if k in keys then None else At(db, Home(st), k)
    {
      DelRemoves(Home(st), keys, db, k);
    }
    DelCounts(Home(st), keys, db);
    assert there == set k | k in keys && At(db, Home(st), k).Some?;
  }

  method ExistsAlone(st: Store, keys: seq<Bytes>, now: int, ghost db: seq<Db>) returns (n: nat)
    requires st.Valid() && Matches(st, now, db)
    modifies st.Repr()
    ensures st.Valid() && Fits(Reads(Home(st), keys), SHARDS) && Matches(st, now, Run(Reads(Home(st), keys), db).db)
    ensures n == CountSome(Run(Reads(Home(st), keys), db).replies)
  {
    hide Store.Sound, Store.Sees, Run, CountSome;
    ghost var there := set i | 0 <= i < |keys| && st.Sees(keys[i], now).Some?;
    n := st.Exists(keys, now);
    MgetReads(Home(st), keys, db);
    ExistsCounts(Home(st), keys, db);
    assert there == set i | 0 <= i < |keys| && At(db, Home(st), keys[i]).Some?;
  }

  method FlushallAlone(st: Store, now: int, ghost db: seq<Db>)
    requires st.Valid() && Matches(st, now, db)
    modifies st.Repr()
    ensures st.Valid() && Fits(Clears(SHARDS), SHARDS) && Matches(st, now, Run(Clears(SHARDS), db).db)
  {
    hide Store.Sound, Store.Sees, Run;
    st.Flushall();
    FlushEmpties(SHARDS, db);
  }

  // ----- among other clients -----

  /** What is stored under a key after the first n commands of the history. */
  ghost function After(init: seq<Db>, log: seq<Logged<Db, Maybe>>, n: nat, shardOf: Bytes -> nat, k: Bytes): Maybe
    requires n <= |log| && LogFits(log, |init|)
  {
    At(Replay(init, log[..n]), shardOf, k)
  }

  /** In every run, the replies of a finished MGET are what is stored after the commands that came to hold their locks
      before it. */
  lemma MgetAtomic(ss: seq<State<Db, Maybe>>, c: nat, shardOf: Bytes -> nat, keys: seq<Bytes>) returns (n: nat)
    requires Trace(ss) && Sharded(shardOf, |ss[0].db|) && c < |ss[|ss| - 1].clients|
    requires ss[|ss| - 1].clients[c].phase.Releasing? && ss[|ss| - 1].clients[c].cmd.ops == Reads(shardOf, keys)
    ensures var s, init := ss[|ss| - 1], ss[0].db;
      && n == s.clients[c].at <= |s.log| && LogFits(s.log, |init|) && |s.clients[c].replies| == |keys|
      && forall i :: 0 <= i < |keys| ==> s.clients[c].replies[i] == After(init, s.log, n, shardOf, keys[i])
  {
    var s, init := ss[|ss| - 1], ss[0].db;
    EveryRunAtomic(ss);
    hide Atomic, Replay, Run, LogFits;
    n := s.clients[c].at;
    LogOf(s, init);
    RepliesAtomic(s, init, c);
    MgetReads(shardOf, keys, Replay(init, s.log[..n]));
  }

  lemma LogOf(s: State<Db, Maybe>, init: seq<Db>)
    requires Atomic(s, init)
    ensures LogFits(s.log, |init|) && LogPrefixFits(s.log, |init|)
  {}

  ghost predicate LogPrefixFits(log: seq<Logged<Db, Maybe>>, shards: nat) {
    forall n :: 0 <= n <= |log| ==> LogFits(log[..n], shards)
  }

  /** Each MSET in the history is wholly in or wholly out: between the states before and after it all its keys change. */
  lemma MsetWhole(init: seq<Db>, log: seq<Logged<Db, Maybe>>, j: nat, shardOf: Bytes -> nat, ps: seq<Put>, k: Bytes)
    requires LogFits(log, |init|) && Sharded(shardOf, |init|) && j < |log| && log[j].ops == Writes(shardOf, ps)
    ensures After(init, log, j + 1, shardOf, k) == PutAll(After(init, log, j, shardOf, k), ps, k)
  {
    hide Run;
    assert log[..j + 1][..j] == log[..j];
    MsetWrites(shardOf, ps, Replay(init, log[..j]), k);
  }

  /** A command of the history that only reads changes nothing. */
  lemma MgetKeeps(init: seq<Db>, log: seq<Logged<Db, Maybe>>, j: nat, shardOf: Bytes -> nat, keys: seq<Bytes>, k: Bytes)
    requires LogFits(log, |init|) && Sharded(shardOf, |init|) && j < |log| && log[j].ops == Reads(shardOf, keys)
    ensures After(init, log, j + 1, shardOf, k) == After(init, log, j, shardOf, k)
  {
    hide Run;
    assert log[..j + 1][..j] == log[..j];
    MgetReads(shardOf, keys, Replay(init, log[..j]));
  }

  /** A client that only ever sets two keys together, to the same string, or reads. */
  ghost predicate Together(ops: seq<Op<Db, Maybe>>, shardOf: Bytes -> nat, a: Bytes, b: Bytes) {
    || (exists x :: ops == Writes(shardOf, [Put(a, x), Put(b, x)]))
    || (exists keys :: ops == Reads(shardOf, keys))
  }

  ghost predicate AllTogether(log: seq<Logged<Db, Maybe>>, shardOf: Bytes -> nat, a: Bytes, b: Bytes) {
    forall j :: 0 <= j < |log| ==> Together(log[j].ops, shardOf, a, b)
  }

  lemma {:induction false} EqualAfter(init: seq<Db>, log: seq<Logged<Db, Maybe>>, n: nat, shardOf: Bytes -> nat, a: Bytes, b: Bytes)
    requires LogFits(log, |init|) && Sharded(shardOf, |init|) && n <= |log|
    requires At(init, shardOf, a) == At(init, shardOf, b)
    requires AllTogether(log, shardOf, a, b)
    ensures After(init, log, n, shardOf, a) == After(init, log, n, shardOf, b)
  {
    if n > 0 {
      EqualAfter(init, log, n - 1, shardOf, a, b);
      var ops := log[n - 1].ops;
      assert Together(ops, shardOf, a, b);
      if x :| ops == Writes(shardOf, [Put(a, x), Put(b, x)]) {
        MsetWhole(init, log, n - 1, shardOf, [Put(a, x), Put(b, x)], a);
        MsetWhole(init, log, n - 1, shardOf, [Put(a, x), Put(b, x)], b);
        BothPut(After(init, log, n - 1, shardOf, a), a, b, x);
      } else {
        var keys :| ops == Reads(shardOf, keys);
        MgetKeeps(init, log, n - 1, shardOf, keys, a);
        MgetKeeps(init, log, n - 1, shardOf, keys, b);
      }
    }
  }

  lemma BothPut(was: Maybe, a: Bytes, b: Bytes, x: Bytes)
    ensures PutAll(was, [Put(a, x), Put(b, x)], a) == PutAll(was, [Put(a, x), Put(b, x)], b) == Some(Entry(Str(x), 0))
  {
    assert [Put(a, x), Put(b, x)][..1] == [Put(a, x)];
  }

  /** So MGET never sees part of an MSET: two keys that are always set together are read equal, in every run, whatever
      shards they are in. */
  lemma NeverHalf(ss: seq<State<Db, Maybe>>, c: nat, shardOf: Bytes -> nat, a: Bytes, b: Bytes)
    requires Trace(ss) && Sharded(shardOf, |ss[0].db|) && c < |ss[|ss| - 1].clients|
    requires ss[|ss| - 1].clients[c].phase.Releasing? && ss[|ss| - 1].clients[c].cmd.ops == Reads(shardOf, [a, b])
    requires At(ss[0].db, shardOf, a) == At(ss[0].db, shardOf, b)
    requires AllTogether(ss[|ss| - 1].log, shardOf, a, b)
    ensures var rs := ss[|ss| - 1].clients[c].replies; |rs| == 2 && rs[0] == rs[1]
  {
    hide AllTogether, LogFits, After;
    var n := MgetAtomic(ss, c, shardOf, [a, b]);
    EqualAfter(ss[0].db, ss[|ss| - 1].log, n, shardOf, a, b);
  }

  /** And it sees every command that was logged before it began. */
  lemma SeesEarlier(ss: seq<State<Db, Maybe>>, i: nat, c: nat, j: nat)
    requires Trace(ss) && i < |ss| && c < |ss[i].clients| && !Answering(ss[i].clients[c]) && j < |ss[i].log|
    ensures |ss[|ss| - 1].clients| == |ss[i].clients| && j < |ss[|ss| - 1].log| && ss[|ss| - 1].log[j] == ss[i].log[j]
    ensures Answering(ss[|ss| - 1].clients[c]) ==> j < ss[|ss| - 1].clients[c].at
  {
    hide Trace;
    InOrderOfTime(ss, i, c);
    LogGrows(ss, i);
  }
}
