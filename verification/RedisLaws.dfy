/** What each command does, said of what clients see under its key before and after, and of the reply. */
module RedisLaws {
  import opened RedisSlots
  import opened RedisShard
  import opened RedisObjects
  import opened RedisNumbers
  import opened RedisCommands
  import opened RedisStore

  /** A database with at most one key. */
  function Alone(key: Bytes, e: Maybe): Db {
    if e.Some? then map[key := e.e] else map[]
  }

  /** What is seen has not expired. */
  ghost predicate Alive(e: Maybe, now: int) {
    e.Some? ==> e.e.exp == 0 || now < e.e.exp
  }

  ghost predicate HasString(e: Maybe) {
    e.Some? && e.e.val.Str?
  }

  function ExpiryOf(e: Maybe): int {
    if e.Some? then e.e.exp else 0
  }

  // ----- numbers -----

  /** INCRBY: the sum is replied and stored in decimal, the expiry stays, a missing key counts as 0; every error leaves what
      there was. */
  ghost predicate Incremented(was: Maybe, r: Reply, got: Maybe, delta: int) {
    && (was.Some? && !was.e.val.Str? ==> r == Err(WrongType) && got == was)
    && (HasString(was) && (forall v :: !Represents(was.e.val.bytes, v)) ==> r == Err(NotInt) && got == was)
    && (forall v :: (was.None? && v == 0) || (HasString(was) && Represents(was.e.val.bytes, v)) ==>
         if -0x8000_0000_0000_0000 <= v + delta < 0x8000_0000_0000_0000 then
           r == Int(v + delta) && HasString(got) && Represents(got.e.val.bytes, v + delta) && got.e.exp == ExpiryOf(was)
         else r == Err(Overflow) && got == was)
  }

  lemma IncrMeans(was: Maybe, key: Bytes, delta: int, now: int)
    requires Alive(was, now)
    ensures var o := DoIncr(Alone(key, was), key, delta); Incremented(was, o.reply, Pick(RedisCommands.Live(o.db, now), key), delta)
  {
    hide Format, Represents, RedisCommands.Live, IsInt;
    var db := Alone(key, was);
    AloneSeen(key, was, now);
    if was.None? || HasString(was) {
      var b := if was.Some? then was.e.val.bytes else [];
      if was.Some? {
        OnlyOne(b);
      }
      if was.None? || IsInt(b) {
        var n := (if was.None? then 0 else IntOf(b)) + delta;
        StoredSeen(db, key, Entry(Str(Format(n)), ExpiryOf(was)), now);
        Written(n);
        forall v | (was.None? && v == 0) || (HasString(was) && Represents(was.e.val.bytes, v))
          ensures v + delta == n
        {}
        var o := DoIncr(db, key, delta);
        var got := Pick(RedisCommands.Live(o.db, now), key);
        assert MIN_INT64 <= n <= MAX_INT64 ==> o.reply == Int(n) && got == Some(Entry(Str(Format(n)), ExpiryOf(was)));
        assert MIN_INT64 <= n <= MAX_INT64 ==> HasString(got) && Represents(got.e.val.bytes, n);
        assert !(MIN_INT64 <= n <= MAX_INT64) ==> o.reply == Err(Overflow) && got == was;
        assert HasString(was) ==> Represents(was.e.val.bytes, n - delta);
      }
    }
  }

  lemma AloneSeen(key: Bytes, e: Maybe, now: int)
    requires Alive(e, now)
    ensures Pick(RedisCommands.Live(Alone(key, e), now), key) == e && Pick(Alone(key, e), key) == e
  {}

  lemma StoredSeen(db: Db, key: Bytes, e: Entry, now: int)
    ensures Pick(RedisCommands.Live(db[key := e], now), key) == if e.exp == 0 || now < e.exp then Some(e) else None
    ensures Pick(RedisCommands.Live(db - {key}, now), key) == None
  {}

  lemma OnlyOne(b: Bytes)
    ensures (forall v :: !Represents(b, v)) <==> !IsInt(b)
    ensures IsInt(b) ==> Represents(b, IntOf(b)) && forall v :: Represents(b, v) <==> v == IntOf(b)
  {
    hide Represents;
    forall v | Represents(b, v)
      ensures IsInt(b) && IntOf(b) == v
    {
      IntOfUnique(b, v);
    }
  }

  lemma Written(v: int)
    ensures MIN_INT64 <= v <= MAX_INT64 ==> Represents(Format(v), v)
  {}

  // ----- strings -----

  /** SET with its options. */
  ghost predicate SetDone(was: Maybe, r: Reply, got: Maybe, key: Bytes, val: Bytes, o: SetOptions, limit: int, now: int) {
    if limit > 0 && 64 + |key| + |val| > limit then r == Err(OutOfMemory) && got == was
    else if o.get && was.Some? && !was.e.val.Str? then r == Err(WrongType) && got == was
    else if (o.nx && was.Some?) || (o.xx && was.None?) then
      got == was && r == if o.get && was.Some? then Bulk(was.e.val.bytes) else Nil
    else
      var exp := if o.keep && was.Some? then was.e.exp else o.exp;
      && got == (if exp == 0 || now < exp then Some(Entry(Str(val), exp)) else None)
      && r == if !o.get then Ok else if was.Some? then Bulk(was.e.val.bytes) else Nil
  }

  lemma SetMeans(was: Maybe, key: Bytes, val: Bytes, opt: SetOptions, limit: int, now: int)
    requires Alive(was, now)
    ensures var o := DoSet(Alone(key, was), key, val, opt, limit);
      SetDone(was, o.reply, Pick(RedisCommands.Live(o.db, now), key), key, val, opt, limit, now)
  {}

  /** APPEND: the string grows at its end, and its new length is the reply. */
  ghost predicate AppendDone(was: Maybe, r: Reply, got: Maybe, key: Bytes, v: Bytes, limit: int) {
    if was.Some? && !was.e.val.Str? then r == Err(WrongType) && got == was
    else
      var b := if was.Some? then was.e.val.bytes else [];
      if limit > 0 && 64 + |key| + |b| + |v| > limit then r == Err(OutOfMemory) && got == was
      else r == Int(|b| + |v|) && got == Some(Entry(Str(b + v), ExpiryOf(was)))
  }

  lemma AppendMeans(was: Maybe, key: Bytes, v: Bytes, limit: int, now: int)
    requires Alive(was, now)
    ensures var o := DoAppend(Alone(key, was), key, v, limit);
      AppendDone(was, o.reply, Pick(RedisCommands.Live(o.db, now), key), key, v, limit)
  {}

  // ----- expiry -----

  /** EXPIRE: gone at once if the time is not in the future, else gone from that time on. */
  ghost predicate ExpireDone(was: Maybe, r: Reply, got: Maybe, when: int, now: int) {
    if was.None? then r == Int(0) && got == None
    else r == Int(1) && got == if now < when then Some(Entry(was.e.val, when)) else None
  }

  lemma ExpireMeans(was: Maybe, key: Bytes, when: int, now: int)
    requires Alive(was, now)
    ensures var o := DoExpire(Alone(key, was), key, when, now);
      ExpireDone(was, o.reply, Pick(RedisCommands.Live(o.db, now), key), when, now)
  {}

  /** PERSIST: the expiry is gone. */
  ghost predicate PersistDone(was: Maybe, r: Reply, got: Maybe) {
    if was.Some? && was.e.exp != 0 then r == Int(1) && got == Some(Entry(was.e.val, 0)) else r == Int(0) && got == was
  }

  lemma PersistMeans(was: Maybe, key: Bytes, now: int)
    requires Alive(was, now)
    ensures var o := DoPersist(Alone(key, was), key); PersistDone(was, o.reply, Pick(RedisCommands.Live(o.db, now), key))
  {}

  // ----- lists -----

  /** What a list costs: 16 for each element, and its bytes. */
  function BytesIn(xs: seq<Bytes>): nat {
    if xs == [] then 0 else |xs[0]| + BytesIn(xs[1..])
  }

  lemma {:induction false} ListCostMeans(xs: seq<Bytes>)
    ensures ListCost(xs) == 16 * |xs| + BytesIn(xs)
    decreases |xs|
  {
    if xs != [] {
      ListCostMeans(xs[1..]);
      ListCostConcat([xs[0]], xs[1..]);
      assert xs == [xs[0]] + xs[1..] && [xs[0]][..0] == [];
      assert ListCost([xs[0]]) == 16 + |xs[0]|;
    }
  }

  ghost predicate HoldsList(e: Maybe, xs: seq<Bytes>, exp: int) {
    if xs == [] then e == None else e == Some(Entry(List(xs, 16 * |xs| + BytesIn(xs)), exp))
  }

  /** The list after pushing: at the front the last value pushed is first. */
  ghost predicate Pushed(xs: seq<Bytes>, vs: seq<Bytes>, front: bool, ys: seq<Bytes>) {
    && |ys| == |xs| + |vs|
    && (front ==> forall i :: 0 <= i < |vs| ==> ys[i] == vs[|vs| - 1 - i])
    && (front ==> forall i :: 0 <= i < |xs| ==> ys[|vs| + i] == xs[i])
    && (!front ==> forall i :: 0 <= i < |xs| ==> ys[i] == xs[i])
    && (!front ==> forall i :: 0 <= i < |vs| ==> ys[|xs| + i] == vs[i])
  }

  function ListIn(e: Maybe): seq<Bytes> {
    if e.Some? && e.e.val.List? then e.e.val.elems else []
  }

  ghost predicate PushDone(was: Maybe, r: Reply, got: Maybe, key: Bytes, vs: seq<Bytes>, front: bool, limit: int) {
    if was.Some? && !was.e.val.List? then r == Err(WrongType) && got == was
    else
      exists ys :: Pushed(ListIn(was), vs, front, ys) &&
        if limit > 0 && 64 + |key| + 16 * |ys| + BytesIn(ys) > limit then r == Err(OutOfMemory) && got == was
        else r == Int(|ys|) && HoldsList(got, ys, ExpiryOf(was))
  }

  lemma PushMeans(was: Maybe, key: Bytes, vs: seq<Bytes>, front: bool, limit: int, now: int)
    requires Alive(was, now) && vs != []
    ensures var o := DoPush(Alone(key, was), key, vs, front, limit);
      PushDone(was, o.reply, Pick(RedisCommands.Live(o.db, now), key), key, vs, front, limit)
  {
    hide ListCost, BytesIn, RedisCommands.Live, Reversed, Pushed;
    AloneSeen(key, was, now);
    if !(was.Some? && !was.e.val.List?) {
      var xs := ListIn(was);
      var ys := if front then Reversed(vs) + xs else xs + vs;
      ListCostMeans(ys);
      PushedIs(xs, vs, front);
      StoredSeen(Alone(key, was), key, Entry(List(ys, ListCost(ys)), ExpiryOf(was)), now);
    }
  }

  lemma PushedIs(xs: seq<Bytes>, vs: seq<Bytes>, front: bool)
    ensures Pushed(xs, vs, front, if front then Reversed(vs) + xs else xs + vs)
    ensures vs != [] ==> (if front then Reversed(vs) + xs else xs + vs) != []
  {}

  /** What is popped, and what remains. */
  ghost predicate Popped(xs: seq<Bytes>, n: nat, front: bool, out: seq<Bytes>, rest: seq<Bytes>) {
    && n <= |xs| && |out| == n && |rest| == |xs| - n
    && (front ==> forall i :: 0 <= i < n ==> out[i] == xs[i])
    && (front ==> forall i :: 0 <= i < |rest| ==> rest[i] == xs[n + i])
    && (!front ==> forall i :: 0 <= i < n ==> out[i] == xs[|xs| - 1 - i])
    && (!front ==> forall i :: 0 <= i < |rest| ==> rest[i] == xs[i])
  }

  /** LPOP and RPOP; `count` is negative for the form without a count. */
  ghost predicate PopDone(was: Maybe, r: Reply, got: Maybe, count: int, front: bool) {
    if was.None? then r == (if count < 0 then Nil else NilArray) && got == None
    else if !was.e.val.List? then r == Err(WrongType) && got == was
    else
      exists out, rest ::
        Popped(ListIn(was), if count < 0 then 1 else if count < |ListIn(was)| then count else |ListIn(was)|, front, out, rest) &&
        HoldsList(got, rest, ExpiryOf(was)) && r == if count < 0 then Bulk(out[0]) else Bulks(out)
  }

  lemma PopMeans(was: Maybe, key: Bytes, count: int, front: bool, now: int)
    requires Alive(was, now) && (was.Some? && was.e.val.List? ==> was.e.val.elems != [])
    ensures var o := DoPop(Alone(key, was), key, count, front);
      PopDone(was, o.reply, Pick(RedisCommands.Live(o.db, now), key), count, front)
  {
    hide ListCost, BytesIn, RedisCommands.Live, Reversed, Popped, RedisCommands.Popped;
    AloneSeen(key, was, now);
    if was.Some? && was.e.val.List? {
      var xs := ListIn(was);
      var n := if count < 0 then 1 else Least(count, |xs|);
      var (out, rest) := RedisCommands.Popped(xs, n, front);
      ListCostMeans(rest);
      PoppedIs(xs, n, front);
      StoredSeen(Alone(key, was), key, Entry(List(rest, ListCost(rest)), ExpiryOf(was)), now);
      var o := DoPop(Alone(key, was), key, count, front);
      assert o.reply == if count < 0 then Bulk(out[0]) else Bulks(out);
      assert HoldsList(Pick(RedisCommands.Live(o.db, now), key), rest, ExpiryOf(was));
    }
  }

  lemma PoppedIs(xs: seq<Bytes>, n: nat, front: bool)
    requires n <= |xs|
    ensures var (out, rest) := RedisCommands.Popped(xs, n, front); |out| == n && Popped(xs, n, front, out, rest)
  {}

  /** Popping at the end where values were pushed gives back the one pushed last, and then there is what there would be
      without it. */
  lemma PushThenPop(was: Maybe, mid: Maybe, got: Maybe, key: Bytes, vs: seq<Bytes>, front: bool, limit: int, n: int, r: Reply)
    requires vs != [] && PushDone(was, Int(n), mid, key, vs, front, limit) && PopDone(mid, r, got, -1, front)
    ensures r == Bulk(vs[|vs| - 1])
    ensures exists ys :: Pushed(ListIn(was), vs[..|vs| - 1], front, ys) && HoldsList(got, ys, ExpiryOf(was))
  {
    hide Pushed, BytesIn;
    var ys :| Pushed(ListIn(was), vs, front, ys) && HoldsList(mid, ys, ExpiryOf(was));
    PushedSome(ListIn(was), vs, front, ys);
    assert HoldsList(mid, ys, ExpiryOf(was)) && ys != [];
    var out, rest :| Popped(ListIn(mid), 1, front, out, rest) && HoldsList(got, rest, ExpiryOf(mid)) && r == Bulk(out[0]);
    Undone(ListIn(was), vs, front, ys, out, rest);
  }

  lemma PushedSome(xs: seq<Bytes>, vs: seq<Bytes>, front: bool, ys: seq<Bytes>)
    requires Pushed(xs, vs, front, ys) && vs != []
    ensures ys != []
  {}

  lemma Undone(xs: seq<Bytes>, vs: seq<Bytes>, front: bool, ys: seq<Bytes>, out: seq<Bytes>, rest: seq<Bytes>)
    requires Pushed(xs, vs, front, ys) && vs != [] && Popped(ys, 1, front, out, rest)
    ensures out == [vs[|vs| - 1]] && Pushed(xs, vs[..|vs| - 1], front, rest)
  {
    var n := |vs| - 1;
    if front {
      assert out[0] == ys[0] == vs[n];
      forall i | 0 <= i < n
        ensures rest[i] == vs[..n][n - 1 - i]
      {
        assert rest[i] == ys[1 + i];
      }
      forall i | 0 <= i < |xs|
        ensures rest[n + i] == xs[i]
      {
        assert rest[n + i] == ys[1 + (n + i)] == ys[|vs| + i];
      }
    } else {
      assert out[0] == ys[|ys| - 1] == ys[|xs| + n];
    }
  }

  // ----- hashes -----

  function FieldsIn(e: Maybe): map<Bytes, Bytes> {
    if e.Some? && e.e.val.Hash? then e.e.val.fields else map[]
  }

  function PairBytes(ps: seq<Pair>): nat {
    if ps == [] then 0 else |ps[0].field| + |ps[0].value| + PairBytes(ps[1..])
  }

  lemma {:induction false} PairBytesLast(ps: seq<Pair>)
    requires ps != []
    ensures PairBytes(ps) == PairBytes(ps[..|ps| - 1]) + |ps[|ps| - 1].field| + |ps[|ps| - 1].value|
    decreases |ps|
  {
    var n := |ps| - 1;
    if n > 0 {
      PairBytesLast(ps[1..]);
      assert ps[1..][..n - 1] == ps[..n][1..];
    }
  }

  lemma {:induction false} EstimateMeans(ps: seq<Pair>)
    ensures Estimate(ps) == 32 * |ps| + PairBytes(ps)
  {
    if ps != [] {
      EstimateMeans(ps[..|ps| - 1]);
      PairBytesLast(ps);
    }
  }

  /** What a hash costs, however its fields are listed: 32 for each, and its bytes. */
  lemma {:induction false} FieldsCostMeans(m: map<Bytes, Bytes>, kv: seq<Pair>)
    requires Flat(kv, m)
    ensures FieldsCost(m) == 32 * |kv| + PairBytes(kv)
  {
    if kv == [] {
      assert m == map[];
    } else {
      var n := |kv| - 1;
      var f := kv[n].field;
      FlatDel(kv, m, n);
      assert WithoutAt(kv, n) == kv[..n];
      FieldsCostMeans(m - {f}, kv[..n]);
      FieldsCostWithout(m, f);
      PairBytesLast(kv);
    }
  }

  /** The fields after setting the pairs: a field given twice gets its last value. */
  ghost predicate SetTo(m: map<Bytes, Bytes>, ps: seq<Pair>, m': map<Bytes, Bytes>) {
    && (forall f :: f in m' <==> f in m || GivenIn(ps, f))
    && (forall f :: f in m && !GivenIn(ps, f) ==> m'[f] == m[f])
    && (forall i :: 0 <= i < |ps| && !GivenIn(ps[i + 1..], ps[i].field) ==> ps[i].field in m' && m'[ps[i].field] == ps[i].value)
  }

  ghost predicate GivenIn(ps: seq<Pair>, f: Bytes) {
    exists i :: 0 <= i < |ps| && ps[i].field == f
  }

  lemma {:induction false} SetAllMeans(m: map<Bytes, Bytes>, ps: seq<Pair>)
    ensures SetTo(m, ps, SetAll(m, ps)) && |SetAll(m, ps)| == |m| + Added(m, ps)
  {
    if ps != [] {
      var n := |ps| - 1;
      SetAllMeans(m, ps[..n]);
      SetOneMore(m, ps, SetAll(m, ps[..n]));
    }
  }

  lemma SetOneMore(m: map<Bytes, Bytes>, ps: seq<Pair>, mid: map<Bytes, Bytes>)
    requires ps != [] && SetTo(m, ps[..|ps| - 1], mid)
    ensures SetTo(m, ps, mid[ps[|ps| - 1].field := ps[|ps| - 1].value])
  {
    var n := |ps| - 1;
    var p, qs := ps[n], ps[..n];
    var m' := mid[p.field := p.value];
    forall f
      ensures GivenIn(ps, f) <==> GivenIn(qs, f) || f == p.field
    {
      GivenMore(ps, f);
    }
    forall i | 0 <= i < |ps| && !GivenIn(ps[i + 1..], ps[i].field)
      ensures ps[i].field in m' && m'[ps[i].field] == ps[i].value
    {
      if i < n {
        GivenMore(ps[i + 1..], ps[i].field);
        assert ps[i + 1..][..n - i - 1] == qs[i + 1..] && ps[i + 1..][n - i - 1] == p;
        assert qs[i] == ps[i];
      }
    }
  }

  lemma GivenMore(ps: seq<Pair>, f: Bytes)
    requires ps != []
    ensures GivenIn(ps, f) <==> GivenIn(ps[..|ps| - 1], f) || ps[|ps| - 1].field == f
  {
    var n := |ps| - 1;
    if GivenIn(ps[..n], f) {
      var i :| 0 <= i < n && ps[..n][i].field == f;
      assert ps[i].field == f;
    }
    if GivenIn(ps, f) {
      var i :| 0 <= i < |ps| && ps[i].field == f;
      assert i < n ==> ps[..n][i].field == f;
    }
  }

  /** HSET: the fields get their values, and the reply is how many more fields there are. */
  ghost predicate HsetDone(was: Maybe, r: Reply, got: Maybe, key: Bytes, ps: seq<Pair>, limit: int) {
    if was.Some? && !was.e.val.Hash? then r == Err(WrongType) && got == was
    else if limit > 0 && 64 + |key| + FieldsCost(FieldsIn(was)) + 32 * |ps| + PairBytes(ps) > limit then r == Err(OutOfMemory) && got == was
    else
      exists m' :: SetTo(FieldsIn(was), ps, m') && r == Int(|m'| - |FieldsIn(was)|) &&
        got == Some(Entry(Hash(m', FieldsCost(m')), ExpiryOf(was)))
  }

  lemma HsetMeans(was: Maybe, key: Bytes, ps: seq<Pair>, limit: int, now: int)
    requires Alive(was, now)
    ensures var o := DoHset(Alone(key, was), key, ps, limit);
      HsetDone(was, o.reply, Pick(RedisCommands.Live(o.db, now), key), key, ps, limit)
  {
    hide FieldsCost, RedisCommands.Live, SetAll, Added, Estimate, PairBytes, SetTo;
    AloneSeen(key, was, now);
    if !(was.Some? && !was.e.val.Hash?) {
      var m := FieldsIn(was);
      var m' := SetAll(m, ps);
      EstimateMeans(ps);
      SetAllMeans(m, ps);
      StoredSeen(Alone(key, was), key, Entry(Hash(m', FieldsCost(m')), ExpiryOf(was)), now);
      var o := DoHset(Alone(key, was), key, ps, limit);
      assert o.reply == Err(OutOfMemory) || o.reply == Int(|m'| - |m|);
    }
  }

  /** HDEL: the fields are gone, with the last one the key; the reply is how many fields there are less. */
  ghost predicate HdelDone(was: Maybe, r: Reply, got: Maybe, fs: seq<Bytes>) {
    if was.None? then r == Int(0) && got == None
    else if !was.e.val.Hash? then r == Err(WrongType) && got == was
    else
      exists m' :: DeletedFrom(FieldsIn(was), fs, m') && r == Int(|FieldsIn(was)| - |m'|) &&
        got == if m' == map[] then None else Some(Entry(Hash(m', FieldsCost(m')), ExpiryOf(was)))
  }

  ghost predicate DeletedFrom(m: map<Bytes, Bytes>, fs: seq<Bytes>, m': map<Bytes, Bytes>) {
    && (forall f :: f in m' <==> f in m && f !in fs)
    && (forall f :: f in m' ==> m'[f] == m[f])
  }

  lemma {:induction false} DelAllMeans(m: map<Bytes, Bytes>, fs: seq<Bytes>)
    ensures DeletedFrom(m, fs, DelAll(m, fs)) && |DelAll(m, fs)| == |m| - Removed(m, fs)
  {
    hide DeletedFrom;
    if fs != [] {
      var n := |fs| - 1;
      DelAllMeans(m, fs[..n]);
      var mid := DelAll(m, fs[..n]);
      DelOneMore(m, fs, mid);
      OneLess(mid, fs[n]);
    } else {
      DelNone(m);
    }
  }

  lemma DelNone(m: map<Bytes, Bytes>)
    ensures DeletedFrom(m, [], m)
  {}

  lemma DelOneMore(m: map<Bytes, Bytes>, fs: seq<Bytes>, mid: map<Bytes, Bytes>)
    requires fs != [] && DeletedFrom(m, fs[..|fs| - 1], mid)
    ensures DeletedFrom(m, fs, mid - {fs[|fs| - 1]})
  {
    assert fs == fs[..|fs| - 1] + [fs[|fs| - 1]];
  }

  lemma HdelMeans(was: Maybe, key: Bytes, fs: seq<Bytes>, now: int)
    requires Alive(was, now)
    ensures var o := DoHdel(Alone(key, was), key, fs); HdelDone(was, o.reply, Pick(RedisCommands.Live(o.db, now), key), fs)
  {
    hide FieldsCost, RedisCommands.Live, DelAll, Removed, DeletedFrom;
    AloneSeen(key, was, now);
    if was.Some? && was.e.val.Hash? {
      var m := FieldsIn(was);
      var m' := DelAll(m, fs);
      DelAllMeans(m, fs);
      StoredSeen(Alone(key, was), key, Entry(Hash(m', FieldsCost(m')), ExpiryOf(was)), now);
      var o := DoHdel(Alone(key, was), key, fs);
      assert o.reply == Int(|m| - |m'|);
    }
  }

  /** HINCRBY: as INCRBY, on a field. */
  ghost predicate HincrDone(was: Maybe, r: Reply, got: Maybe, key: Bytes, f: Bytes, delta: int, limit: int) {
    if was.Some? && !was.e.val.Hash? then r == Err(WrongType) && got == was
    else
      var m := FieldsIn(was);
      && (f in m && (forall v :: !Represents(m[f], v)) ==> r == Err(HashNotInt) && got == was)
      && (forall v :: (f !in m && v == 0) || (f in m && Represents(m[f], v)) ==>
           if -0x8000_0000_0000_0000 <= v + delta < 0x8000_0000_0000_0000 then
             exists b :: Represents(b, v + delta) &&
               if limit > 0 && 64 + |key| + 32 + |f| + |b| + (if was.Some? then 64 + |key| + FieldsCost(m) else 0) > limit then
                 r == Err(OutOfMemory) && got == was
               else r == Int(v + delta) && got == Some(Entry(Hash(m[f := b], FieldsCost(m[f := b])), ExpiryOf(was)))
           else r == Err(Overflow) && got == was)
  }

  lemma HincrMeans(was: Maybe, key: Bytes, f: Bytes, delta: int, limit: int, now: int)
    requires Alive(was, now)
    ensures var o := DoHincr(Alone(key, was), key, f, delta, limit);
      HincrDone(was, o.reply, Pick(RedisCommands.Live(o.db, now), key), key, f, delta, limit)
  {
    hide FieldsCost, RedisCommands.Live, Format, Represents, IsInt;
    var db := Alone(key, was);
    AloneSeen(key, was, now);
    if !(was.Some? && !was.e.val.Hash?) {
      var m := FieldsIn(was);
      if f in m {
        OnlyOne(m[f]);
      }
      if f !in m || IsInt(m[f]) {
        var n := (if f in m then IntOf(m[f]) else 0) + delta;
        var m' := m[f := Format(n)];
        StoredSeen(db, key, Entry(Hash(m', FieldsCost(m')), ExpiryOf(was)), now);
        Written(n);
        forall v | (f !in m && v == 0) || (f in m && Represents(m[f], v))
          ensures v + delta == n
        {}
        assert f in m ==> Represents(m[f], n - delta);
        var o := DoHincr(db, key, f, delta, limit);
        var got := Pick(RedisCommands.Live(o.db, now), key);
        assert !(MIN_INT64 <= n <= MAX_INT64) ==> o.reply == Err(Overflow) && got == was;
        assert MIN_INT64 <= n <= MAX_INT64 ==> Represents(Format(n), n);
      }
    }
  }
}
