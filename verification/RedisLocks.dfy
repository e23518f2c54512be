/** Commands over several shards: ordered locking, absence of deadlock, and atomicity. */
module RedisLocks {

  // ----- which locks a command takes -----

  ghost predicate Ascending(xs: seq<nat>) {
    forall i, j :: 0 <= i < j < |xs| ==> xs[i] < xs[j]
  }

  /** The shards of a command's keys, each once, in ascending order. */
  method LockList(shards: seq<nat>) returns (locks: seq<nat>)
    ensures Ascending(locks) && forall x :: x in locks <==> x in shards
  {
    locks := [];
    for i := 0 to |shards|
      invariant Ascending(locks) && forall x :: x in locks <==> x in shards[..i]
    {
      assert shards[..i + 1] == shards[..i] + [shards[i]];
      locks := Enter(locks, shards[i]);
    }
    assert shards[..|shards|] == shards;
  }

  method Enter(locks0: seq<nat>, x: nat) returns (locks: seq<nat>)
    requires Ascending(locks0)
    ensures Ascending(locks) && forall y :: y in locks <==> y in locks0 || y == x
  {
    var j := 0;
    while j < |locks0| && locks0[j] < x
      invariant 0 <= j <= |locks0| && forall i :: 0 <= i < j ==> locks0[i] < x
    {
      j := j + 1;
    }
    if j < |locks0| && locks0[j] == x {
      return locks0;
    }
    locks := locks0[..j] + [x] + locks0[j..];
    forall y
      ensures y in locks <==> y in locks0 || y == x
    {
      assert locks0 == locks0[..j] + locks0[j..];
    }
  }

  // ----- clients and shards -----

  /** A step of a command on one shard: the shard's new contents and a reply. */
  datatype Op<!D, R> = Op(shard: nat, f: D -> (D, R))

  datatype Cmd<!D, R> = Cmd(locks: seq<nat>, ops: seq<Op<D, R>>)

  /** Where a client is in its command: taking locks, done with some operations, or giving locks back. */
  datatype Phase = Idle | Locking(n: nat) | Running(n: nat) | Releasing(n: nat)

  /** `at` is the place of the running command in the history. */
  datatype Client<!D, R> = Client(cmd: Cmd<D, R>, phase: Phase, replies: seq<R>, at: nat)

  datatype Owner = Free | Held(holder: nat)

  datatype Logged<!D, R> = Logged(client: nat, ops: seq<Op<D, R>>)

  /** `log` is a history: commands in the order in which they came to hold all their locks. */
  datatype State<!D, R> = State(owner: seq<Owner>, db: seq<D>, clients: seq<Client<D, R>>, log: seq<Logged<D, R>>)

  /** Locks are taken in ascending order and cover every shard that is touched. */
  ghost predicate WellFormed<D(!new), R(!new)>(c: Cmd<D, R>, shards: nat) {
    && Ascending(c.locks) && (forall j :: 0 <= j < |c.locks| ==> c.locks[j] < shards)
    && (forall k :: 0 <= k < |c.ops| ==> c.ops[k].shard in c.locks)
  }

  function HeldCount<D, R>(c: Client<D, R>): nat {
    match c.phase
    case Idle => 0
    case Locking(n) => n
    case Running(_) => |c.cmd.locks|
    case Releasing(n) => n
  }

  /** The client has taken the lock of shard i and not given it back. */
  ghost predicate Has<D, R>(c: Client<D, R>, i: nat) {
    HeldCount(c) <= |c.cmd.locks| && i in c.cmd.locks[..HeldCount(c)]
  }

  // ----- steps -----

  ghost predicate Begin<D(!new), R(!new)>(s: State, c: nat, cmd: Cmd<D, R>, s': State) {
    && c < |s.clients| && s.clients[c].phase == Idle && WellFormed(cmd, |s.db|)
    && s' == s.(clients := s.clients[c := Client(cmd, Locking(0), [], 0)])
  }

  ghost predicate Acquire<D(!new), R(!new)>(s: State<D, R>, c: nat, s': State<D, R>) {
    && c < |s.clients| && s.clients[c].phase.Locking? && s.clients[c].phase.n < |s.clients[c].cmd.locks|
    && var l := s.clients[c].cmd.locks[s.clients[c].phase.n];
    && l < |s.owner| && s.owner[l] == Free
    && s' == s.(owner := s.owner[l := Held(c)], clients := s.clients[c := s.clients[c].(phase := Locking(s.clients[c].phase.n + 1))])
  }

  /** All locks are held: from here on the command is in the history. */
  ghost predicate Start<D(!new), R(!new)>(s: State<D, R>, c: nat, s': State<D, R>) {
    && c < |s.clients| && s.clients[c].phase == Locking(|s.clients[c].cmd.locks|)
    && s' == s.(clients := s.clients[c := s.clients[c].(phase := Running(0), at := |s.log|)],
                log := s.log + [Logged(c, s.clients[c].cmd.ops)])
  }

  ghost predicate Exec<D(!new), R(!new)>(s: State<D, R>, c: nat, s': State<D, R>) {
    && c < |s.clients| && s.clients[c].phase.Running? && s.clients[c].phase.n < |s.clients[c].cmd.ops|
    && var op := s.clients[c].cmd.ops[s.clients[c].phase.n];
    && op.shard < |s.db|
    && s' == s.(db := s.db[op.shard := op.f(s.db[op.shard]).0],
                clients := s.clients[c := s.clients[c].(phase := Running(s.clients[c].phase.n + 1),
                                                        replies := s.clients[c].replies + [op.f(s.db[op.shard]).1])])
  }

  ghost predicate Finish<D(!new), R(!new)>(s: State<D, R>, c: nat, s': State<D, R>) {
    && c < |s.clients| && s.clients[c].phase == Running(|s.clients[c].cmd.ops|)
    && s' == s.(clients := s.clients[c := s.clients[c].(phase := Releasing(|s.clients[c].cmd.locks|))])
  }

  ghost predicate Release<D(!new), R(!new)>(s: State<D, R>, c: nat, s': State<D, R>) {
    && c < |s.clients| && s.clients[c].phase.Releasing? && 0 < s.clients[c].phase.n <= |s.clients[c].cmd.locks|
    && var l := s.clients[c].cmd.locks[s.clients[c].phase.n - 1];
    && l < |s.owner|
    && s' == s.(owner := s.owner[l := Free], clients := s.clients[c := s.clients[c].(phase := Releasing(s.clients[c].phase.n - 1))])
  }

  ghost predicate End<D(!new), R(!new)>(s: State<D, R>, c: nat, s': State<D, R>) {
    && c < |s.clients| && s.clients[c].phase == Releasing(0)
    && s' == s.(clients := s.clients[c := s.clients[c].(phase := Idle)])
  }

  ghost predicate Step<D(!new), R(!new)>(s: State<D, R>, s': State<D, R>) {
    exists c :: StepOf(s, c, s')
  }

  ghost predicate StepOf<D(!new), R(!new)>(s: State<D, R>, c: nat, s': State<D, R>) {
    || (exists cmd :: Begin(s, c, cmd, s')) || Acquire(s, c, s') || Start(s, c, s') || Exec(s, c, s') || Finish(s, c, s')
    || Release(s, c, s') || End(s, c, s')
  }

  // ----- locks -----

  ghost predicate ClientOk<D(!new), R(!new)>(c: Client<D, R>, shards: nat) {
    && WellFormed(c.cmd, shards) && HeldCount(c) <= |c.cmd.locks|
    && (c.phase.Running? ==> c.phase.n <= |c.cmd.ops|) && (c.phase.Locking? ==> c.replies == [])
  }

  /** A lock is held by exactly the client that took it. */
  ghost predicate LocksOk<D(!new), R(!new)>(s: State<D, R>) {
    && |s.owner| == |s.db| && (forall i :: 0 <= i < |s.owner| && s.owner[i].Held? ==> s.owner[i].holder < |s.clients|)
    && (forall c :: 0 <= c < |s.clients| ==> ClientOk(s.clients[c], |s.db|))
    && (forall c, i :: 0 <= c < |s.clients| && 0 <= i < |s.owner| ==> (Has(s.clients[c], i) <==> s.owner[i] == Held(c)))
  }

  lemma AscendingDistinct(xs: seq<nat>, i: nat, n: nat)
    requires Ascending(xs) && n <= |xs| && i < |xs|
    ensures xs[i] in xs[..n] <==> i < n
  {
    if i < n {
      assert xs[..n][i] == xs[i];
    }
  }

  lemma PrefixMember(xs: seq<nat>, n: nat, x: nat)
    requires n < |xs|
    ensures x in xs[..n + 1] <==> x in xs[..n] || x == xs[n]
  {
    assert xs[..n + 1] == xs[..n] + [xs[n]];
  }

  lemma AcquireOk<D(!new), R(!new)>(s: State<D, R>, c: nat, s': State<D, R>)
    requires LocksOk(s) && Acquire(s, c, s')
    ensures LocksOk(s')
  {
    var a, b := s.clients[c], s'.clients[c];
    var n := a.phase.n;
    forall i | 0 <= i < |s.owner|
      ensures Has(b, i) <==> Has(a, i) || i == a.cmd.locks[n]
    {
      PrefixMember(a.cmd.locks, n, i);
    }
  }

  lemma ReleaseOk<D(!new), R(!new)>(s: State<D, R>, c: nat, s': State<D, R>)
    requires LocksOk(s) && Release(s, c, s')
    ensures LocksOk(s')
  {
    var a, b := s.clients[c], s'.clients[c];
    var n := a.phase.n - 1;
    var l := a.cmd.locks[n];
    AscendingDistinct(a.cmd.locks, n, n);
    PrefixMember(a.cmd.locks, n, l);
    assert Has(a, l) && s.owner[l] == Held(c) && !Has(b, l);
    forall d, i | 0 <= d < |s.clients| && 0 <= i < |s.owner|
      ensures Has(s'.clients[d], i) <==> s'.owner[i] == Held(d)
    {
      assert Has(s.clients[d], i) <==> s.owner[i] == Held(d);
      assert Has(s.clients[d], l) <==> s.owner[l] == Held(d);
      PrefixMember(a.cmd.locks, n, i);
    }
  }

  lemma LocksStep<D(!new), R(!new)>(s: State<D, R>, c: nat, s': State<D, R>)
    requires LocksOk(s) && StepOf(s, c, s')
    ensures LocksOk(s')
  {
    if Acquire(s, c, s') {
      AcquireOk(s, c, s');
    } else if Release(s, c, s') {
      ReleaseOk(s, c, s');
    } else {
      OwnersStay(s, c, s');
    }
  }

  lemma OwnersStay<D(!new), R(!new)>(s: State<D, R>, c: nat, s': State<D, R>)
    requires LocksOk(s) && c < |s.clients| && s'.owner == s.owner && |s'.db| == |s.db|
    requires |s'.clients| == |s.clients| && s'.clients == s.clients[c := s'.clients[c]]
    requires ClientOk(s'.clients[c], |s.db|)
    requires s'.clients[c].cmd.locks[..HeldCount(s'.clients[c])] == s.clients[c].cmd.locks[..HeldCount(s.clients[c])]
    ensures LocksOk(s')
  {
    forall d, i | 0 <= d < |s.clients| && 0 <= i < |s.owner|
      ensures Has(s'.clients[d], i) <==> s'.owner[i] == Held(d)
    {
      assert Has(s.clients[d], i) <==> s.owner[i] == Held(d);
    }
  }

  // ----- no deadlock -----

  ghost predicate Wants<D, R>(c: Client<D, R>, l: nat) {
    c.phase.Locking? && c.phase.n < |c.cmd.locks| && c.cmd.locks[c.phase.n] == l
  }

  /** Client c waits for a lock that client d holds. */
  ghost predicate WaitsFor<D, R>(s: State<D, R>, c: nat, l: nat, d: nat) {
    c < |s.clients| && d < |s.clients| && l < |s.owner| && Wants(s.clients[c], l) && s.owner[l] == Held(d)
  }

  /** Whoever holds a lock that another waits for waits only for later locks. */
  lemma WaitsLater<D(!new), R(!new)>(s: State<D, R>, c: nat, l: nat, d: nat, k: nat)
    requires LocksOk(s) && WaitsFor(s, c, l, d) && Wants(s.clients[d], k)
    ensures l < k
  {
    assert Has(s.clients[d], l);
    var locks, n := s.clients[d].cmd.locks, s.clients[d].phase.n;
    var j :| 0 <= j < n && locks[..n][j] == l;
    assert locks[j] == l;
  }

  /** A chain of waits: cs[i] waits for ls[i], held by cs[i + 1]. */
  ghost predicate Chain<D, R>(s: State<D, R>, cs: seq<nat>, ls: seq<nat>) {
    |cs| == |ls| + 1 && forall i :: 0 <= i < |ls| ==> WaitsFor(s, cs[i], ls[i], cs[i + 1])
  }

  lemma {:induction false} ChainAscends<D(!new), R(!new)>(s: State<D, R>, cs: seq<nat>, ls: seq<nat>, i: nat, j: nat)
    requires LocksOk(s) && Chain(s, cs, ls) && i < j < |ls|
    ensures ls[i] < ls[j]
    decreases j
  {
    if i < j - 1 {
      ChainAscends(s, cs, ls, i, j - 1);
    }
    assert WaitsFor(s, cs[j - 1], ls[j - 1], cs[j]) && WaitsFor(s, cs[j], ls[j], cs[j + 1]);
    WaitsLater(s, cs[j - 1], ls[j - 1], cs[j], ls[j]);
  }

  lemma NoCycle<D(!new), R(!new)>(s: State<D, R>, cs: seq<nat>, ls: seq<nat>)
    requires LocksOk(s) && Chain(s, cs, ls) && |ls| > 0
    ensures cs[0] != cs[|ls|]
  {
    var n := |ls| - 1;
    assert WaitsFor(s, cs[n], ls[n], cs[n + 1]) && WaitsFor(s, cs[0], ls[0], cs[1]);
    if cs[0] == cs[n + 1] {
      WaitsLater(s, cs[n], ls[n], cs[0], ls[0]);
      if n > 0 {
        ChainAscends(s, cs, ls, 0, n);
      }
    }
  }

  ghost predicate Active<D, R>(s: State<D, R>, c: nat) {
    c < |s.clients| && s.clients[c].phase != Idle
  }

  ghost predicate CanStep<D(!new), R(!new)>(s: State<D, R>, c: nat) {
    c < |s.clients| && exists s' :: StepOf(s, c, s')
  }

  /** Following the waits from any active client leads to one that can go on. */
  lemma {:induction false} WaitsEnd<D(!new), R(!new)>(s: State<D, R>, c: nat) returns (d: nat)
    requires LocksOk(s) && Active(s, c)
    ensures Active(s, d) && CanStep(s, d)
    decreases |s.owner| - WantedLock(s, c)
  {
    var a := s.clients[c];
    if a.phase.Locking? && a.phase.n < |a.cmd.locks| {
      var l := a.cmd.locks[a.phase.n];
      if s.owner[l] == Free {
        d := c;
        var s' := s.(owner := s.owner[l := Held(c)], clients := s.clients[c := a.(phase := Locking(a.phase.n + 1))]);
        assert Acquire(s, c, s');
        assert StepOf(s, c, s');
      } else {
        var h := s.owner[l].holder;
        assert Has(s.clients[h], l);
        HolderActive(s, h, l);
        if Wants(s.clients[h], WantedLock(s, h)) {
          WaitsLater(s, c, l, h, WantedLock(s, h));
        }
        d := WaitsEnd(s, h);
      }
    } else {
      d := c;
      FreeToGo(s, c);
    }
  }

  /** The lock a client waits for; past the last shard if it waits for none. */
  ghost function WantedLock<D(!new), R(!new)>(s: State<D, R>, c: nat): (l: nat)
    requires LocksOk(s) && c < |s.clients|
    ensures l <= |s.owner|
  {
    var a := s.clients[c];
    if a.phase.Locking? && a.phase.n < |a.cmd.locks| then a.cmd.locks[a.phase.n] else |s.owner|
  }

  lemma HolderActive<D(!new), R(!new)>(s: State<D, R>, h: nat, l: nat)
    requires h < |s.clients| && Has(s.clients[h], l)
    ensures Active(s, h)
  {}

  lemma FreeToGo<D(!new), R(!new)>(s: State<D, R>, c: nat)
    requires LocksOk(s) && Active(s, c) && WantedLock(s, c) == |s.owner|
    ensures CanStep(s, c)
  {
    var a := s.clients[c];
    match a.phase
    case Locking(n) =>
      var s' := s.(clients := s.clients[c := a.(phase := Running(0), at := |s.log|)], log := s.log + [Logged(c, a.cmd.ops)]);
      assert Start(s, c, s');
      assert StepOf(s, c, s');
    case Running(n) =>
      if n < |a.cmd.ops| {
        var op := a.cmd.ops[n];
        OpInRange(a.cmd, |s.db|, n);
        var s' := s.(db := s.db[op.shard := op.f(s.db[op.shard]).0],
                     clients := s.clients[c := a.(phase := Running(n + 1), replies := a.replies + [op.f(s.db[op.shard]).1])]);
        assert Exec(s, c, s');
        assert StepOf(s, c, s');
      } else {
        var s' := s.(clients := s.clients[c := a.(phase := Releasing(|a.cmd.locks|))]);
        assert Finish(s, c, s');
        assert StepOf(s, c, s');
      }
    case Releasing(n) =>
      if n == 0 {
        var s' := s.(clients := s.clients[c := a.(phase := Idle)]);
        assert End(s, c, s');
        assert StepOf(s, c, s');
      } else {
        var s' := s.(owner := s.owner[a.cmd.locks[n - 1] := Free], clients := s.clients[c := a.(phase := Releasing(n - 1))]);
        assert Release(s, c, s');
        assert StepOf(s, c, s');
      }
  }

  lemma OpInRange<D(!new), R(!new)>(c: Cmd<D, R>, shards: nat, k: nat)
    requires WellFormed(c, shards) && k < |c.ops|
    ensures c.ops[k].shard < shards
  {
    assert c.ops[k].shard in c.locks;
    var j :| 0 <= j < |c.locks| && c.locks[j] == c.ops[k].shard;
  }

  // ----- atomicity -----

  datatype Result<D, R> = Result(db: seq<D>, replies: seq<R>)

  ghost predicate Fits<D(!new), R(!new)>(ops: seq<Op<D, R>>, shards: nat) {
    forall k :: 0 <= k < |ops| ==> ops[k].shard < shards
  }

  /** All operations of a command, one after the other and nothing in between. */
  function Run<D(!new), R(!new)>(ops: seq<Op<D, R>>, db: seq<D>): (r: Result<D, R>)
    requires Fits(ops, |db|)
    ensures |r.db| == |db| && |r.replies| == |ops|
  {
    if ops == [] then Result(db, [])
    else
      var (d, reply) := ops[0].f(db[ops[0].shard]);
      var rest := Run(ops[1..], db[ops[0].shard := d]);
      Result(rest.db, [reply] + rest.replies)
  }

  /** The operations touch only the shards in `locks`. */
  ghost predicate Touches<D(!new), R(!new)>(ops: seq<Op<D, R>>, locks: seq<nat>) {
    forall k :: 0 <= k < |ops| ==> ops[k].shard in locks
  }

  ghost predicate Agree<D(!new)>(a: seq<D>, b: seq<D>, locks: seq<nat>) {
    |a| == |b| && forall i :: 0 <= i < |a| && i in locks ==> a[i] == b[i]
  }

  /** What a command does depends only on the shards it has locked, and changes no other. */
  lemma {:induction false} RunLocal<D(!new), R(!new)>(ops: seq<Op<D, R>>, a: seq<D>, b: seq<D>, locks: seq<nat>)
    requires Fits(ops, |a|) && Touches(ops, locks) && Agree(a, b, locks)
    ensures Run(ops, a).replies == Run(ops, b).replies && Agree(Run(ops, a).db, Run(ops, b).db, locks)
    ensures forall i :: 0 <= i < |a| && i !in locks ==> Run(ops, a).db[i] == a[i]
  {
    if ops != [] {
      var op := ops[0];
      assert op.shard in locks;
      var d := op.f(a[op.shard]).0;
      RunLocal(ops[1..], a[op.shard := d], b[op.shard := d], locks);
    }
  }

  /** The operations a client still has to do. */
  ghost function Left<D(!new), R(!new)>(c: Client<D, R>): seq<Op<D, R>> {
    if c.phase.Running? && c.phase.n <= |c.cmd.ops| then c.cmd.ops[c.phase.n..] else []
  }

  lemma LeftFits<D(!new), R(!new)>(c: Client<D, R>, shards: nat)
    requires ClientOk(c, shards)
    ensures Fits(Left(c), shards) && Touches(Left(c), c.cmd.locks)
  {
    forall k | 0 <= k < |Left(c)|
      ensures Left(c)[k].shard < shards && Left(c)[k].shard in c.cmd.locks
    {
      OpInRange(c.cmd, shards, c.phase.n + k);
    }
  }

  /** What the shards would hold if every command that has started were also finished. */
  ghost predicate Settles<D(!new), R(!new)>(s: State<D, R>, a: seq<D>) {
    && |a| == |s.db| == |s.owner|
    && (forall i :: 0 <= i < |s.db| && s.owner[i] == Free ==> a[i] == s.db[i])
    && (forall c :: 0 <= c < |s.clients| ==> SettlesFor(s, a, s.clients[c]))
  }

  ghost predicate SettlesFor<D(!new), R(!new)>(s: State<D, R>, a: seq<D>, c: Client<D, R>)
    requires |a| == |s.db|
  {
    Fits(Left(c), |s.db|) && forall i :: 0 <= i < |s.db| && Has(c, i) ==> a[i] == Run(Left(c), s.db).db[i]
  }

  /** The history run from the start. */
  function Replay<D(!new), R(!new)>(init: seq<D>, log: seq<Logged<D, R>>): (db: seq<D>)
    requires LogFits(log, |init|)
    ensures |db| == |init|
  {
    if log == [] then init
    else
      var n := |log| - 1;
      Run(log[n].ops, Replay(init, log[..n])).db
  }

  ghost predicate LogFits<D(!new), R(!new)>(log: seq<Logged<D, R>>, shards: nat) {
    forall k :: 0 <= k < |log| ==> Fits(log[k].ops, shards)
  }

  /** A client's replies so far, with those still to come, are the ones its command gets in the history. */
  ghost predicate Answered<D(!new), R(!new)>(s: State<D, R>, init: seq<D>, c: Client<D, R>)
    requires LogFits(s.log, |init|)
  {
    c.phase.Running? || c.phase.Releasing? ==>
      && c.at < |s.log| && s.log[c.at].ops == c.cmd.ops && Fits(Left(c), |s.db|)
      && Run(c.cmd.ops, Replay(init, s.log[..c.at])).replies == Due(s.db, c)
  }

  /** The replies so far and those to come. */
  ghost function Due<D(!new), R(!new)>(db: seq<D>, c: Client<D, R>): seq<R>
    requires Fits(Left(c), |db|)
  {
    c.replies + Run(Left(c), db).replies
  }

  /** The shards are as if the commands in the history had run one at a time. */
  ghost predicate Atomic<D(!new), R(!new)>(s: State<D, R>, init: seq<D>) {
    && LocksOk(s) && |init| == |s.db| && LogFits(s.log, |init|)
    && Settles(s, Replay(init, s.log))
    && (forall c :: 0 <= c < |s.clients| ==> Answered(s, init, s.clients[c]))
  }

  lemma RunNone<D(!new), R(!new)>(db: seq<D>)
    ensures Run<D, R>([], db) == Result(db, [])
  {}

  /** Another client's locks are not this one's. */
  lemma LocksApart<D(!new), R(!new)>(s: State<D, R>, c: nat, d: nat, i: nat)
    requires LocksOk(s) && c < |s.clients| && d < |s.clients| && c != d && i < |s.owner|
    requires Has(s.clients[c], i)
    ensures !Has(s.clients[d], i)
  {
    assert Has(s.clients[d], i) <==> s.owner[i] == Held(d);
  }

  /** Steps that only move locks. */
  lemma LockMoves<D(!new), R(!new)>(s: State<D, R>, init: seq<D>, c: nat, s': State<D, R>)
    requires Atomic(s, init) && LocksOk(s') && StepOf(s, c, s') && s'.db == s.db && s'.log == s.log
    requires Left(s.clients[c]) == [] == Left(s'.clients[c])
    requires s'.clients[c].phase.Releasing? ==> Answered(s', init, s'.clients[c])
    requires !s'.clients[c].phase.Running?
    ensures Atomic(s', init)
  {
    hide Replay, Run, Answered, LogFits, Fits, Left, LocksOk, SettlesFor;
    var a := Replay(init, s.log);
    AtRest(s, init, c);
    LockMoved(s, c, s');
    forall d | 0 <= d < |s.clients|
      ensures SettlesFor(s', a, s'.clients[d]) && Answered(s', init, s'.clients[d])
    {
      assert SettlesFor(s, a, s.clients[d]) && Answered(s, init, s.clients[d]);
      if d == c {
        NotAnswering(s', init, s'.clients[c]);
        SettlesAtRest(s', a, s'.clients[c]);
      } else {
        SameAnswer(s, s', init, s.clients[d]);
        SettlesSame(s, s', a, s.clients[d]);
      }
    }
  }

  /** Shards that are free or held by a client with nothing left to do are settled. */
  lemma AtRest<D(!new), R(!new)>(s: State<D, R>, init: seq<D>, c: nat)
    requires Atomic(s, init) && c < |s.clients| && Left(s.clients[c]) == []
    ensures forall i :: 0 <= i < |s.db| && (s.owner[i] == Free || s.owner[i] == Held(c)) ==> Replay(init, s.log)[i] == s.db[i]
  {
    hide Replay, Run;
    RunNone<D, R>(s.db);
    assert SettlesFor(s, Replay(init, s.log), s.clients[c]);
    forall i | 0 <= i < |s.db| && s.owner[i] == Held(c)
      ensures Replay(init, s.log)[i] == s.db[i]
    {
      assert Has(s.clients[c], i);
    }
  }

  lemma LockMoved<D(!new), R(!new)>(s: State<D, R>, c: nat, s': State<D, R>)
    requires LocksOk(s) && LocksOk(s') && StepOf(s, c, s')
    ensures |s'.owner| == |s.owner| && |s'.clients| == |s.clients| && s'.clients == s.clients[c := s'.clients[c]]
    ensures forall i :: 0 <= i < |s.owner| ==> s'.owner[i] == s.owner[i] || s'.owner[i] == Free || s.owner[i] == Free
    ensures forall i :: 0 <= i < |s.owner| && s'.owner[i] == Free ==> s.owner[i] == Free || s.owner[i] == Held(c)
    ensures forall i :: 0 <= i < |s.owner| && Has(s'.clients[c], i) ==> s.owner[i] == Free || s.owner[i] == Held(c)
  {
    if Release(s, c, s') {
      var a := s.clients[c];
      PrefixMember(a.cmd.locks, a.phase.n - 1, a.cmd.locks[a.phase.n - 1]);
      assert Has(a, a.cmd.locks[a.phase.n - 1]);
    }
  }

  lemma SettlesAtRest<D(!new), R(!new)>(s: State<D, R>, a: seq<D>, c: Client<D, R>)
    requires Left(c) == [] && |a| == |s.db|
    requires forall i :: 0 <= i < |s.db| && Has(c, i) ==> a[i] == s.db[i]
    ensures SettlesFor(s, a, c)
  {
    RunNone<D, R>(s.db);
  }

  lemma SettlesSame<D(!new), R(!new)>(s: State<D, R>, s': State<D, R>, a: seq<D>, c: Client<D, R>)
    requires |a| == |s.db| && s'.db == s.db && SettlesFor(s, a, c)
    ensures SettlesFor(s', a, c)
  {}

  lemma NotAnswering<D(!new), R(!new)>(s: State<D, R>, init: seq<D>, c: Client<D, R>)
    requires LogFits(s.log, |init|) && !c.phase.Running? && (c.phase.Releasing? ==> Answered(s, init, c))
    ensures Answered(s, init, c)
  {}

  lemma SameAnswer<D(!new), R(!new)>(s: State<D, R>, s': State<D, R>, init: seq<D>, c: Client<D, R>)
    requires LogFits(s.log, |init|) && s'.log == s.log && s'.db == s.db && Answered(s, init, c)
    ensures Answered(s', init, c)
  {}

  lemma HasAll<D(!new), R(!new)>(c: Client<D, R>, i: nat)
    requires c.phase.Running? || c.phase == Locking(|c.cmd.locks|)
    ensures Has(c, i) <==> i in c.cmd.locks
  {
    assert c.cmd.locks[..|c.cmd.locks|] == c.cmd.locks;
  }

  /** Starting a command: the history grows by it, and the effect on the settled shards is the whole command. */
  lemma StartAtomic<D(!new), R(!new)>(s: State<D, R>, init: seq<D>, c: nat, s': State<D, R>)
    requires Atomic(s, init) && LocksOk(s') && Start(s, c, s')
    ensures Atomic(s', init) && Replay(init, s'.log) == Run(s.clients[c].cmd.ops, Replay(init, s.log)).db
  {
    hide Run;
    var a, b := s.clients[c], s'.clients[c];
    var ops, locks := a.cmd.ops, a.cmd.locks;
    var was := Replay(init, s.log);
    LeftFits(b, |s.db|);
    assert Left(b) == ops;
    assert s'.log[..|s.log|] == s.log;
    var now := Run(ops, was).db;
    RunNone<D, R>(s.db);
    assert SettlesFor(s, was, a);
    assert Agree(was, s.db, locks) by {
      forall i | 0 <= i < |s.db| && i in locks
        ensures was[i] == s.db[i]
      {
        HasAll(a, i);
      }
    }
    RunLocal(ops, was, s.db, locks);
    forall i | 0 <= i < |s.db| && s'.owner[i] == Free
      ensures now[i] == s.db[i]
    {
      HasAll(a, i);
    }
    forall d | 0 <= d < |s.clients|
      ensures SettlesFor(s', now, s'.clients[d]) && Answered(s', init, s'.clients[d])
    {
      if d == c {
        StartSelf(s, init, c, s', now);
      } else {
        StartOther(s, init, c, s', d, now);
      }
    }
  }

  ghost predicate SameReplies<D(!new), R(!new)>(ops: seq<Op<D, R>>, a: seq<D>, b: seq<D>)
    requires Fits(ops, |a|) && |a| == |b|
  {
    Run(ops, a).replies == Run(ops, b).replies
  }

  lemma StartSelf<D(!new), R(!new)>(s: State<D, R>, init: seq<D>, c: nat, s': State<D, R>, now: seq<D>)
    requires LocksOk(s) && Start(s, c, s') && LogFits(s.log, |init|) && LogFits(s'.log, |init|) && |init| == |s.db| == |now|
    requires Fits(s.clients[c].cmd.ops, |s.db|)
    requires Agree(now, Run(s.clients[c].cmd.ops, s.db).db, s.clients[c].cmd.locks)
    requires SameReplies(s.clients[c].cmd.ops, Replay(init, s.log), s.db)
    ensures SettlesFor(s', now, s'.clients[c]) && Answered(s', init, s'.clients[c])
  {
    hide Run, Replay, LocksOk, Fits, LogFits, Left, Due, Answered, SettlesFor, Agree, SameReplies;
    var b := s'.clients[c];
    NoReplies(s, c);
    LeftAtStart(b);
    assert s'.log[..b.at] == s.log;
    SettledSelf(s', now, b);
    AnsweredAtStart(s', init, b);
  }

  lemma AnsweredAtStart<D(!new), R(!new)>(s: State<D, R>, init: seq<D>, c: Client<D, R>)
    requires c.phase == Running(0) && LogFits(s.log, |init|) && |init| == |s.db|
    requires c.at < |s.log| && s.log[c.at].ops == c.cmd.ops && c.replies == []
    requires LogFits(s.log[..c.at], |init|)
    requires Fits(c.cmd.ops, |init|) && SameReplies(c.cmd.ops, Replay(init, s.log[..c.at]), s.db)
    ensures Answered(s, init, c)
  {
    hide Run, Replay, Fits, LogFits, Left, Due;
    LeftAtStart(c);
    DueAtStart(s.db, c);
  }

  lemma DueAtStart<D(!new), R(!new)>(db: seq<D>, c: Client<D, R>)
    requires c.phase == Running(0) && c.replies == [] && Fits(c.cmd.ops, |db|)
    ensures Left(c) == c.cmd.ops && Due(db, c) == Run(c.cmd.ops, db).replies
  {
    hide Run, Fits, Left;
    LeftAtStart(c);
    EmptyPlus(c.replies, Run(c.cmd.ops, db).replies);
  }

  lemma EmptyPlus<R>(a: seq<R>, x: seq<R>)
    requires a == []
    ensures a + x == x
  {}

  lemma LeftAtStart<D(!new), R(!new)>(c: Client<D, R>)
    requires c.phase == Running(0)
    ensures Left(c) == c.cmd.ops
  {}

  lemma NoReplies<D(!new), R(!new)>(s: State<D, R>, c: nat)
    requires LocksOk(s) && c < |s.clients| && s.clients[c].phase.Locking?
    ensures s.clients[c].replies == []
  {
    assert ClientOk(s.clients[c], |s.db|);
  }

  lemma SettledSelf<D(!new), R(!new)>(s: State<D, R>, now: seq<D>, c: Client<D, R>)
    requires c.phase.Running? && Fits(Left(c), |s.db|) && Agree(now, Run(Left(c), s.db).db, c.cmd.locks)
    ensures |now| == |s.db| && SettlesFor(s, now, c)
  {
    hide Run, Fits;
    forall i | 0 <= i < |s.db| && Has(c, i)
      ensures now[i] == Run(Left(c), s.db).db[i]
    {
      HasAll(c, i);
    }
  }

  lemma StartOther<D(!new), R(!new)>(s: State<D, R>, init: seq<D>, c: nat, s': State<D, R>, d: nat, now: seq<D>)
    requires Atomic(s, init) && Start(s, c, s') && d < |s.clients| && d != c && |now| == |s.db|
    requires forall i :: 0 <= i < |now| && i !in s.clients[c].cmd.locks ==> now[i] == Replay(init, s.log)[i]
    requires LogFits(s'.log, |init|)
    ensures SettlesFor(s', now, s'.clients[d]) && Answered(s', init, s'.clients[d])
  {
    hide Run, Replay;
    var was, e := Replay(init, s.log), s.clients[d];
    assert SettlesFor(s, was, e) && Answered(s, init, e);
    forall i | 0 <= i < |s.db| && Has(e, i)
      ensures now[i] == was[i]
    {
      LocksApart(s, d, c, i);
      HasAll(s.clients[c], i);
    }
    if e.phase.Running? || e.phase.Releasing? {
      assert s'.log[..e.at] == s.log[..e.at];
    }
  }

  /** One operation: what the shards settle to stays the same. */
  lemma ExecAtomic<D(!new), R(!new)>(s: State<D, R>, init: seq<D>, c: nat, s': State<D, R>)
    requires Atomic(s, init) && LocksOk(s') && Exec(s, c, s')
    ensures Atomic(s', init)
  {
    hide Replay, Run, Left;
    var a, was := s.clients[c], Replay(init, s.log);
    assert a.cmd.ops[a.phase.n].shard in a.cmd.locks;
    HasAll(a, a.cmd.ops[a.phase.n].shard);
    forall d | 0 <= d < |s.clients|
      ensures SettlesFor(s', was, s'.clients[d]) && Answered(s', init, s'.clients[d])
    {
      if d == c {
        ExecSelf(s, init, c, s');
      } else {
        ExecOther(s, init, c, s', d);
      }
    }
  }

  lemma RunHead<D(!new), R(!new)>(ops: seq<Op<D, R>>, db: seq<D>)
    requires ops != [] && Fits(ops, |db|)
    ensures Fits(ops[1..], |db|)
    ensures var (d, reply) := ops[0].f(db[ops[0].shard]);
      var rest := Run(ops[1..], db[ops[0].shard := d]);
      Run(ops, db).db == rest.db && Run(ops, db).replies == [reply] + rest.replies
  {}

  lemma ExecSelf<D(!new), R(!new)>(s: State<D, R>, init: seq<D>, c: nat, s': State<D, R>)
    requires Atomic(s, init) && LocksOk(s') && Exec(s, c, s')
    ensures SettlesFor(s', Replay(init, s.log), s'.clients[c]) && Answered(s', init, s'.clients[c])
  {
    hide Replay, Run, LocksOk, Fits, LogFits, Settles, SettlesFor;
    var a, b, was := s.clients[c], s'.clients[c], Replay(init, s.log);
    RunningSettles(s, init, c);
    assert Left(a)[0] == a.cmd.ops[a.phase.n] && Left(a)[1..] == Left(b);
    RunHead(Left(a), s.db);
    SettledSelf(s', was, b);
    assert Answered(s, init, a);
    var r := Left(a)[0].f(s.db[Left(a)[0].shard]).1;
    assert (a.replies + [r]) + Run(Left(b), s'.db).replies == a.replies + ([r] + Run(Left(b), s'.db).replies);
  }

  lemma RunningSettles<D(!new), R(!new)>(s: State<D, R>, init: seq<D>, c: nat)
    requires Atomic(s, init) && c < |s.clients| && s.clients[c].phase.Running?
    ensures Fits(Left(s.clients[c]), |s.db|) && s.clients[c].phase.n <= |s.clients[c].cmd.ops|
    ensures Agree(Replay(init, s.log), Run(Left(s.clients[c]), s.db).db, s.clients[c].cmd.locks)
    ensures Fits(Left(s.clients[c]), |s.db|)
  {
    hide Run, Replay, Fits;
    var a := s.clients[c];
    assert SettlesFor(s, Replay(init, s.log), a) && ClientOk(a, |s.db|);
    forall i | 0 <= i < |s.db| && i in a.cmd.locks
      ensures Replay(init, s.log)[i] == Run(Left(a), s.db).db[i]
    {
      HasAll(a, i);
    }
  }

  lemma ExecOther<D(!new), R(!new)>(s: State<D, R>, init: seq<D>, c: nat, s': State<D, R>, d: nat)
    requires Atomic(s, init) && Exec(s, c, s') && d < |s.clients| && d != c
    requires Has(s.clients[c], s.clients[c].cmd.ops[s.clients[c].phase.n].shard)
    ensures SettlesFor(s', Replay(init, s.log), s'.clients[d]) && Answered(s', init, s'.clients[d])
  {
    hide Run, Replay;
    var e, x := s.clients[d], s.clients[c].cmd.ops[s.clients[c].phase.n].shard;
    assert SettlesFor(s, Replay(init, s.log), e) && Answered(s, init, e);
    LocksApart(s, c, d, x);
    LeftFits(e, |s.db|);
    if e.phase.Running? {
      HasAll(e, x);
      RunLocal(Left(e), s.db, s'.db, e.cmd.locks);
      forall i | 0 <= i < |s.db| && Has(e, i)
        ensures Run(Left(e), s.db).db[i] == Run(Left(e), s'.db).db[i]
      {
        HasAll(e, i);
      }
    } else {
      RunNone<D, R>(s.db);
      RunNone<D, R>(s'.db);
    }
  }

  lemma FinishAnswered<D(!new), R(!new)>(s: State<D, R>, init: seq<D>, c: nat, s': State<D, R>)
    requires Atomic(s, init)
    requires Finish(s, c, s') || Release(s, c, s')
    ensures Answered(s', init, s'.clients[c]) && Left(s.clients[c]) == [] == Left(s'.clients[c])
  {
    assert Answered(s, init, s.clients[c]);
    RunNone<D, R>(s.db);
  }

  /** Every step keeps the shards as if commands ran one at a time. */
  lemma AtomicStep<D(!new), R(!new)>(s: State<D, R>, init: seq<D>, c: nat, s': State<D, R>)
    requires Atomic(s, init) && StepOf(s, c, s')
    ensures Atomic(s', init)
  {
    hide Atomic, LocksOk, Answered, Left;
    LocksOf(s, init);
    LocksStep(s, c, s');
    if Start(s, c, s') {
      StartAtomic(s, init, c, s');
    } else if Exec(s, c, s') {
      ExecAtomic(s, init, c, s');
    } else {
      if Finish(s, c, s') || Release(s, c, s') {
        FinishAnswered(s, init, c, s');
      } else {
        NothingLeft(s, c, s');
      }
      LockMoves(s, init, c, s');
    }
  }

  lemma LocksOf<D(!new), R(!new)>(s: State<D, R>, init: seq<D>)
    requires Atomic(s, init)
    ensures LocksOk(s)
  {}

  lemma NothingLeft<D(!new), R(!new)>(s: State<D, R>, c: nat, s': State<D, R>)
    requires StepOf(s, c, s') && !Start(s, c, s') && !Exec(s, c, s') && !Finish(s, c, s') && !Release(s, c, s')
    ensures Left(s.clients[c]) == [] == Left(s'.clients[c]) && !s'.clients[c].phase.Releasing? && !s'.clients[c].phase.Running?
  {}

  ghost predicate Initial<D(!new), R(!new)>(s: State<D, R>) {
    && |s.owner| == |s.db| && s.log == [] && (forall i :: 0 <= i < |s.owner| ==> s.owner[i] == Free)
    && (forall c :: 0 <= c < |s.clients| ==> s.clients[c] == Client(Cmd([], []), Idle, [], 0))
  }

  ghost predicate Trace<D(!new), R(!new)>(ss: seq<State<D, R>>) {
    |ss| > 0 && Initial(ss[0]) && forall i :: 0 <= i < |ss| - 1 ==> Step(ss[i], ss[i + 1])
  }

  /** In every run, every state is as if the started commands had been executed one at a time, in the order in
      which they came to hold their locks, and every client gets the replies of that execution. */
  lemma {:induction false} EveryRunAtomic<D(!new), R(!new)>(ss: seq<State<D, R>>)
    requires Trace(ss)
    ensures Atomic(ss[|ss| - 1], ss[0].db)
  {
    var n := |ss| - 1;
    if n == 0 {
      RunNone<D, R>(ss[0].db);
    } else {
      EveryRunAtomic(ss[..n]);
      assert Step(ss[n - 1], ss[n]);
      var c :| StepOf(ss[n - 1], c, ss[n]);
      AtomicStep(ss[n - 1], ss[0].db, c, ss[n]);
    }
  }

  /** A finished command's replies are those of running it alone after the commands before it. */
  lemma RepliesAtomic<D(!new), R(!new)>(s: State<D, R>, init: seq<D>, c: nat)
    requires Atomic(s, init) && c < |s.clients| && s.clients[c].phase.Releasing?
    ensures s.clients[c].at < |s.log| && s.log[s.clients[c].at].ops == s.clients[c].cmd.ops
    ensures s.clients[c].replies == Run(s.clients[c].cmd.ops, Replay(init, s.log[..s.clients[c].at])).replies
  {
    assert Answered(s, init, s.clients[c]);
    RunNone<D, R>(s.db);
  }

  /** No chain of lock waits in a state that can be reached comes back to where it started. */
  lemma NoDeadlock<D(!new), R(!new)>(ss: seq<State<D, R>>, cs: seq<nat>, ls: seq<nat>)
    requires Trace(ss) && Chain(ss[|ss| - 1], cs, ls) && |ls| > 0
    ensures cs[0] != cs[|ls|]
  {
    EveryRunAtomic(ss);
    LocksOf(ss[|ss| - 1], ss[0].db);
    NoCycle(ss[|ss| - 1], cs, ls);
  }

  /** In a state that can be reached with a client at work, some client at work can go on. */
  lemma Progress<D(!new), R(!new)>(ss: seq<State<D, R>>, c: nat) returns (d: nat)
    requires Trace(ss) && Active(ss[|ss| - 1], c)
    ensures Active(ss[|ss| - 1], d) && CanStep(ss[|ss| - 1], d)
  {
    EveryRunAtomic(ss);
    LocksOf(ss[|ss| - 1], ss[0].db);
    d := WaitsEnd(ss[|ss| - 1], c);
  }

  // ----- the history keeps the order of time -----

  lemma LastStep<D(!new), R(!new)>(ss: seq<State<D, R>>) returns (c: nat)
    requires Trace(ss) && |ss| > 1
    ensures Trace(ss[..|ss| - 1]) && StepOf(ss[|ss| - 2], c, ss[|ss| - 1])
  {
    hide StepOf;
    var n := |ss| - 1;
    assert Step(ss[n - 1], ss[n]);
    c :| StepOf(ss[n - 1], c, ss[n]);
  }

  lemma {:induction false} LogGrows<D(!new), R(!new)>(ss: seq<State<D, R>>, i: nat)
    requires Trace(ss) && i < |ss|
    ensures ss[i].log <= ss[|ss| - 1].log
  {
    var n := |ss| - 1;
    hide Trace;
    if i < n {
      var d := LastStep(ss);
      LogGrows(ss[..n], i);
    }
  }

  /** A command that came to hold its locks after state i has every command logged by then before it. */
  lemma {:induction false} InOrderOfTime<D(!new), R(!new)>(ss: seq<State<D, R>>, i: nat, c: nat)
    requires Trace(ss) && i < |ss| && c < |ss[i].clients| && !Answering(ss[i].clients[c])
    ensures |ss[|ss| - 1].clients| == |ss[i].clients|
    ensures Answering(ss[|ss| - 1].clients[c]) ==> |ss[i].log| <= ss[|ss| - 1].clients[c].at
  {
    var n := |ss| - 1;
    hide Trace, StepOf;
    if i < n {
      var d := LastStep(ss);
      InOrderOfTime(ss[..n], i, c);
      LogGrows(ss[..n], i);
      PlaceInLog(ss[n - 1], d, ss[n], c);
    }
  }

  lemma PlaceInLog<D(!new), R(!new)>(s: State<D, R>, d: nat, s': State<D, R>, c: nat)
    requires StepOf(s, d, s') && c < |s.clients|
    ensures |s'.clients| == |s.clients| && |s.log| <= |s'.log|
    ensures Answering(s'.clients[c]) ==>
      (Answering(s.clients[c]) && s'.clients[c].at == s.clients[c].at) || s'.clients[c].at == |s.log|
  {}

  ghost predicate Answering<D, R>(c: Client<D, R>) {
    c.phase.Running? || c.phase.Releasing?
  }

  // ----- running alone -----

  /** One operation more. */
  lemma {:induction false} RunLast<D(!new), R(!new)>(ops: seq<Op<D, R>>, op: Op<D, R>, db: seq<D>)
    requires Fits(ops + [op], |db|)
    ensures Fits(ops, |db|) && op.shard < |db|
    ensures var r := Run(ops, db);
      var (d, reply) := op.f(r.db[op.shard]);
      Run(ops + [op], db) == Result(r.db[op.shard := d], r.replies + [reply])
  {
    assert (ops + [op])[|ops|] == op;
    forall k | 0 <= k < |ops|
      ensures ops[k].shard < |db|
    {
      assert (ops + [op])[k] == ops[k];
    }
    if ops == [] {
      assert [op][1..] == [];
    } else {
      var (d, reply) := ops[0].f(db[ops[0].shard]);
      assert (ops + [op])[1..] == ops[1..] + [op];
      RunLast(ops[1..], op, db[ops[0].shard := d]);
    }
  }
}
