/** Creating issues: numbers from a locked counter, and idempotency keys, under any interleaving of transactions. */
module TrackerNumbers {

  datatype Maybe<T> = None | Some(value: T)

  /** A request to create `count` issues. An idempotency key stands for the pair of user and key. */
  datatype Request = Request(project: nat, count: nat, key: Maybe<nat>, hash: nat)

  /** What a reply of 201 says: the project, its first new number and how many, and what was asked. */
  datatype Body = Body(project: nat, first: nat, count: nat, hash: nat)

  datatype Reply = Created(body: Body) | KeyReused | Error

  /** What a request with a key and this hash was answered. */
  datatype Answer = Answer(key: nat, hash: nat, reply: Reply)

  /** Where a request is: begun, holding its key, told that the key is taken, about to delete a row that is too old, or
      holding its numbers. `at` is when its transaction began. */
  datatype Phase = Idle | Begun(r: Request) | Ready(r: Request, at: nat) | Taken(r: Request) | Stale(r: Request)
    | Numbered(r: Request, first: nat, at: nat)

  datatype Row = Row(hash: nat, body: Body, created: nat)

  const DAY := 86400

  /** Committed state: counters, issues and idempotency rows. Locks: which client has a project's row, which has
      inserted a key without committing. The rest is history: numbers ever committed, what requests with a key were
      answered, the keys of committed creations, and the first row that each key ever had. */
  datatype State = State(now: nat, counter: map<nat, nat>, issues: map<nat, set<nat>>, keys: map<nat, Row>, locks: map<nat, nat>,
                         inserting: map<nat, nat>, clients: seq<Phase>, ever: map<nat, seq<nat>>, replies: seq<Answer>,
                         made: seq<nat>, firsts: map<nat, Row>)

  // ----- steps -----

  ghost predicate Begin(s: State, c: nat, r: Request, s': State) {
    && c < |s.clients| && s.clients[c] == Idle && r.project in s.counter && r.count >= 1
    && s' == s.(clients := s.clients[c := Begun(r)])
  }

  /** Inserting the key: nothing happens while another transaction that inserted it is open. */
  ghost predicate TakeKey(s: State, c: nat, s': State) {
    && c < |s.clients| && s.clients[c].Begun?
    && var r := s.clients[c].r;
    if r.key.None? then s' == s.(clients := s.clients[c := Ready(r, s.now)])
    else if r.key.value in s.keys then s' == s.(clients := s.clients[c := Taken(r)])
    else
      && r.key.value !in s.inserting
      && s' == s.(clients := s.clients[c := Ready(r, s.now)], inserting := s.inserting[r.key.value := c])
  }

  predicate Fresh(row: Row, now: nat) {
    now < row.created + DAY
  }

  /** The key was taken: answer with what is stored, unless the request was another one. */
  ghost predicate Repeat(s: State, c: nat, s': State) {
    && c < |s.clients| && s.clients[c].Taken? && s.clients[c].r.key.Some? && s.clients[c].r.key.value in s.keys
    && var r := s.clients[c].r;
    var row := s.keys[r.key.value];
    && Fresh(row, s.now)
    && s' == s.(clients := s.clients[c := Idle],
             replies := s.replies + [Answer(r.key.value, r.hash, if row.hash == r.hash then Created(row.body) else KeyReused)])
  }

  /** The row is too old, or gone: try again, in the first case after deleting it. */
  ghost predicate TryAgain(s: State, c: nat, s': State) {
    && c < |s.clients| && s.clients[c].Taken? && s.clients[c].r.key.Some?
    && var r := s.clients[c].r;
    if r.key.value in s.keys then !Fresh(s.keys[r.key.value], s.now) && s' == s.(clients := s.clients[c := Stale(r)])
    else s' == s.(clients := s.clients[c := Begun(r)])
  }

  /** Deleting the row of a key, whatever it is by now. */
  ghost predicate DropKey(s: State, c: nat, s': State) {
    && c < |s.clients| && s.clients[c].Stale? && s.clients[c].r.key.Some?
    && s' == s.(clients := s.clients[c := Begun(s.clients[c].r)], keys := s.keys - {s.clients[c].r.key.value})
  }

  ghost predicate Tick(s: State, s': State) {
    s.now <= s'.now && s' == s.(now := s'.now)
  }

  /** Adding to the counter locks the project's row until the end of the transaction. */
  ghost predicate TakeNumbers(s: State, c: nat, s': State) {
    && c < |s.clients| && s.clients[c].Ready?
    && var r := s.clients[c].r;
    && r.project !in s.locks && r.project in s.counter
    && s' == s.(clients := s.clients[c := Numbered(r, s.counter[r.project] + 1, s.clients[c].at)], locks := s.locks[r.project := c])
  }

  function Numbers(first: nat, count: nat): seq<nat> {
    seq(count, i => first + i)
  }

  ghost predicate Commit(s: State, c: nat, s': State) {
    && c < |s.clients| && s.clients[c].Numbered?
    && var r, first := s.clients[c].r, s.clients[c].first;
    var body := Body(r.project, first, r.count, r.hash);
    var row := Row(r.hash, body, s.clients[c].at);
    && r.count >= 1 && r.project in s.ever && r.project in s.issues
    && s' == s.(counter := s.counter[r.project := first + r.count - 1],
                issues := s.issues[r.project := s.issues[r.project] + set x | x in Numbers(first, r.count)],
                ever := s.ever[r.project := s.ever[r.project] + Numbers(first, r.count)],
                locks := s.locks - {r.project}, clients := s.clients[c := Idle],
                keys := if r.key.Some? then s.keys[r.key.value := row] else s.keys,
                firsts := if r.key.Some? && r.key.value !in s.firsts then s.firsts[r.key.value := row] else s.firsts,
                inserting := if r.key.Some? then s.inserting - {r.key.value} else s.inserting,
                replies := if r.key.Some? then s.replies + [Answer(r.key.value, r.hash, Created(body))] else s.replies,
                made := if r.key.Some? then s.made + [r.key.value] else s.made)
  }

  /** Rolling back, whether by an error or a crash: everything the transaction held is given up. */
  ghost predicate Abort(s: State, c: nat, s': State) {
    && c < |s.clients| && s.clients[c] != Idle
    && var r := s.clients[c].r;
    s' == s.(clients := s.clients[c := Idle],
             locks := if s.clients[c].Numbered? then s.locks - {r.project} else s.locks,
             inserting := if (s.clients[c].Ready? || s.clients[c].Numbered?) && r.key.Some? then s.inserting - {r.key.value}
                          else s.inserting)
  }

  ghost predicate Delete(s: State, p: nat, n: nat, s': State) {
    p in s.issues && n in s.issues[p] && s' == s.(issues := s.issues[p := s.issues[p] - {n}])
  }

  ghost predicate NewProject(s: State, p: nat, s': State) {
    && p !in s.counter
    && s' == s.(counter := s.counter[p := 0], issues := s.issues[p := {}], ever := s.ever[p := []])
  }

  ghost predicate Step(s: State, s': State) {
    || (exists c, r :: Begin(s, c, r, s')) || (exists c :: TakeKey(s, c, s')) || (exists c :: Repeat(s, c, s'))
    || (exists c :: TakeNumbers(s, c, s')) || (exists c :: Commit(s, c, s')) || (exists c :: Abort(s, c, s'))
    || (exists c :: TryAgain(s, c, s')) || (exists c :: DropKey(s, c, s')) || Tick(s, s')
    || (exists p, n :: Delete(s, p, n, s')) || (exists p :: NewProject(s, p, s'))
  }

  // ----- numbers -----

  /** The numbers ever committed in a project are 1, 2, ... up to its counter, in this order. */
  ghost predicate GapFree(s: State) {
    && s.counter.Keys == s.ever.Keys == s.issues.Keys
    && (forall p :: p in s.counter ==> s.ever[p] == Numbers(1, s.counter[p]))
    && (forall p :: p in s.counter ==> forall n :: n in s.issues[p] ==> n in s.ever[p])
  }

  /** Who holds numbers holds the project's row, so the counter has not moved since. */
  ghost predicate LocksOk(s: State) {
    forall c :: 0 <= c < |s.clients| && s.clients[c].Numbered? ==>
      var r := s.clients[c].r;
      r.count >= 1 && r.project in s.locks && s.locks[r.project] == c && r.project in s.counter &&
      s.clients[c].first == s.counter[r.project] + 1
  }

  ghost predicate CountsOk(s: State) {
    forall c :: 0 <= c < |s.clients| && s.clients[c] != Idle ==> s.clients[c].r.count >= 1
  }

  lemma NumbersMore(n: nat, k: nat)
    ensures Numbers(1, n) + Numbers(n + 1, k) == Numbers(1, n + k)
  {}

  ghost predicate NumbersOk(s: State) {
    GapFree(s) && LocksOk(s) && CountsOk(s)
  }

  lemma CommitNumbers(s: State, c: nat, s': State)
    requires NumbersOk(s) && Commit(s, c, s')
    ensures NumbersOk(s')
  {
    var r := s.clients[c].r;
    NumbersMore(s.counter[r.project], r.count);
    assert s'.ever[r.project] == Numbers(1, s'.counter[r.project]);
    hide Numbers;
    forall n | n in s'.issues[r.project]
      ensures n in s'.ever[r.project]
    {
      assert n in s.ever[r.project] || n in Numbers(s.clients[c].first, r.count);
    }
    forall d | 0 <= d < |s.clients| && d != c && s.clients[d].Numbered?
      ensures s.clients[d].r.project != r.project
    {
      assert s.locks[s.clients[d].r.project] == d && s.locks[r.project] == c;
    }
  }

  lemma AbortNumbers(s: State, c: nat, s': State)
    requires NumbersOk(s) && Abort(s, c, s')
    ensures NumbersOk(s')
  {
    hide Numbers;
  }

  lemma TakeNumbersKeeps(s: State, c: nat, s': State)
    requires NumbersOk(s) && TakeNumbers(s, c, s')
    ensures NumbersOk(s')
  {
    hide Numbers;
  }

  lemma ProjectNumbers(s: State, p: nat, s': State)
    requires NumbersOk(s) && NewProject(s, p, s')
    ensures NumbersOk(s')
  {}

  lemma DeleteNumbers(s: State, p: nat, n: nat, s': State)
    requires NumbersOk(s) && Delete(s, p, n, s')
    ensures NumbersOk(s')
  {
    hide Numbers;
  }

  /** A client moves without touching numbers. */
  lemma ClientNumbers(s: State, c: nat, ph: Phase, s': State)
    requires NumbersOk(s) && c < |s.clients| && !s.clients[c].Numbered? && !ph.Numbered? && (ph != Idle ==> ph.r.count >= 1)
    requires s'.counter == s.counter && s'.issues == s.issues && s'.ever == s.ever && s'.locks == s.locks
    requires s'.clients == s.clients[c := ph]
    ensures NumbersOk(s')
  {
    hide Numbers;
  }

  lemma TakeKeyNumbers(s: State, c: nat, s': State)
    requires NumbersOk(s) && TakeKey(s, c, s')
    ensures NumbersOk(s')
  {
    assert s.clients[c].r.count >= 1;
    ClientNumbers(s, c, s'.clients[c], s');
  }

  lemma MoveNumbers(s: State, c: nat, s': State)
    requires NumbersOk(s) && (TryAgain(s, c, s') || DropKey(s, c, s') || Repeat(s, c, s'))
    ensures NumbersOk(s')
  {
    hide Numbers, GapFree, LocksOk;
    assert s.clients[c].r.count >= 1;
    ClientNumbers(s, c, s'.clients[c], s');
  }

  lemma BeginNumbers(s: State, c: nat, r: Request, s': State)
    requires NumbersOk(s) && Begin(s, c, r, s')
    ensures NumbersOk(s')
  {
    ClientNumbers(s, c, Begun(r), s');
  }

  lemma TickNumbers(s: State, s': State)
    requires NumbersOk(s) && Tick(s, s')
    ensures NumbersOk(s')
  {}

  lemma NumbersStep(s: State, s': State)
    requires NumbersOk(s) && Step(s, s')
    ensures NumbersOk(s')
  {
    hide NumbersOk, Begin, TakeKey, Repeat, TakeNumbers, Commit, Abort, TryAgain, DropKey, Delete, NewProject, Tick;
    if c, r :| Begin(s, c, r, s') {
      BeginNumbers(s, c, r, s');
    } else if c :| TakeKey(s, c, s') {
      TakeKeyNumbers(s, c, s');
    } else if c :| Repeat(s, c, s') {
      MoveNumbers(s, c, s');
    } else if c :| TakeNumbers(s, c, s') {
      TakeNumbersKeeps(s, c, s');
    } else if c :| Commit(s, c, s') {
      CommitNumbers(s, c, s');
    } else if c :| Abort(s, c, s') {
      AbortNumbers(s, c, s');
    } else if c :| TryAgain(s, c, s') {
      MoveNumbers(s, c, s');
    } else if c :| DropKey(s, c, s') {
      MoveNumbers(s, c, s');
    } else if Tick(s, s') {
      TickNumbers(s, s');
    } else if p: nat, n: nat :| Delete(s, p, n, s') {
      DeleteNumbers(s, p, n, s');
    } else if p: nat :| NewProject(s, p, s') {
      ProjectNumbers(s, p, s');
    }
  }

  // ----- idempotency -----

  ghost predicate HoldsKey(ph: Phase, k: nat) {
    (ph.Ready? || ph.Numbered?) && ph.r.key == Some(k)
  }

  /** A key is inserted by exactly the transaction that will store its result, and only while it is unused. */
  ghost predicate InsertingOk(s: State) {
    && (forall k :: k in s.inserting ==>
         k !in s.keys && s.inserting[k] < |s.clients| && HoldsKey(s.clients[s.inserting[k]], k))
    && (forall c, k :: 0 <= c < |s.clients| && HoldsKey(s.clients[c], k) ==> k in s.inserting && s.inserting[k] == c)
  }

  function Times(xs: seq<nat>, k: nat): nat {
    if xs == [] then 0 else Times(xs[..|xs| - 1], k) + (if xs[|xs| - 1] == k then 1 else 0)
  }

  /** Until its first row is a day old, a key has had one creation, the row is there, nobody is about to delete it, and
      every request that asked the same got what is stored, every other one the error. A key without a first row was
      never used. */
  ghost predicate KeyOk(s: State, k: nat) {
    if k !in s.firsts then
      k !in s.keys && Times(s.made, k) == 0 && (forall i :: 0 <= i < |s.replies| ==> s.replies[i].key != k) && NotStale(s, k)
    else
      Fresh(s.firsts[k], s.now) ==>
        && k in s.keys && s.keys[k] == s.firsts[k] && Times(s.made, k) == 1 && NotStale(s, k)
        && (forall i :: 0 <= i < |s.replies| && s.replies[i].key == k ==>
             s.replies[i].reply == if s.replies[i].hash == s.firsts[k].hash then Created(s.firsts[k].body) else KeyReused)
  }

  ghost predicate NotStale(s: State, k: nat) {
    forall c :: 0 <= c < |s.clients| && s.clients[c].Stale? ==> s.clients[c].r.key != Some(k)
  }

  ghost predicate HistoryOk(s: State) {
    forall k :: KeyOk(s, k)
  }

  ghost predicate KeysOk(s: State) {
    InsertingOk(s) && HistoryOk(s)
  }

  lemma TimesMore(xs: seq<nat>, x: nat, k: nat)
    ensures Times(xs + [x], k) == Times(xs, k) + if x == k then 1 else 0
  {}

  lemma CommitKey(s: State, c: nat, s': State, k: nat)
    requires KeysOk(s) && Commit(s, c, s')
    ensures KeyOk(s', k)
  {
    hide Times;
    assert KeyOk(s, k);
    var key := s.clients[c].r.key;
    if key.Some? {
      TimesMore(s.made, key.value, k);
      assert HoldsKey(s.clients[c], key.value);
    }
  }

  lemma CommitKeys(s: State, c: nat, s': State)
    requires KeysOk(s) && Commit(s, c, s')
    ensures KeysOk(s')
  {
    hide KeyOk;
    forall k
      ensures KeyOk(s', k)
    {
      CommitKey(s, c, s', k);
    }
    CommitInserting(s, c, s');
  }

  lemma CommitInserting(s: State, c: nat, s': State)
    requires InsertingOk(s) && Commit(s, c, s')
    ensures InsertingOk(s')
  {
    var key := s.clients[c].r.key;
    if key.Some? {
      assert HoldsKey(s.clients[c], key.value);
    }
  }

  /** A client moves; keys and history stay, and if it is about to delete a row, that row is too old. */
  lemma HistoryMoves(s: State, c: nat, s': State)
    requires HistoryOk(s) && c < |s.clients| == |s'.clients| && s'.clients == s.clients[c := s'.clients[c]]
    requires s'.keys == s.keys && s'.replies == s.replies && s'.made == s.made && s'.firsts == s.firsts && s'.now == s.now
    requires s'.clients[c].Stale? && s'.clients[c].r.key.Some? ==>
      var k := s'.clients[c].r.key.value; k in s.keys && !Fresh(s.keys[k], s.now)
    ensures HistoryOk(s')
  {
    forall k
      ensures KeyOk(s', k)
    {
      assert KeyOk(s, k);
    }
  }

  lemma RepeatHistory(s: State, c: nat, s': State)
    requires HistoryOk(s) && Repeat(s, c, s')
    ensures HistoryOk(s')
  {
    hide Times;
    forall k
      ensures KeyOk(s', k)
    {
      assert KeyOk(s, k);
    }
  }

  lemma DropHistory(s: State, c: nat, s': State)
    requires HistoryOk(s) && DropKey(s, c, s')
    ensures HistoryOk(s')
  {
    hide Times;
    forall k
      ensures KeyOk(s', k)
    {
      assert KeyOk(s, k);
    }
  }

  lemma TickHistory(s: State, s': State)
    requires HistoryOk(s) && Tick(s, s')
    ensures HistoryOk(s')
  {
    hide Times;
    forall k
      ensures KeyOk(s', k)
    {
      assert KeyOk(s, k);
    }
  }

  /** A client that neither takes nor gives up a key. */
  lemma InsertingMoves(s: State, c: nat, s': State)
    requires InsertingOk(s) && c < |s.clients| == |s'.clients| && s'.clients == s.clients[c := s'.clients[c]]
    requires s'.inserting == s.inserting && (forall k :: k in s'.keys ==> k in s.keys)
    requires forall k :: HoldsKey(s'.clients[c], k) <==> HoldsKey(s.clients[c], k)
    ensures InsertingOk(s')
  {
    forall d, k | 0 <= d < |s'.clients| && HoldsKey(s'.clients[d], k)
      ensures k in s'.inserting && s'.inserting[k] == d
    {
      assert HoldsKey(s.clients[d], k);
    }
  }

  lemma TakeKeyInserting(s: State, c: nat, s': State)
    requires InsertingOk(s) && TakeKey(s, c, s')
    ensures InsertingOk(s')
  {
    hide InsertingOk;
    var key := s.clients[c].r.key;
    if key.None? || key.value in s.keys {
      InsertingMoves(s, c, s');
    } else {
      TakeFreeKey(s, c, key.value, s');
    }
  }

  lemma TakeFreeKey(s: State, c: nat, k: nat, s': State)
    requires InsertingOk(s) && c < |s.clients| && s.clients[c].Begun? && s.clients[c].r.key == Some(k) && k !in s.keys && k !in s.inserting
    requires s' == s.(clients := s.clients[c := Ready(s.clients[c].r, s.now)], inserting := s.inserting[k := c])
    ensures InsertingOk(s')
  {}

  lemma AbortInserting(s: State, c: nat, s': State)
    requires InsertingOk(s) && Abort(s, c, s')
    ensures InsertingOk(s')
  {}

  lemma MoveInserting(s: State, c: nat, s': State)
    requires InsertingOk(s)
    requires (exists r :: Begin(s, c, r, s')) || Repeat(s, c, s') || TakeNumbers(s, c, s') || TryAgain(s, c, s') || DropKey(s, c, s')
    ensures InsertingOk(s')
  {
    hide InsertingOk;
    InsertingMoves(s, c, s');
  }

  lemma InsertingStep(s: State, s': State)
    requires InsertingOk(s) && Step(s, s')
    ensures InsertingOk(s')
  {
    hide InsertingOk, Begin, TakeKey, Repeat, TakeNumbers, Commit, Abort, TryAgain, DropKey;
    if c, r :| Begin(s, c, r, s') {
      MoveInserting(s, c, s');
    } else if c :| TakeKey(s, c, s') {
      TakeKeyInserting(s, c, s');
    } else if c :| Repeat(s, c, s') {
      MoveInserting(s, c, s');
    } else if c :| TakeNumbers(s, c, s') {
      MoveInserting(s, c, s');
    } else if c :| Commit(s, c, s') {
      CommitInserting(s, c, s');
    } else if c :| Abort(s, c, s') {
      AbortInserting(s, c, s');
    } else if c :| TryAgain(s, c, s') {
      MoveInserting(s, c, s');
    } else if c :| DropKey(s, c, s') {
      MoveInserting(s, c, s');
    } else {
      SameInserting(s, s');
    }
  }

  lemma SameInserting(s: State, s': State)
    requires InsertingOk(s) && s'.keys == s.keys && s'.inserting == s.inserting && s'.clients == s.clients
    ensures InsertingOk(s')
  {}

  lemma BeginHistory(s: State, c: nat, r: Request, s': State)
    requires HistoryOk(s) && Begin(s, c, r, s')
    ensures HistoryOk(s')
  {
    hide HistoryOk;
    HistoryMoves(s, c, s');
  }

  lemma MoveHistory(s: State, c: nat, s': State)
    requires HistoryOk(s) && (TakeKey(s, c, s') || TakeNumbers(s, c, s'))
    ensures HistoryOk(s')
  {
    hide HistoryOk;
    HistoryMoves(s, c, s');
  }

  lemma BackHistory(s: State, c: nat, s': State)
    requires HistoryOk(s) && (Abort(s, c, s') || TryAgain(s, c, s'))
    ensures HistoryOk(s')
  {
    hide HistoryOk;
    HistoryMoves(s, c, s');
  }

  lemma HistoryStep(s: State, s': State)
    requires KeysOk(s) && Step(s, s')
    ensures HistoryOk(s')
  {
    hide HistoryOk, InsertingOk, Begin, TakeKey, Repeat, TakeNumbers, Commit, Abort, TryAgain, DropKey, Tick;
    if c, r :| Begin(s, c, r, s') {
      BeginHistory(s, c, r, s');
    } else if c :| TakeKey(s, c, s') {
      MoveHistory(s, c, s');
    } else if c :| Repeat(s, c, s') {
      RepeatHistory(s, c, s');
    } else if c :| TakeNumbers(s, c, s') {
      MoveHistory(s, c, s');
    } else if c :| Commit(s, c, s') {
      CommitKeys(s, c, s');
    } else if c :| Abort(s, c, s') {
      BackHistory(s, c, s');
    } else if c :| TryAgain(s, c, s') {
      BackHistory(s, c, s');
    } else if c :| DropKey(s, c, s') {
      DropHistory(s, c, s');
    } else if Tick(s, s') {
      TickHistory(s, s');
    } else {
      SameHistory(s, s');
    }
  }

  lemma SameHistory(s: State, s': State)
    requires HistoryOk(s) && s'.keys == s.keys && s'.clients == s.clients && s'.now == s.now
    requires s'.replies == s.replies && s'.made == s.made && s'.firsts == s.firsts
    ensures HistoryOk(s')
  {
    forall k
      ensures KeyOk(s', k)
    {
      assert KeyOk(s, k);
    }
  }

  lemma KeysStep(s: State, s': State)
    requires KeysOk(s) && Step(s, s')
    ensures KeysOk(s')
  {
    hide Step, InsertingOk, HistoryOk;
    InsertingStep(s, s');
    HistoryStep(s, s');
  }

  // ----- whole runs -----

  ghost predicate Initial(s: State) {
    && s.counter == map[] && s.issues == map[] && s.keys == map[] && s.locks == map[] && s.inserting == map[] && s.ever == map[]
    && s.replies == [] && s.made == [] && s.firsts == map[] && forall c :: 0 <= c < |s.clients| ==> s.clients[c] == Idle
  }

  ghost predicate Run(ss: seq<State>) {
    |ss| > 0 && Initial(ss[0]) && forall i :: 0 <= i < |ss| - 1 ==> Step(ss[i], ss[i + 1])
  }

  lemma {:induction false} EveryState(ss: seq<State>, i: nat)
    requires Run(ss) && i < |ss|
    ensures NumbersOk(ss[i]) && KeysOk(ss[i])
  {
    hide Step;
    if i > 0 {
      EveryState(ss, i - 1);
      NumbersStep(ss[i - 1], ss[i]);
      KeysStep(ss[i - 1], ss[i]);
    }
  }

  /** In every interleaving, with rollbacks and deletions, the numbers ever committed in a project are exactly
      1, ..., n without gaps or repetitions, n being its counter. */
  lemma NumbersAreGapFree(ss: seq<State>, i: nat, p: nat)
    requires Run(ss) && i < |ss| && p in ss[i].counter
    ensures p in ss[i].ever && ss[i].ever[p] == Numbers(1, ss[i].counter[p])
    ensures forall a, b :: 0 <= a < b < |ss[i].ever[p]| ==> ss[i].ever[p][a] != ss[i].ever[p][b]
    ensures forall n :: n in ss[i].ever[p] <==> 1 <= n <= ss[i].counter[p]
  {
    EveryState(ss, i);
    var e := ss[i].ever[p];
    forall n: nat | 1 <= n <= ss[i].counter[p]
      ensures n in e
    {
      assert e[n - 1] == n;
    }
  }

  /** For a key that was not used before, until a day after the transaction that first created something for it began:
      exactly one request has created issues; every request with the hash of that one was answered with what it created,
      and every other request with the error that the key is in use. */
  lemma OneCreationPerKey(ss: seq<State>, i: nat, k: nat)
    requires Run(ss) && i < |ss|
    ensures k !in ss[i].firsts ==> Times(ss[i].made, k) == 0 && forall a :: 0 <= a < |ss[i].replies| ==> ss[i].replies[a].key != k
    ensures k in ss[i].firsts && ss[i].now < ss[i].firsts[k].created + 86400 ==>
      && Times(ss[i].made, k) == 1
      && (forall a :: 0 <= a < |ss[i].replies| && ss[i].replies[a].key == k && ss[i].replies[a].hash == ss[i].firsts[k].hash ==>
           ss[i].replies[a].reply == Created(ss[i].firsts[k].body))
      && (forall a :: 0 <= a < |ss[i].replies| && ss[i].replies[a].key == k && ss[i].replies[a].hash != ss[i].firsts[k].hash ==>
           ss[i].replies[a].reply == KeyReused)
  {
    hide Times;
    EveryState(ss, i);
    assert KeyOk(ss[i], k);
  }

  // ----- bodies -----

  /** The numbers that a body names were committed. */
  ghost predicate BodyOk(s: State, b: Body) {
    b.count >= 1 && b.first >= 1 && b.project in s.counter && b.first + b.count - 1 <= s.counter[b.project]
  }

  /** What is stored and what was replied is what the request with that hash asked for. */
  ghost predicate BodiesOk(s: State) {
    && (forall k :: k in s.keys ==> s.keys[k].body.hash == s.keys[k].hash && BodyOk(s, s.keys[k].body))
    && (forall i :: 0 <= i < |s.replies| && s.replies[i].reply.Created? ==>
         s.replies[i].reply.body.hash == s.replies[i].hash && BodyOk(s, s.replies[i].reply.body))
  }

  lemma CommitBodies(s: State, c: nat, s': State)
    requires NumbersOk(s) && BodiesOk(s) && Commit(s, c, s')
    ensures BodiesOk(s')
  {
    hide Numbers, GapFree;
    CommitCounter(s, c, s');
    forall b: Body | BodyOk(s, b)
      ensures BodyOk(s', b)
    {}
  }

  lemma CommitCounter(s: State, c: nat, s': State)
    requires LocksOk(s) && Commit(s, c, s')
    ensures var r, first := s.clients[c].r, s.clients[c].first;
      && first >= 1 && BodyOk(s', Body(r.project, first, r.count, r.hash))
      && forall p :: p in s.counter ==> p in s'.counter && s.counter[p] <= s'.counter[p]
  {}

  lemma RepeatBodies(s: State, c: nat, s': State)
    requires BodiesOk(s) && Repeat(s, c, s')
    ensures BodiesOk(s')
  {
    forall b: Body | BodyOk(s, b)
      ensures BodyOk(s', b)
    {}
  }

  /** Rows at most go, answers stay, and counters do not move. */
  lemma SameBodies(s: State, s': State)
    requires BodiesOk(s) && s'.replies == s.replies && (forall k :: k in s'.keys ==> k in s.keys && s'.keys[k] == s.keys[k])
    requires forall p :: p in s.counter ==> p in s'.counter && s'.counter[p] == s.counter[p]
    ensures BodiesOk(s')
  {
    forall b: Body | BodyOk(s, b)
      ensures BodyOk(s', b)
    {}
  }

  lemma BeginBodies(s: State, c: nat, r: Request, s': State)
    requires BodiesOk(s) && Begin(s, c, r, s')
    ensures BodiesOk(s')
  {
    hide BodiesOk;
    SameBodies(s, s');
  }

  lemma TakeKeyBodies(s: State, c: nat, s': State)
    requires BodiesOk(s) && TakeKey(s, c, s')
    ensures BodiesOk(s')
  {
    hide BodiesOk;
    SameBodies(s, s');
  }

  lemma TakeNumbersBodies(s: State, c: nat, s': State)
    requires BodiesOk(s) && TakeNumbers(s, c, s')
    ensures BodiesOk(s')
  {
    hide BodiesOk;
    SameBodies(s, s');
  }

  lemma AbortBodies(s: State, c: nat, s': State)
    requires BodiesOk(s) && Abort(s, c, s')
    ensures BodiesOk(s')
  {
    hide BodiesOk;
    SameBodies(s, s');
  }

  lemma TryAgainBodies(s: State, c: nat, s': State)
    requires BodiesOk(s) && TryAgain(s, c, s')
    ensures BodiesOk(s')
  {
    hide BodiesOk;
    SameBodies(s, s');
  }

  lemma DropKeyBodies(s: State, c: nat, s': State)
    requires BodiesOk(s) && DropKey(s, c, s')
    ensures BodiesOk(s')
  {
    hide BodiesOk;
    SameBodies(s, s');
  }

  lemma BodiesStep(s: State, s': State)
    requires NumbersOk(s) && BodiesOk(s) && Step(s, s')
    ensures BodiesOk(s')
  {
    hide NumbersOk, BodiesOk, Begin, TakeKey, Repeat, TakeNumbers, Commit, Abort, TryAgain, DropKey;
    if c, r :| Begin(s, c, r, s') {
      BeginBodies(s, c, r, s');
    } else if c :| TakeKey(s, c, s') {
      TakeKeyBodies(s, c, s');
    } else if c :| Repeat(s, c, s') {
      RepeatBodies(s, c, s');
    } else if c :| TakeNumbers(s, c, s') {
      TakeNumbersBodies(s, c, s');
    } else if c :| Commit(s, c, s') {
      CommitBodies(s, c, s');
    } else if c :| Abort(s, c, s') {
      AbortBodies(s, c, s');
    } else if c :| TryAgain(s, c, s') {
      TryAgainBodies(s, c, s');
    } else if c :| DropKey(s, c, s') {
      DropKeyBodies(s, c, s');
    } else {
      SameBodies(s, s');
    }
  }

  lemma {:induction false} EveryBody(ss: seq<State>, i: nat)
    requires Run(ss) && i < |ss|
    ensures BodiesOk(ss[i])
  {
    hide Step, NumbersOk, KeysOk;
    if i > 0 {
      EveryBody(ss, i - 1);
      EveryState(ss, i - 1);
      BodiesStep(ss[i - 1], ss[i]);
    }
  }

  /** Whoever is told that issues were created is told of issues with the hash of its own request, and their numbers were
      committed: also long after the first row of the key is gone. */
  lemma ToldWhatWasAsked(ss: seq<State>, i: nat, a: nat)
    requires Run(ss) && i < |ss| && a < |ss[i].replies| && ss[i].replies[a].reply.Created?
    ensures var body, s := ss[i].replies[a].reply.body, ss[i];
      && body.hash == s.replies[a].hash && body.count >= 1 && body.project in s.ever
      && forall n :: body.first <= n < body.first + body.count ==> n in s.ever[body.project]
  {
    EveryBody(ss, i);
    EveryState(ss, i);
    var body, s := ss[i].replies[a].reply.body, ss[i];
    assert BodyOk(s, body);
    forall n: nat | body.first <= n < body.first + body.count
      ensures n in s.ever[body.project]
    {
      assert s.ever[body.project][n - 1] == n;
    }
  }

  /** The first row of a key never changes. */
  lemma {:induction false} FirstStays(ss: seq<State>, i: nat, j: nat, k: nat)
    requires Run(ss) && i <= j < |ss| && k in ss[i].firsts
    ensures k in ss[j].firsts && ss[j].firsts[k] == ss[i].firsts[k]
    decreases j
  {
    hide Step, Initial;
    if i < j {
      FirstStays(ss, i, j - 1, k);
      assert Step(ss[j - 1], ss[j]);
      FirstStep(ss[j - 1], ss[j], k);
    }
  }

  lemma FirstStep(s: State, s': State, k: nat)
    requires Step(s, s') && k in s.firsts
    ensures k in s'.firsts && s'.firsts[k] == s.firsts[k]
  {
    hide Begin, TakeKey, Repeat, TakeNumbers, Commit, Abort, TryAgain, DropKey;
    if c, r :| Begin(s, c, r, s') {
      FirstMove(s, c, s');
    } else if c :| TakeKey(s, c, s') {
      FirstMove(s, c, s');
    } else if c :| Repeat(s, c, s') {
      FirstBack(s, c, s');
    } else if c :| TakeNumbers(s, c, s') {
      FirstBack(s, c, s');
    } else if c :| Abort(s, c, s') {
      FirstBack(s, c, s');
    } else if c :| TryAgain(s, c, s') {
      FirstDrop(s, c, s');
    } else if c :| DropKey(s, c, s') {
      FirstDrop(s, c, s');
    } else if c :| Commit(s, c, s') {
      FirstCommit(s, c, s', k);
    }
  }

  lemma FirstMove(s: State, c: nat, s': State)
    requires (exists r :: Begin(s, c, r, s')) || TakeKey(s, c, s')
    ensures s'.firsts == s.firsts
  {}

  lemma FirstDrop(s: State, c: nat, s': State)
    requires TryAgain(s, c, s') || DropKey(s, c, s')
    ensures s'.firsts == s.firsts
  {}

  lemma FirstBack(s: State, c: nat, s': State)
    requires Repeat(s, c, s') || TakeNumbers(s, c, s') || Abort(s, c, s')
    ensures s'.firsts == s.firsts
  {}

  lemma FirstCommit(s: State, c: nat, s': State, k: nat)
    requires Commit(s, c, s') && k in s.firsts
    ensures k in s'.firsts && s'.firsts[k] == s.firsts[k]
  {}
}
