/** Webhook deliveries: emitting under the issue's lock, claiming in order, sending, recording, crashing. */
module TrackerWebhooks {

  const MAX_ATTEMPTS := 6
  const LEASE := 15000

  datatype Status = Pending | Succeeded | Failed

  /** `num` is the number the database gave the row; `lease` is 0 when there is none. */
  datatype Delivery = Delivery(hook: nat, issue: nat, num: nat, status: Status, attempts: nat, next: int, lease: int)

  /** A transaction that holds an issue's lock and has inserted deliveries that nobody else sees yet. */
  datatype Emitter = Emitter(issue: nat, rows: seq<Delivery>)

  /** A send in progress: the delivery and the number of attempts its row had when it was claimed. */
  datatype Attempt = Attempt(id: nat, attempts: nat)

  /** A send that was completed: which attempt it was, whether the receiver accepted it, whether the row was still pending
      when that was to be recorded, and when that was. */
  datatype Sent = Sent(id: nat, attempt: nat, ok: bool, pending: bool, at: int)

  /** Deliveries are numbered in the order in which they became visible. `scale` is the first delay before a retry.
      The rest is history: which were ever claimed, how many sends of each were completed, and what came of every send. */
  datatype State = State(rows: seq<Delivery>, emitters: map<nat, Emitter>, nextSeq: nat, inflight: multiset<Attempt>, now: int,
                         active: set<nat>, scale: int, claimed: set<nat>, sent: seq<nat>, log: seq<Sent>)

  // ----- steps -----

  /** Takes the lock of an issue (or makes a new issue): no other transaction has it. */
  ghost predicate Lock(s: State, tx: nat, issue: nat, s': State) {
    && tx !in s.emitters && (forall t :: t in s.emitters ==> s.emitters[t].issue != issue)
    && s' == s.(emitters := s.emitters[tx := Emitter(issue, [])])
  }

  /** Inserts a delivery; the database numbers it at once. */
  ghost predicate Insert(s: State, tx: nat, hook: nat, s': State) {
    && tx in s.emitters
    && var e := s.emitters[tx];
    var row := Delivery(hook, e.issue, s.nextSeq, Pending, 0, s.now, 0);
    s' == s.(emitters := s.emitters[tx := e.(rows := e.rows + [row])], nextSeq := s.nextSeq + 1)
  }

  ghost predicate Commit(s: State, tx: nat, s': State) {
    && tx in s.emitters
    && s' == s.(rows := s.rows + s.emitters[tx].rows, emitters := s.emitters - {tx},
                sent := s.sent + seq(|s.emitters[tx].rows|, i => 0))
  }

  ghost predicate Abort(s: State, tx: nat, s': State) {
    tx in s.emitters && s' == s.(emitters := s.emitters - {tx})
  }

  ghost predicate SameChain(a: Delivery, b: Delivery) {
    a.hook == b.hook && a.issue == b.issue
  }

  /** Every visible delivery for the same webhook and issue with a smaller number is over. */
  ghost predicate Head(rows: seq<Delivery>, id: nat)
    requires id < |rows|
  {
    forall e :: 0 <= e < |rows| && SameChain(rows[e], rows[id]) && rows[e].num < rows[id].num ==> rows[e].status != Pending
  }

  /** One statement: pending, due, not leased, head of its chain, webhook active. */
  ghost predicate Claim(s: State, id: nat, s': State) {
    && id < |s.rows|
    && var d := s.rows[id];
    && d.status == Pending && d.next <= s.now && (d.lease == 0 || d.lease < s.now) && d.hook in s.active && Head(s.rows, id)
    && s' == s.(rows := s.rows[id := d.(lease := s.now + LEASE)], inflight := s.inflight + multiset{Attempt(id, d.attempts)},
                claimed := s.claimed + {id})
  }

  /** The delays before the retries, in units of the first. */
  const DELAYS := [1, 2, 4, 8, 16]

  function Recorded(d: Delivery, attempts: nat, ok: bool, now: int, scale: int): Delivery
    requires attempts >= 1
  {
    if d.status != Pending then d
    else if ok then d.(status := Succeeded, attempts := attempts, lease := 0)
    else if attempts >= MAX_ATTEMPTS then d.(status := Failed, attempts := attempts, lease := 0)
    else d.(attempts := attempts, next := now + DELAYS[attempts - 1] * scale, lease := 0)
  }

  /** A send is over; its result is recorded only if the row is still pending. */
  ghost predicate Record(s: State, a: Attempt, ok: bool, s': State) {
    && a in s.inflight && a.id < |s.rows| && a.id < |s.sent|
    && s' == s.(rows := s.rows[a.id := Recorded(s.rows[a.id], a.attempts + 1, ok, s.now, s.scale)],
                inflight := s.inflight - multiset{a}, sent := s.sent[a.id := s.sent[a.id] + 1],
                log := s.log + [Sent(a.id, a.attempts + 1, ok, s.rows[a.id].status == Pending, s.now)])
  }

  /** A worker dies with some sends in progress. */
  ghost predicate Crash(s: State, lost: multiset<Attempt>, s': State) {
    lost <= s.inflight && s' == s.(inflight := s.inflight - lost)
  }

  ghost predicate Tick(s: State, now: int, active: set<nat>, s': State) {
    s.now <= now && s' == s.(now := now, active := active)
  }

  ghost predicate Step(s: State, s': State) {
    || (exists tx, issue :: Lock(s, tx, issue, s')) || (exists tx, hook :: Insert(s, tx, hook, s'))
    || (exists tx :: Commit(s, tx, s')) || (exists tx :: Abort(s, tx, s')) || (exists id :: Claim(s, id, s'))
    || (exists a, ok :: Record(s, a, ok, s')) || (exists lost :: Crash(s, lost, s'))
    || (exists now, active :: Tick(s, now, active, s'))
  }

  // ----- what every step keeps -----

  /** Numbers not yet committed come after all visible ones of the same issue, in the order of insertion. */
  ghost predicate EmitterOk(s: State, tx: nat)
    requires tx in s.emitters
  {
    var e := s.emitters[tx];
    && (forall k :: 0 <= k < |e.rows| ==> NewRow(e.rows[k], e.issue, s.nextSeq))
    && (forall k, l :: 0 <= k < l < |e.rows| ==> e.rows[k].num < e.rows[l].num)
    && (forall i, k :: 0 <= i < |s.rows| && s.rows[i].issue == e.issue && 0 <= k < |e.rows| ==> s.rows[i].num < e.rows[k].num)
  }

  ghost predicate NewRow(r: Delivery, issue: nat, nextSeq: nat) {
    r.issue == issue && r.num < nextSeq && r.status == Pending && r.attempts == 0
  }

  /** An open row has fewer attempts than the limit, a failed one exactly the limit, and each was really made. */
  ghost predicate RowOk(d: Delivery, sent: nat, nextSeq: nat) {
    && d.num < nextSeq && d.attempts <= sent
    && (d.status == Pending ==> d.attempts < MAX_ATTEMPTS) && (d.status == Failed ==> d.attempts == MAX_ATTEMPTS)
  }

  /** Visible rows of an issue are numbered in the order in which they became visible. */
  ghost predicate InOrder(rows: seq<Delivery>) {
    forall i, j :: 0 <= i < j < |rows| && rows[i].issue == rows[j].issue ==> rows[i].num < rows[j].num
  }

  ghost predicate Inv(s: State) {
    && |s.sent| == |s.rows| && InOrder(s.rows)
    && (forall i :: 0 <= i < |s.rows| ==> RowOk(s.rows[i], s.sent[i], s.nextSeq))
    && (forall tx :: tx in s.emitters ==> EmitterOk(s, tx))
    && (forall t, u :: t in s.emitters && u in s.emitters && t != u ==> s.emitters[t].issue != s.emitters[u].issue)
    && (forall a :: a in s.inflight ==> a.id < |s.rows| && a.attempts < MAX_ATTEMPTS && a.attempts <= s.sent[a.id] && a.id in s.claimed)
    && (forall id :: id in s.claimed ==> id < |s.rows| && Head(s.rows, id))
  }

  ghost predicate Initial(s: State) {
    s.rows == [] && s.emitters == map[] && s.inflight == multiset{} && s.claimed == {} && s.sent == [] && s.log == []
  }

  lemma InsertKeeps(s: State, tx: nat, hook: nat, s': State)
    requires Inv(s) && Insert(s, tx, hook, s')
    ensures Inv(s')
  {
    forall t | t in s'.emitters
      ensures EmitterOk(s', t)
    {
      assert EmitterOk(s, t);
    }
  }

  /** Committing keeps numbers in order because the issue was locked all along. */
  lemma CommitKeeps(s: State, tx: nat, s': State)
    requires Inv(s) && Commit(s, tx, s')
    ensures Inv(s')
  {
    var e, n := s.emitters[tx], |s.rows|;
    assert EmitterOk(s, tx);
    assert forall i :: 0 <= i < |s'.rows| ==> s'.rows[i] == if i < n then s.rows[i] else e.rows[i - n];
    forall t | t in s'.emitters
      ensures EmitterOk(s', t)
    {
      assert EmitterOk(s, t) && s.emitters[t].issue != e.issue;
      forall i | n <= i < |s'.rows|
        ensures s'.rows[i].issue == e.issue
      {
        assert NewRow(e.rows[i - n], e.issue, s.nextSeq);
      }
    }
    forall i | 0 <= i < |s'.rows|
      ensures RowOk(s'.rows[i], s'.sent[i], s'.nextSeq)
    {
      if i < n {
        assert RowOk(s.rows[i], s.sent[i], s.nextSeq);
      } else {
        assert NewRow(e.rows[i - n], e.issue, s.nextSeq);
      }
    }
    CommittedInOrder(s, tx, s');
    forall id | id in s'.claimed
      ensures Head(s'.rows, id)
    {
      assert Head(s.rows, id);
      forall k | n <= k < |s'.rows| && SameChain(s'.rows[k], s'.rows[id])
        ensures s'.rows[k].num > s'.rows[id].num
      {
        assert NewRow(e.rows[k - n], e.issue, s.nextSeq);
      }
    }
  }

  lemma CommittedInOrder(s: State, tx: nat, s': State)
    requires Inv(s) && Commit(s, tx, s')
    ensures InOrder(s'.rows)
  {
    var e, n := s.emitters[tx], |s.rows|;
    assert EmitterOk(s, tx);
    forall i, j | 0 <= i < j < |s'.rows| && s'.rows[i].issue == s'.rows[j].issue
      ensures s'.rows[i].num < s'.rows[j].num
    {
      if j >= n {
        assert NewRow(e.rows[j - n], e.issue, s.nextSeq) && s'.rows[j] == e.rows[j - n];
        if i >= n {
          assert s'.rows[i] == e.rows[i - n];
        }
      }
    }
  }

  /** A claim is made only when every earlier delivery of the chain is over. */
  lemma ClaimKeeps(s: State, id: nat, s': State)
    requires Inv(s) && Claim(s, id, s')
    ensures Inv(s')
  {
    forall c | c in s'.claimed
      ensures c < |s'.rows| && Head(s'.rows, c)
    {
      assert c == id || Head(s.rows, c);
    }
    forall t | t in s'.emitters
      ensures EmitterOk(s', t)
    {
      assert EmitterOk(s, t);
    }
    assert RowOk(s.rows[id], s.sent[id], s.nextSeq);
  }

  lemma RecordKeeps(s: State, a: Attempt, ok: bool, s': State)
    requires Inv(s) && Record(s, a, ok, s')
    ensures Inv(s')
  {
    assert RowOk(s.rows[a.id], s.sent[a.id], s.nextSeq);
    var d, d' := s.rows[a.id], s'.rows[a.id];
    assert SameChain(d', d) && d'.num == d.num && d'.issue == d.issue && (d.status != Pending ==> d'.status != Pending);
    assert RowOk(d', s'.sent[a.id], s'.nextSeq);
    hide Recorded, RowOk;
    forall c | c in s'.claimed
      ensures Head(s'.rows, c)
    {
      assert Head(s.rows, c);
    }
    forall t | t in s'.emitters
      ensures EmitterOk(s', t)
    {
      assert EmitterOk(s, t);
    }
  }

  /** Steps that change no row and number none. */
  ghost predicate Quiet(s: State, s': State) {
    || (exists tx, issue :: Lock(s, tx, issue, s')) || (exists tx :: Abort(s, tx, s'))
    || (exists lost :: Crash(s, lost, s')) || (exists now, active :: Tick(s, now, active, s'))
  }

  lemma QuietKeeps(s: State, s': State)
    requires Inv(s) && Quiet(s, s')
    ensures Inv(s')
  {
    hide Inv;
    if tx, issue :| Lock(s, tx, issue, s') {
      LockKeeps(s, tx, issue, s');
    } else {
      FewerKeep(s, s');
    }
  }

  lemma LockKeeps(s: State, tx: nat, issue: nat, s': State)
    requires Inv(s) && Lock(s, tx, issue, s')
    ensures Inv(s')
  {
    forall t | t in s'.emitters
      ensures EmitterOk(s', t)
    {
      assert t != tx ==> EmitterOk(s, t);
    }
  }

  lemma FewerKeep(s: State, s': State)
    requires Inv(s) && s'.rows == s.rows && s'.sent == s.sent && s'.nextSeq == s.nextSeq && s'.claimed == s.claimed
    requires s'.inflight <= s.inflight && forall t :: t in s'.emitters ==> t in s.emitters && s'.emitters[t] == s.emitters[t]
    ensures Inv(s')
  {
    forall t | t in s'.emitters
      ensures EmitterOk(s', t)
    {
      assert EmitterOk(s, t);
    }
  }

  lemma StepKeeps(s: State, s': State)
    requires Inv(s) && Step(s, s')
    ensures Inv(s')
  {
    hide Inv;
    if tx, hook :| Insert(s, tx, hook, s') {
      InsertKeeps(s, tx, hook, s');
    } else if tx :| Commit(s, tx, s') {
      CommitKeeps(s, tx, s');
    } else if id :| Claim(s, id, s') {
      ClaimKeeps(s, id, s');
    } else if a, ok :| Record(s, a, ok, s') {
      RecordKeeps(s, a, ok, s');
    } else {
      QuietKeeps(s, s');
    }
  }

  // ----- whole runs -----

  ghost predicate Run(ss: seq<State>) {
    |ss| > 0 && Initial(ss[0]) && forall i :: 0 <= i < |ss| - 1 ==> Step(ss[i], ss[i + 1])
  }

  lemma {:induction false} EveryState(ss: seq<State>, i: nat)
    requires Run(ss) && i < |ss|
    ensures Inv(ss[i])
  {
    if i > 0 {
      EveryState(ss, i - 1);
      StepKeeps(ss[i - 1], ss[i]);
    }
  }

  /** Rows keep their identity, leave pending for good, and claims are not forgotten. */
  ghost predicate Later(s: State, s': State) {
    && |s.rows| <= |s'.rows| && s.claimed <= s'.claimed
    && (forall i :: 0 <= i < |s.rows| ==> SameChain(s.rows[i], s'.rows[i]) && s.rows[i].num == s'.rows[i].num)
    && (forall i :: 0 <= i < |s.rows| && s.rows[i].status != Pending ==>
         s'.rows[i].status == s.rows[i].status && s'.rows[i].attempts == s.rows[i].attempts)
  }

  lemma StepLater(s: State, s': State)
    requires Step(s, s')
    ensures Later(s, s')
  {
    hide Later;
    if tx :| Commit(s, tx, s') {
      CommitLater(s, tx, s');
    } else if id :| Claim(s, id, s') {
      ClaimLater(s, id, s');
    } else if a, ok :| Record(s, a, ok, s') {
      RecordLater(s, a, ok, s');
    } else {
      assert s'.rows == s.rows && s'.claimed == s.claimed;
      SameLater(s, s');
    }
  }

  lemma CommitLater(s: State, tx: nat, s': State)
    requires Commit(s, tx, s')
    ensures Later(s, s')
  {
    assert forall i :: 0 <= i < |s.rows| ==> s'.rows[i] == s.rows[i];
  }

  lemma ClaimLater(s: State, id: nat, s': State)
    requires Claim(s, id, s')
    ensures Later(s, s')
  {}

  lemma RecordLater(s: State, a: Attempt, ok: bool, s': State)
    requires Record(s, a, ok, s')
    ensures Later(s, s')
  {}

  lemma SameLater(s: State, s': State)
    requires s'.rows == s.rows && s'.claimed == s.claimed
    ensures Later(s, s')
  {}

  lemma LaterOn(a: State, b: State, c: State)
    requires Later(a, b) && Later(b, c)
    ensures Later(a, c)
  {}

  lemma LaterSelf(s: State)
    ensures Later(s, s)
  {}

  lemma {:induction false} RunLater(ss: seq<State>, i: nat, j: nat)
    requires Run(ss) && i <= j < |ss|
    ensures Later(ss[i], ss[j])
    decreases j
  {
    hide Step, Later;
    if i < j {
      RunLater(ss, i, j - 1);
      StepLater(ss[j - 1], ss[j]);
      LaterOn(ss[i], ss[j - 1], ss[j]);
    } else {
      LaterSelf(ss[i]);
    }
  }

  /** From the moment a delivery is claimed, no earlier delivery for its webhook and issue is ever pending, not even one
      whose transaction commits afterwards. */
  lemma ClaimedInOrder(ss: seq<State>, i: nat, j: nat, id: nat, e: nat)
    requires Run(ss) && i <= j < |ss| && id in ss[i].claimed
    requires e < |ss[j].rows| && id < |ss[j].rows| && SameChain(ss[j].rows[e], ss[j].rows[id]) && ss[j].rows[e].num < ss[j].rows[id].num
    ensures ss[j].rows[e].status != Pending
  {
    RunLater(ss, i, j);
    EveryState(ss, j);
  }

  /** A status other than pending is final. */
  lemma StatusFinal(ss: seq<State>, i: nat, j: nat, id: nat)
    requires Run(ss) && i <= j < |ss| && id < |ss[i].rows| && ss[i].rows[id].status != Pending
    ensures id < |ss[j].rows| && ss[j].rows[id].status == ss[i].rows[id].status
  {
    RunLater(ss, i, j);
  }

  /** A delivery fails only after as many recorded attempts as allowed, each of them really made. */
  lemma FailedAfterAll(ss: seq<State>, i: nat, id: nat)
    requires Run(ss) && i < |ss| && id < |ss[i].rows| && ss[i].rows[id].status == Failed
    ensures ss[i].rows[id].attempts == MAX_ATTEMPTS && id < |ss[i].sent| && ss[i].sent[id] >= MAX_ATTEMPTS
  {
    EveryState(ss, i);
    assert RowOk(ss[i].rows[id], ss[i].sent[id], ss[i].nextSeq);
  }

  // ----- what came of the sends -----

  /** What the sends of a delivery say about its row. A send counts if the row was pending when it was to be recorded. */
  ghost predicate LogOk(log: seq<Sent>, id: nat, d: Delivery, scale: int) {
    && ((forall k :: 0 <= k < |log| ==> !Counts(log[k], id)) ==> d.status == Pending && d.attempts == 0)
    && (forall k :: 0 <= k < |log| && LastOf(log, id, k) ==> Shows(log[k], d, scale))
    && (forall k :: 0 <= k < |log| && Counts(log[k], id) && !LastOf(log, id, k) ==> !log[k].ok && log[k].attempt < 6)
  }

  predicate Counts(e: Sent, id: nat) {
    e.id == id && e.pending
  }

  /** The latest send that counts. */
  ghost predicate LastOf(log: seq<Sent>, id: nat, k: nat) {
    k < |log| && Counts(log[k], id) && forall j :: k < j < |log| ==> !Counts(log[j], id)
  }

  /** The row is as that send left it. */
  ghost predicate Shows(e: Sent, d: Delivery, scale: int) {
    && d.attempts == e.attempt && e.attempt >= 1
    && (e.ok ==> d.status == Succeeded)
    && (!e.ok && e.attempt >= 6 ==> d.status == Failed)
    && (!e.ok && e.attempt < 6 ==> d.status == Pending && d.next == e.at + DelayAfter(e.attempt) * scale)
  }

  /** 1, 2, 4, 8, 16: each delay is twice the one before. */
  function DelayAfter(attempt: nat): int {
    if attempt <= 1 then 1 else 2 * DelayAfter(attempt - 1)
  }

  ghost predicate AllLogged(s: State) {
    && (forall id :: 0 <= id < |s.rows| ==> LogOk(s.log, id, s.rows[id], s.scale))
    && (forall k :: 0 <= k < |s.log| ==> s.log[k].id < |s.rows|)
  }

  /** One more send, of this delivery or of another. */
  lemma LogMore(log: seq<Sent>, e: Sent, id: nat, d: Delivery, d': Delivery, scale: int)
    requires LogOk(log, id, d, scale) && e.attempt >= 1
    requires e.id == id ==> (e.pending <==> d.status == Pending) && d' == Recorded(d, e.attempt, e.ok, e.at, scale)
    requires e.id != id ==> d' == d
    ensures LogOk(log + [e], id, d', scale)
  {
    var log' := log + [e];
    if Counts(e, id) {
      forall k | 0 <= k < |log| && Counts(log[k], id)
        ensures !log[k].ok && log[k].attempt < 6
      {
        if LastOf(log, id, k) {
          assert Shows(log[k], d, scale);
        }
      }
      assert Counts(log'[|log|], id);
      forall k | 0 <= k < |log'| && LastOf(log', id, k)
        ensures k == |log|
      {}
      Doubles(e.attempt);
    } else {
      forall k | 0 <= k < |log|
        ensures log'[k] == log[k] && (LastOf(log', id, k) <==> LastOf(log, id, k))
      {
        SameLast(log, e, id, k);
      }
    }
  }

  lemma SameLast(log: seq<Sent>, e: Sent, id: nat, k: nat)
    requires !Counts(e, id) && k < |log|
    ensures LastOf(log + [e], id, k) <==> LastOf(log, id, k)
  {
    var log' := log + [e];
    if LastOf(log, id, k) {
      forall j | k < j < |log'|
        ensures !Counts(log'[j], id)
      {
        assert j < |log| ==> log'[j] == log[j];
      }
    }
    if LastOf(log', id, k) {
      forall j | k < j < |log|
        ensures !Counts(log[j], id)
      {
        assert log'[j] == log[j];
      }
    }
  }

  lemma Doubles(attempt: nat)
    ensures 1 <= attempt < 6 ==> DELAYS[attempt - 1] == DelayAfter(attempt)
  {
    assert DelayAfter(1) == 1 && DelayAfter(2) == 2 && DelayAfter(3) == 4 && DelayAfter(4) == 8 && DelayAfter(5) == 16;
  }

  lemma RecordLogged(s: State, a: Attempt, ok: bool, s': State)
    requires AllLogged(s) && Record(s, a, ok, s')
    ensures AllLogged(s')
  {
    hide LogOk, Recorded;
    var e := Sent(a.id, a.attempts + 1, ok, s.rows[a.id].status == Pending, s.now);
    forall id | 0 <= id < |s'.rows|
      ensures LogOk(s'.log, id, s'.rows[id], s'.scale)
    {
      LogMore(s.log, e, id, s.rows[id], s'.rows[id], s.scale);
    }
  }

  /** New rows have no sends, and a lease says nothing about them. */
  lemma OthersLogged(s: State, s': State)
    requires AllLogged(s) && s'.log == s.log && s'.scale == s.scale && |s.rows| <= |s'.rows|
    requires forall id :: 0 <= id < |s.rows| ==> s'.rows[id] == s.rows[id].(lease := s'.rows[id].lease)
    requires forall id :: |s.rows| <= id < |s'.rows| ==> s'.rows[id].status == Pending && s'.rows[id].attempts == 0
    ensures AllLogged(s')
  {
    forall id | 0 <= id < |s'.rows|
      ensures LogOk(s'.log, id, s'.rows[id], s'.scale)
    {
      if id < |s.rows| {
        SameLog(s.log, id, s.rows[id], s'.rows[id], s.scale);
      }
    }
  }

  lemma SameLog(log: seq<Sent>, id: nat, d: Delivery, d': Delivery, scale: int)
    requires LogOk(log, id, d, scale) && d' == d.(lease := d'.lease)
    ensures LogOk(log, id, d', scale)
  {
    hide LastOf;
    forall k | 0 <= k < |log| && LastOf(log, id, k)
      ensures Shows(log[k], d', scale)
    {
      assert Shows(log[k], d, scale);
    }
  }

  lemma CommitLogged(s: State, tx: nat, s': State)
    requires Inv(s) && AllLogged(s) && Commit(s, tx, s')
    ensures AllLogged(s')
  {
    assert EmitterOk(s, tx);
    var n := |s.rows|;
    forall id | n <= id < |s'.rows|
      ensures s'.rows[id].status == Pending && s'.rows[id].attempts == 0
    {
      assert NewRow(s.emitters[tx].rows[id - n], s.emitters[tx].issue, s.nextSeq);
    }
    hide AllLogged;
    OthersLogged(s, s');
  }

  lemma LoggedStep(s: State, s': State)
    requires Inv(s) && AllLogged(s) && Step(s, s')
    ensures AllLogged(s')
  {
    hide Inv, AllLogged;
    if tx :| Commit(s, tx, s') {
      CommitLogged(s, tx, s');
    } else if a, ok :| Record(s, a, ok, s') {
      RecordLogged(s, a, ok, s');
    } else if id :| Claim(s, id, s') {
      OthersLogged(s, s');
    } else {
      OthersLogged(s, s');
    }
  }

  lemma {:induction false} EverySend(ss: seq<State>, i: nat)
    requires Run(ss) && i < |ss|
    ensures AllLogged(ss[i])
  {
    hide Step, Inv, LogOk;
    if i > 0 {
      EverySend(ss, i - 1);
      EveryState(ss, i - 1);
      LoggedStep(ss[i - 1], ss[i]);
    }
  }

  lemma {:induction false} SomeLast(log: seq<Sent>, id: nat, k: nat) returns (l: nat)
    requires k < |log| && Counts(log[k], id)
    ensures LastOf(log, id, l)
    decreases |log| - k
  {
    if j: nat :| k < j < |log| && Counts(log[j], id) {
      l := SomeLast(log, id, j);
    } else {
      l := k;
    }
  }

  /** In every run a delivery has succeeded exactly if some send of it, recorded while it was pending, was accepted. */
  lemma SucceededMeans(ss: seq<State>, i: nat, id: nat)
    requires Run(ss) && i < |ss| && id < |ss[i].rows|
    ensures ss[i].rows[id].status == Succeeded <==>
      exists k :: 0 <= k < |ss[i].log| && ss[i].log[k].id == id && ss[i].log[k].pending && ss[i].log[k].ok
  {
    EverySend(ss, i);
    hide Run;
    var log, d := ss[i].log, ss[i].rows[id];
    assert LogOk(log, id, d, ss[i].scale);
    if k :| 0 <= k < |log| && Counts(log[k], id) {
      var l := SomeLast(log, id, k);
      assert Shows(log[l], d, ss[i].scale);
    }
  }

  /** It has failed exactly if some send of it, recorded while it was pending, was the sixth and not accepted; then none
      was accepted. */
  lemma FailedMeans(ss: seq<State>, i: nat, id: nat)
    requires Run(ss) && i < |ss| && id < |ss[i].rows|
    ensures ss[i].rows[id].status == Failed <==>
      exists k :: 0 <= k < |ss[i].log| && ss[i].log[k].id == id && ss[i].log[k].pending && !ss[i].log[k].ok && ss[i].log[k].attempt >= 6
    ensures ss[i].rows[id].status == Failed ==>
      forall k :: 0 <= k < |ss[i].log| && ss[i].log[k].id == id && ss[i].log[k].pending ==> !ss[i].log[k].ok
  {
    EverySend(ss, i);
    hide Run;
    var log, d := ss[i].log, ss[i].rows[id];
    assert LogOk(log, id, d, ss[i].scale);
    if k :| 0 <= k < |log| && Counts(log[k], id) {
      var l := SomeLast(log, id, k);
      assert Shows(log[l], d, ss[i].scale);
    }
  }

  /** A send below the limit that was not accepted leaves the row pending, to be tried again after a delay that doubles. */
  lemma RetriedLater(s: State, a: Attempt, ok: bool, s': State)
    requires Record(s, a, ok, s') && s.rows[a.id].status == Pending && !ok && a.attempts + 1 < 6
    ensures var d := s'.rows[a.id];
      d.status == Pending && d.attempts == a.attempts + 1 && d.lease == 0 && d.next == s.now + DelayAfter(a.attempts + 1) * s.scale
  {
    Doubles(a.attempts + 1);
  }

  /** Once a delivery is over it is never claimed again. */
  lemma NotClaimedAgain(ss: seq<State>, i: nat, j: nat, id: nat)
    requires Run(ss) && i <= j < |ss| - 1 && id < |ss[i].rows| && ss[i].rows[id].status != Pending
    ensures !Claim(ss[j], id, ss[j + 1])
  {
    StatusFinal(ss, i, j, id);
  }
}
