/** Building the index: chunks handed to workers in any order, per-document data put back in order, buckets merged. */
module SearchBuild {
  import opened SearchVarint
  import opened SearchCorpus
  import opened SearchOrder
  import opened SearchWorker
  import opened SearchBlocks
  import opened SearchMerge
  import opened SearchCursor
  import opened SearchSpec
  import opened SearchMeaning
  import opened SearchPlan
  import opened SearchExec

  const NUM_BUCKETS := 16

  // ----- per-document data -----

  datatype ChunkResult = ChunkResult(idx: nat, ids: seq<nat>, dls: seq<nat>, tokens: nat)

  function IdsOf(docs: seq<Doc>): seq<nat> {
    seq(|docs|, i requires 0 <= i < |docs| => docs[i].id)
  }

  function LengthsOf(docs: seq<Doc>): seq<nat> {
    seq(|docs|, i requires 0 <= i < |docs| => |docs[i].tokens|)
  }

  ghost predicate ResultOf(r: ChunkResult, chunks: seq<seq<Doc>>) {
    && r.idx < |chunks| && r.ids == IdsOf(chunks[r.idx]) && r.dls == LengthsOf(chunks[r.idx])
    && r.tokens == TotalTokens(chunks[r.idx])
  }

  lemma {:induction false} TotalTokensConcat(a: seq<Doc>, b: seq<Doc>)
    ensures TotalTokens(a + b) == TotalTokens(a) + TotalTokens(b)
  {
    if b == [] {
      assert a + b == a;
    } else {
      var n := |b| - 1;
      assert (a + b)[..|a| + n] == a + b[..n];
      TotalTokensConcat(a, b[..n]);
    }
  }

  lemma DocDataConcat(a: seq<Doc>, b: seq<Doc>)
    ensures IdsOf(a + b) == IdsOf(a) + IdsOf(b) && LengthsOf(a + b) == LengthsOf(a) + LengthsOf(b)
  {}

  /** What has been written: the data of the first `next` chunks. */
  ghost predicate Written(ids: seq<nat>, dls: seq<nat>, tokens: nat, chunks: seq<seq<Doc>>, next: nat)
    requires next <= |chunks|
  {
    var docs := Flatten(chunks[..next]);
    ids == IdsOf(docs) && dls == LengthsOf(docs) && tokens == TotalTokens(docs)
  }

  lemma WrittenStep(ids: seq<nat>, dls: seq<nat>, tokens: nat, chunks: seq<seq<Doc>>, next: nat, r: ChunkResult)
    requires next < |chunks| && Written(ids, dls, tokens, chunks, next) && ResultOf(r, chunks) && r.idx == next
    ensures Written(ids + r.ids, dls + r.dls, tokens + r.tokens, chunks, next + 1)
  {
    assert chunks[..next + 1][..next] == chunks[..next];
    DocDataConcat(Flatten(chunks[..next]), chunks[next]);
    TotalTokensConcat(Flatten(chunks[..next]), chunks[next]);
  }

  /** Results that arrived and are not written yet; the first `m` have arrived. */
  ghost predicate Waiting(pending: map<nat, ChunkResult>, next: nat, results: seq<ChunkResult>, m: nat, chunks: seq<seq<Doc>>)
    requires m <= |results|
  {
    && (forall i :: i in pending ==> next <= i && pending[i].idx == i && ResultOf(pending[i], chunks))
    && (forall j :: 0 <= j < m ==> results[j].idx < next || results[j].idx in pending)
    && (forall i :: i in pending ==> Arrived(results, m, i))
    && (forall i :: 0 <= i < next ==> Arrived(results, m, i))
  }

  ghost predicate Arrived(results: seq<ChunkResult>, m: nat, i: nat)
    requires m <= |results|
  {
    exists j :: 0 <= j < m && results[j].idx == i
  }

  /** The numbers `xs` are 0, ..., n - 1 in some order. */
  ghost predicate Permutes(xs: seq<nat>, n: nat) {
    NoRepeats(xs) && (forall j :: 0 <= j < |xs| ==> xs[j] < n) && forall i :: 0 <= i < n ==> i in xs
  }

  /** Writes the results that are next in line. */
  method Drain(pending0: map<nat, ChunkResult>, next0: nat, ids0: seq<nat>, dls0: seq<nat>, tokens0: nat,
               ghost results: seq<ChunkResult>, ghost m: nat, ghost chunks: seq<seq<Doc>>)
    returns (pending: map<nat, ChunkResult>, next: nat, ids: seq<nat>, dls: seq<nat>, tokens: nat)
    requires next0 <= |chunks| && m <= |results| && Waiting(pending0, next0, results, m, chunks)
    requires Written(ids0, dls0, tokens0, chunks, next0)
    ensures next <= |chunks| && Waiting(pending, next, results, m, chunks) && next !in pending
    ensures Written(ids, dls, tokens, chunks, next) && next0 <= next
  {
    hide Written, ResultOf;
    pending, next, ids, dls, tokens := pending0, next0, ids0, dls0, tokens0;
    while next in pending
      invariant next0 <= next <= |chunks| && Waiting(pending, next, results, m, chunks)
      invariant Written(ids, dls, tokens, chunks, next)
      decreases |pending|
    {
      var r := pending[next];
      InRange(r, chunks);
      WrittenStep(ids, dls, tokens, chunks, next, r);
      pending := pending - {next};
      ids, dls, tokens := ids + r.ids, dls + r.dls, tokens + r.tokens;
      next := next + 1;
    }
  }

  lemma InRange(r: ChunkResult, chunks: seq<seq<Doc>>)
    requires ResultOf(r, chunks)
    ensures r.idx < |chunks|
  {}

  /** Whatever the order in which results arrive, the data are written in the order of the documents. */
  method WriteDocData(results: seq<ChunkResult>, ghost chunks: seq<seq<Doc>>)
    returns (ids: seq<nat>, dls: seq<nat>, tokens: nat)
    requires forall j :: 0 <= j < |results| ==> ResultOf(results[j], chunks)
    requires forall j, k :: 0 <= j < k < |results| ==> results[j].idx != results[k].idx
    requires forall i :: 0 <= i < |chunks| ==> Arrived(results, |results|, i)
    ensures ids == IdsOf(Flatten(chunks)) && dls == LengthsOf(Flatten(chunks)) && tokens == TotalTokens(Flatten(chunks))
  {
    hide ResultOf, IdsOf, LengthsOf, TotalTokens;
    var pending: map<nat, ChunkResult> := map[];
    var next: nat := 0;
    ids, dls, tokens := [], [], 0;
    NothingWritten(chunks);
    for m := 0 to |results|
      invariant next <= |chunks| && Waiting(pending, next, results, m, chunks) && next !in pending
      invariant Written(ids, dls, tokens, chunks, next)
    {
      Arrives(pending, next, results, m, chunks);
      pending := pending[results[m].idx := results[m]];
      pending, next, ids, dls, tokens := Drain(pending, next, ids, dls, tokens, results, m + 1, chunks);
    }
    AllWritten(pending, next, results, chunks);
    assert chunks[..next] == chunks;
  }

  lemma Arrives(pending: map<nat, ChunkResult>, next: nat, results: seq<ChunkResult>, m: nat, chunks: seq<seq<Doc>>)
    requires m < |results| && Waiting(pending, next, results, m, chunks) && ResultOf(results[m], chunks)
    requires forall j, k :: 0 <= j < k < |results| ==> results[j].idx != results[k].idx
    ensures Waiting(pending[results[m].idx := results[m]], next, results, m + 1, chunks)
  {
    hide ResultOf;
    var r := results[m];
    assert !Arrived(results, m, r.idx);
    var now, m1 := pending[r.idx := r], m + 1;
    forall i: nat | i in now || i < next
      ensures Arrived(results, m1, i)
    {
      if i == r.idx {
        assert results[m].idx == i;
      } else {
        assert Arrived(results, m, i);
        var j :| 0 <= j < m && results[j].idx == i;
      }
    }
    assert Waiting(now, next, results, m1, chunks);
  }

  lemma NotArrived(pending: map<nat, ChunkResult>, next: nat, results: seq<ChunkResult>, chunks: seq<seq<Doc>>)
    requires Waiting(pending, next, results, |results|, chunks) && next !in pending
    ensures !Arrived(results, |results|, next)
  {
    hide ResultOf;
  }

  lemma AllWritten(pending: map<nat, ChunkResult>, next: nat, results: seq<ChunkResult>, chunks: seq<seq<Doc>>)
    requires next <= |chunks| && Waiting(pending, next, results, |results|, chunks) && next !in pending
    requires forall i :: 0 <= i < |chunks| ==> Arrived(results, |results|, i)
    ensures next == |chunks|
  {
    NotArrived(pending, next, results, chunks);
  }

  lemma NothingWritten(chunks: seq<seq<Doc>>)
    ensures Written([], [], 0, chunks, 0)
  {}

  // ----- workers -----

  datatype Turn = Turn(worker: nat, chunk: nat)

  /** Every chunk is taken exactly once, by one of the workers. */
  ghost predicate Schedule(turns: seq<Turn>, workers: nat, n: nat) {
    && (forall s :: 0 <= s < |turns| ==> turns[s].worker < workers && turns[s].chunk < n)
    && (forall s, u :: 0 <= s < u < |turns| ==> turns[s].chunk != turns[u].chunk)
    && (forall i :: 0 <= i < n ==> Taken(turns, i))
  }

  ghost predicate Taken(turns: seq<Turn>, i: nat) {
    exists s :: 0 <= s < |turns| && turns[s].chunk == i
  }

  function Base(chunks: seq<seq<Doc>>, i: nat): nat {
    if i <= |chunks| then ChunkBase(chunks, i) else 0
  }

  predicate InChunk(chunks: seq<seq<Doc>>, i: nat, d: nat) {
    i < |chunks| && Base(chunks, i) <= d < Base(chunks, i) + |chunks[i]|
  }

  lemma {:induction false} BasesAscend(chunks: seq<seq<Doc>>, i: nat, j: nat)
    requires i < j <= |chunks|
    ensures Base(chunks, i) + |chunks[i]| <= Base(chunks, j)
    decreases j
  {
    assert chunks[..j][..j - 1] == chunks[..j - 1];
    if i < j - 1 {
      BasesAscend(chunks, i, j - 1);
    }
  }

  lemma ChunksApart(chunks: seq<seq<Doc>>, i: nat, j: nat, d: nat)
    requires i != j && InChunk(chunks, i, d) && j < |chunks|
    ensures d < Base(chunks, j) || Base(chunks, j) + |chunks[j]| <= d
  {
    if i < j {
      BasesAscend(chunks, i, j);
    } else {
      BasesAscend(chunks, j, i);
    }
  }

  /** The numbers of the first documents of the chunks. */
  method Bases(chunks: seq<seq<Doc>>) returns (bases: seq<nat>)
    ensures |bases| == |chunks| && forall i :: 0 <= i < |chunks| ==> bases[i] == Base(chunks, i)
  {
    bases := [];
    var base := 0;
    for i := 0 to |chunks|
      invariant |bases| == i && base == Base(chunks, i)
      invariant forall j :: 0 <= j < i ==> bases[j] == Base(chunks, j)
    {
      assert chunks[..i + 1][..i] == chunks[..i];
      bases := bases + [base];
      base := base + |chunks[i]|;
    }
  }

  /** Between two chunks: nothing recorded, and the documents ever added are those of the chunks taken so far. */
  ghost predicate Idle(w: Worker, chunks: seq<seq<Doc>>, taken: set<nat>)
    reads w
  {
    w.Run([], 0) && w.strs == [] && forall d :: d in w.done ==> exists i :: i in taken && InChunk(chunks, i, d)
  }

  ghost predicate BucketRuns(runs: seq<seq<Record>>, docs: seq<Doc>, base: nat, bucket: Term -> nat) {
    |runs| == NUM_BUCKETS && forall b :: 0 <= b < NUM_BUCKETS ==> RunOf(runs[b], docs, base, bucket, b)
  }

  method WriteBuckets(w: Worker, bucket: Term -> nat, ghost docs: seq<Doc>, ghost base: nat) returns (runs: seq<seq<Record>>)
    requires w.Run(docs, base) && AllOccur(docs, w.strs)
    ensures BucketRuns(runs, docs, base, bucket)
  {
    hide Worker.Run, RunOf;
    runs := [];
    for b := 0 to NUM_BUCKETS
      invariant |runs| == b && forall a :: 0 <= a < b ==> RunOf(runs[a], docs, base, bucket, a)
    {
      var run := w.Write(bucket, b, docs, base);
      runs := runs + [run];
    }
  }

  /** One chunk, start to end: the run of every bucket, and the worker ready for the next chunk. */
  method Process(w: Worker, docs: seq<Doc>, base: nat, bucket: Term -> nat, ghost chunks: seq<seq<Doc>>, ghost i: nat,
                 ghost taken: set<nat>) returns (runs: seq<seq<Record>>)
    requires Idle(w, chunks, taken) && i !in taken && i < |chunks| && docs == chunks[i] && base == Base(chunks, i)
    modifies w
    ensures BucketRuns(runs, docs, base, bucket) && Idle(w, chunks, taken + {i})
  {
    hide Worker.Run, RunOf, InChunk, Base;
    forall d | d in w.done
      ensures d < base || base + |docs| <= d
    {
      var j :| j in taken && InChunk(chunks, j, d);
      ChunksApart(chunks, j, i, d);
    }
    w.Process(docs, base);
    runs := WriteBuckets(w, bucket, docs, base);
    ForgetRun(w, docs, base);
    w.Reset();
    forall d | d in w.done
      ensures exists j :: j in taken + {i} && InChunk(chunks, j, d)
    {
      if base <= d < base + |docs| {
        Contains(chunks, i, d);
      } else {
        var j :| j in taken && InChunk(chunks, j, d);
        assert j in taken + {i};
      }
    }
  }

  lemma Contains(chunks: seq<seq<Doc>>, i: nat, d: nat)
    requires i < |chunks| && Base(chunks, i) <= d < Base(chunks, i) + |chunks[i]|
    ensures InChunk(chunks, i, d)
  {}

  lemma ForgetRun(w: Worker, docs: seq<Doc>, base: nat)
    requires w.Run(docs, base)
    ensures |w.stamp| == |w.cnt| == |w.fill| && w.Stamps()
  {}

  method NewWorkers(n: nat, ghost chunks: seq<seq<Doc>>) returns (ws: seq<Worker>)
    ensures |ws| == n && (forall i :: 0 <= i < n ==> fresh(ws[i]) && Idle(ws[i], chunks, {}))
    ensures NoRepeats(ws)
  {
    ws := [];
    for i := 0 to n
      invariant |ws| == i && NoRepeats(ws)
      invariant forall j :: 0 <= j < i ==> fresh(ws[j]) && Idle(ws[j], chunks, {})
    {
      var w := new Worker();
      ws := ws + [w];
    }
  }

  /** The runs of the chunks taken so far. */
  ghost predicate RunsSoFar(runs: map<nat, seq<seq<Record>>>, chunks: seq<seq<Doc>>, bucket: Term -> nat, taken: set<nat>) {
    forall i :: i in taken ==> i < |chunks| && i in runs && BucketRuns(runs[i], chunks[i], Base(chunks, i), bucket)
  }

  lemma IdleLater(w: Worker, chunks: seq<seq<Doc>>, taken: set<nat>, more: set<nat>)
    requires Idle(w, chunks, taken) && taken <= more
    ensures Idle(w, chunks, more)
  {
    forall d | d in w.done
      ensures exists i :: i in more && InChunk(chunks, i, d)
    {
      var i :| i in taken && InChunk(chunks, i, d);
    }
  }

  /** Runs the workers over the chunks as the schedule says. */
  method RunWorkers(chunks: seq<seq<Doc>>, turns: seq<Turn>, workers: nat, bucket: Term -> nat)
    returns (runs: map<nat, seq<seq<Record>>>)
    requires Schedule(turns, workers, |chunks|)
    ensures forall i :: 0 <= i < |chunks| ==> i in runs && BucketRuns(runs[i], chunks[i], Base(chunks, i), bucket)
  {
    hide Base, BucketRuns, Idle;
    var bases := Bases(chunks);
    var ws := NewWorkers(workers, chunks);
    runs := map[];
    ghost var taken: set<nat> := {};
    for s := 0 to |turns|
      invariant forall w :: 0 <= w < |ws| ==> fresh(ws[w]) && Idle(ws[w], chunks, taken)
      invariant RunsSoFar(runs, chunks, bucket, taken)
      invariant forall i :: i in taken ==> exists u :: 0 <= u < s && turns[u].chunk == i
      invariant forall u :: 0 <= u < s ==> turns[u].chunk in taken
    {
      var i := turns[s].chunk;
      ghost var more := taken + {i};
      var w := ws[turns[s].worker];
      forall v | 0 <= v < |ws|
        ensures Idle(ws[v], chunks, more)
      {
        IdleLater(ws[v], chunks, taken, more);
      }
      var rs := Process(w, chunks[i], bases[i], bucket, chunks, i, taken);
      runs := runs[i := rs];
      taken := more;
    }
    forall i | 0 <= i < |chunks|
      ensures i in taken
    {
      assert Taken(turns, i);
    }
  }

  /** The chunk results in the order in which they arrive at the writer. */
  method Results(chunks: seq<seq<Doc>>, arrivals: seq<nat>) returns (results: seq<ChunkResult>)
    requires forall j :: 0 <= j < |arrivals| ==> arrivals[j] < |chunks|
    ensures |results| == |arrivals|
    ensures forall j :: 0 <= j < |arrivals| ==> results[j].idx == arrivals[j] && ResultOf(results[j], chunks)
  {
    results := [];
    for j := 0 to |arrivals|
      invariant |results| == j
      invariant forall i :: 0 <= i < j ==> results[i].idx == arrivals[i] && ResultOf(results[i], chunks)
    {
      var docs := chunks[arrivals[j]];
      results := results + [ChunkResult(arrivals[j], IdsOf(docs), LengthsOf(docs), TotalTokens(docs))];
    }
  }

  /** Gathers bucket `b` of the runs, in the order of the chunks. */
  method BucketOf(runs: map<nat, seq<seq<Record>>>, n: nat, b: nat, ghost chunks: seq<seq<Doc>>, ghost bucket: Term -> nat)
    returns (rs: seq<seq<Record>>)
    requires n == |chunks| && b < NUM_BUCKETS
    requires forall i :: 0 <= i < n ==> i in runs && BucketRuns(runs[i], chunks[i], Base(chunks, i), bucket)
    ensures RunsOk(rs, chunks, bucket, b)
  {
    hide RunOf;
    rs := [];
    for i := 0 to n
      invariant |rs| == i
      invariant forall j :: 0 <= j < i ==> RunOf(rs[j], chunks[j], ChunkBase(chunks, j), bucket, b)
    {
      assert BucketRuns(runs[i], chunks[i], Base(chunks, i), bucket);
      rs := rs + [runs[i][b]];
    }
  }

  method MergeRuns(runs: map<nat, seq<seq<Record>>>, n: nat, ghost chunks: seq<seq<Doc>>, ghost bucket: Term -> nat)
    returns (dicts: seq<Dict>)
    requires n == |chunks|
    requires forall i :: 0 <= i < n ==> i in runs && BucketRuns(runs[i], chunks[i], Base(chunks, i), bucket)
    ensures |dicts| == NUM_BUCKETS
    ensures forall b :: 0 <= b < NUM_BUCKETS ==> DictOk(dicts[b], Flatten(chunks), bucket, b)
  {
    hide BucketRuns, Base, DictOk, RunsOk, Flatten;
    dicts := [];
    for b := 0 to NUM_BUCKETS
      invariant |dicts| == b && forall a :: 0 <= a < b ==> DictOk(dicts[a], Flatten(chunks), bucket, a)
    {
      var rs := BucketOf(runs, n, b, chunks, bucket);
      var d := MergeBucket(rs, chunks, bucket, b);
      dicts := dicts + [d];
    }
  }

  /** Whatever the chunks, the schedule and the order of arrival, the index is that of the whole corpus. */
  method Build(chunks: seq<seq<Doc>>, turns: seq<Turn>, workers: nat, arrivals: seq<nat>, bucket: Term -> nat)
    returns (ix: Index)
    requires Schedule(turns, workers, |chunks|) && Permutes(arrivals, |chunks|)
    requires forall t :: bucket(t) < NUM_BUCKETS
    ensures IndexOk(ix, Flatten(chunks), bucket)
  {
    hide DictOk, Flatten, TotalTokens, ResultOf, BucketRuns;
    var runs := RunWorkers(chunks, turns, workers, bucket);
    var results := Results(chunks, arrivals);
    forall i | 0 <= i < |chunks|
      ensures Arrived(results, |results|, i)
    {
      assert i in arrivals;
      var j :| 0 <= j < |arrivals| && arrivals[j] == i;
      assert results[j].idx == i;
    }
    var ids, dls, tokens := WriteDocData(results, chunks);
    var dicts := MergeRuns(runs, |chunks|, chunks, bucket);
    ix := Index(|ids|, tokens, dicts, ids, dls);
  }

  /** From documents to answers: every query on the built index gets the reference answer. */
  method BuildAndSearch(chunks: seq<seq<Doc>>, turns: seq<Turn>, workers: nat, arrivals: seq<nat>, bucket: Term -> nat,
                        clauses: seq<Clause>, k: nat, procs: nat, idf: (nat, nat) -> real) returns (a: Answer)
    requires Schedule(turns, workers, |chunks|) && Permutes(arrivals, |chunks|)
    requires forall t :: bucket(t) < NUM_BUCKETS
    requires |Flatten(chunks)| < END && DistinctIds(Flatten(chunks)) && Tokenized(clauses) && k >= 1
    ensures Answers(Flatten(chunks), clauses, idf, k, a) && Meant(Flatten(chunks), clauses, idf, k, a)
  {
    var ix := Build(chunks, turns, workers, arrivals, bucket);
    a := Search(ix, bucket, clauses, k, procs, idf, Flatten(chunks));
  }
}
