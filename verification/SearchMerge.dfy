/** The k-way merge of one bucket's runs into a dictionary sorted by term. */
module SearchMerge {
  import opened SearchVarint
  import opened SearchCorpus
  import opened SearchOrder
  import opened SearchWorker
  import opened SearchBlocks

  datatype Dict = Dict(entries: seq<Entry>, docs: seq<Byte>, pos: seq<Byte>)

  /** The number of the first document of chunk i. */
  function ChunkBase(chunks: seq<seq<Doc>>, i: nat): nat
    requires i <= |chunks|
  {
    |Flatten(chunks[..i])|
  }

  // ----- postings chunk by chunk -----

  /** `group` lists, in order, the chunks in which `t` occurs. */
  ghost predicate Group(chunks: seq<seq<Doc>>, t: Term, group: seq<nat>) {
    && (forall i, j :: 0 <= i < j < |group| ==> group[i] < group[j])
    && (forall k :: 0 <= k < |group| ==> group[k] < |chunks| && Occurs(chunks[group[k]], t))
    && (forall i :: 0 <= i < |chunks| && Occurs(chunks[i], t) ==> i in group)
  }

  function GroupPostings(chunks: seq<seq<Doc>>, t: Term, group: seq<nat>): (pss: seq<seq<Posting>>)
    requires forall k :: 0 <= k < |group| ==> group[k] < |chunks|
    ensures |pss| == |group|
  {
    seq(|group|, k requires 0 <= k < |group| => Postings(chunks[group[k]], ChunkBase(chunks, group[k]), t))
  }

  /** Putting the postings of a term's chunks one after the other gives its postings in the corpus. */
  lemma {:induction false} GroupGathers(chunks: seq<seq<Doc>>, t: Term, group: seq<nat>)
    requires Group(chunks, t, group)
    ensures Flatten(GroupPostings(chunks, t, group)) == Postings(Flatten(chunks), 0, t)
  {
    if chunks == [] {
      assert group == [];
    } else {
      var n := |chunks| - 1;
      PostingsByChunk(chunks, t);
      if n in group {
        LastInGroup(chunks, t, group);
        GroupGathers(chunks[..n], t, group[..|group| - 1]);
        GatherLast(chunks, t, group);
      } else {
        GroupWithoutLast(chunks, t, group);
        GroupGathers(chunks[..n], t, group);
        GroupOfPrefix(chunks, t, group, n);
      }
    }
  }

  lemma PostingsByChunk(chunks: seq<seq<Doc>>, t: Term)
    requires chunks != []
    ensures var n := |chunks| - 1;
      Postings(Flatten(chunks), 0, t) ==
      Postings(Flatten(chunks[..n]), 0, t) + Postings(chunks[n], ChunkBase(chunks, n), t)
    ensures var n := |chunks| - 1;
      !Occurs(chunks[n], t) ==> Postings(Flatten(chunks), 0, t) == Postings(Flatten(chunks[..n]), 0, t)
  {
    var n := |chunks| - 1;
    PostingsConcat(Flatten(chunks[..n]), chunks[n], 0, t);
    if !Occurs(chunks[n], t) {
      PostingsAbsentFrom(chunks[n], ChunkBase(chunks, n), t);
    }
  }

  lemma GatherLast(chunks: seq<seq<Doc>>, t: Term, group: seq<nat>)
    requires chunks != [] && group != [] && group[|group| - 1] == |chunks| - 1
    requires forall k :: 0 <= k < |group| - 1 ==> group[k] < |chunks| - 1
    ensures var n, g := |chunks| - 1, group[..|group| - 1];
      Flatten(GroupPostings(chunks, t, group)) ==
      Flatten(GroupPostings(chunks[..n], t, g)) + Postings(chunks[n], ChunkBase(chunks, n), t)
  {
    var n, g := |chunks| - 1, group[..|group| - 1];
    GroupOfPrefix(chunks, t, g, n);
    assert GroupPostings(chunks, t, group)[..|g|] == GroupPostings(chunks, t, g);
  }

  lemma Ascending(xs: seq<nat>, i: nat, j: nat)
    requires forall i, j :: 0 <= i < j < |xs| ==> xs[i] < xs[j]
    requires i <= j < |xs|
    ensures xs[i] <= xs[j]
  {}

  lemma LastInGroup(chunks: seq<seq<Doc>>, t: Term, group: seq<nat>)
    requires chunks != [] && Group(chunks, t, group) && |chunks| - 1 in group
    ensures group != [] && group[|group| - 1] == |chunks| - 1
    ensures Group(chunks[..|chunks| - 1], t, group[..|group| - 1])
  {
    var n, m := |chunks| - 1, |group| - 1;
    var k :| 0 <= k < |group| && group[k] == n;
    Ascending(group, k, m);
    forall i | 0 <= i < n && Occurs(chunks[..n][i], t)
      ensures i in group[..m]
    {
      assert Occurs(chunks[i], t) && group == group[..m] + [group[m]];
    }
  }

  lemma GroupWithoutLast(chunks: seq<seq<Doc>>, t: Term, group: seq<nat>)
    requires chunks != [] && Group(chunks, t, group) && |chunks| - 1 !in group
    ensures Group(chunks[..|chunks| - 1], t, group)
  {
    forall k | 0 <= k < |group|
      ensures group[k] < |chunks| - 1
    {
      assert group[k] in group;
    }
  }

  lemma GroupOfPrefix(chunks: seq<seq<Doc>>, t: Term, g: seq<nat>, n: nat)
    requires n <= |chunks| && forall k :: 0 <= k < |g| ==> g[k] < n
    ensures GroupPostings(chunks, t, g) == GroupPostings(chunks[..n], t, g)
  {
    forall k | 0 <= k < |g|
      ensures chunks[..n][..g[k]] == chunks[..g[k]]
    {}
  }

  lemma PostingsAbsentFrom(docs: seq<Doc>, base: nat, t: Term)
    requires !Occurs(docs, t)
    ensures Postings(docs, base, t) == []
  {
    PostingsAbsent(docs, base, t);
  }

  lemma {:induction false} OccursInChunk(chunks: seq<seq<Doc>>, t: Term)
    ensures Occurs(Flatten(chunks), t) <==> exists i :: 0 <= i < |chunks| && Occurs(chunks[i], t)
  {
    if chunks != [] {
      var n := |chunks| - 1;
      OccursInChunk(chunks[..n], t);
      OccursConcat(Flatten(chunks[..n]), chunks[n], t);
      assert forall i :: 0 <= i < n ==> chunks[..n][i] == chunks[i];
    }
  }

  lemma OccursConcat(a: seq<Doc>, b: seq<Doc>, t: Term)
    ensures Occurs(a + b, t) <==> Occurs(a, t) || Occurs(b, t)
  {
    if Occurs(a, t) {
      var d :| 0 <= d < |a| && t in a[d].tokens;
      assert (a + b)[d] == a[d];
    }
    if Occurs(b, t) {
      var d :| 0 <= d < |b| && t in b[d].tokens;
      assert (a + b)[|a| + d] == b[d];
    }
  }

  lemma OccursMeansPostings(docs: seq<Doc>, base: nat, t: Term)
    ensures Occurs(docs, t) <==> Postings(docs, base, t) != []
  {
    if Occurs(docs, t) {
      var d :| 0 <= d < |docs| && t in docs[d].tokens;
      var i := PostingsComplete(docs, base, t, d);
    } else {
      PostingsAbsent(docs, base, t);
    }
  }

  // ----- the merge -----

  /** The dictionary of the terms of the corpus that fall into bucket `b`. */
  ghost predicate DictOk(dict: Dict, corpus: seq<Doc>, bucket: Term -> nat, b: nat) {
    && (forall i, j :: 0 <= i < j < |dict.entries| ==> Less(dict.entries[i].term, dict.entries[j].term))
    && (forall k :: 0 <= k < |dict.entries| ==> DictEntry(dict.entries[k], dict.docs, dict.pos, corpus, bucket, b))
    && (forall t :: Occurs(corpus, t) && bucket(t) == b ==> Has(dict.entries, t))
  }

  ghost predicate DictEntry(e: Entry, docs: seq<Byte>, pos: seq<Byte>, corpus: seq<Doc>, bucket: Term -> nat, b: nat) {
    bucket(e.term) == b && EntryOk(e, docs, pos, Postings(corpus, 0, e.term))
  }

  ghost predicate Has(entries: seq<Entry>, t: Term) {
    exists k :: 0 <= k < |entries| && entries[k].term == t
  }

  ghost predicate RunsOk(runs: seq<seq<Record>>, chunks: seq<seq<Doc>>, bucket: Term -> nat, b: nat) {
    && |runs| == |chunks|
    && forall i :: 0 <= i < |runs| ==> RunOf(runs[i], chunks[i], ChunkBase(chunks, i), bucket, b)
  }

  /** `heap` holds the runs that are not used up; `at` is the position in each. */
  ghost predicate Live(runs: seq<seq<Record>>, at: seq<nat>, heap: set<nat>) {
    && |at| == |runs|
    && (forall i :: i in heap ==> i < |runs|)
    && (forall i :: 0 <= i < |runs| ==> at[i] <= |runs[i]| && (i in heap <==> at[i] < |runs[i]|))
  }

  function Cur(runs: seq<seq<Record>>, at: seq<nat>, i: nat): Term
    requires i < |runs| == |at| && at[i] < |runs[i]|
  {
    runs[i][at[i]].term
  }

  /** The heap order: by term, equal terms by run. */
  predicate Before(runs: seq<seq<Record>>, at: seq<nat>, i: nat, j: nat)
    requires i < |runs| == |at| && at[i] < |runs[i]| && j < |runs| && at[j] < |runs[j]|
  {
    Less(Cur(runs, at, i), Cur(runs, at, j)) || (Cur(runs, at, i) == Cur(runs, at, j) && i < j)
  }

  lemma BeforeTotal(runs: seq<seq<Record>>, at: seq<nat>, heap: set<nat>, i: nat, j: nat, k: nat)
    requires Live(runs, at, heap) && i in heap && j in heap && k in heap
    ensures i == j || Before(runs, at, i, j) || Before(runs, at, j, i)
    ensures Before(runs, at, i, j) && Before(runs, at, j, k) ==> Before(runs, at, i, k)
  {
    LessIsTotal();
  }

  ghost predicate Least(runs: seq<seq<Record>>, at: seq<nat>, heap: set<nat>, part: set<nat>, i: nat)
    requires Live(runs, at, heap) && part <= heap
  {
    i in part && forall j :: j in part ==> i == j || Before(runs, at, i, j)
  }

  lemma {:induction false} LeastExists(runs: seq<seq<Record>>, at: seq<nat>, heap: set<nat>, part: set<nat>)
    requires Live(runs, at, heap) && part != {} && part <= heap
    ensures exists i :: Least(runs, at, heap, part, i)
  {
    var x :| x in part;
    var rest := part - {x};
    if rest == {} {
      assert forall j :: j in part ==> j == x || j in rest;
      assert Least(runs, at, heap, part, x);
    } else {
      LeastExists(runs, at, heap, rest);
      var y :| Least(runs, at, heap, rest, y);
      BeforeTotal(runs, at, heap, x, y, y);
      var z := if Before(runs, at, x, y) then x else y;
      forall j | j in part
        ensures z == j || Before(runs, at, z, j)
      {
        BeforeTotal(runs, at, heap, x, y, j);
        assert j == x || j in rest;
      }
      assert Least(runs, at, heap, part, z);
    }
  }

  /** Once the least run left is at another term, all runs left are behind this one. */
  lemma AllBehind(runs: seq<seq<Record>>, at: seq<nat>, heap0: set<nat>, heap: set<nat>, last: nat, top: nat)
    requires Live(runs, at, heap0) && heap <= heap0 && last in heap0
    requires Least(runs, at, heap0, heap, top)
    requires Before(runs, at, last, top) && Cur(runs, at, top) != Cur(runs, at, last)
    ensures forall i :: i in heap ==> Less(Cur(runs, at, last), Cur(runs, at, i))
  {
    LessIsTotal();
  }

  /** Takes the least run off the heap and, with it, every run that is at the same term. */
  method PopGroup(runs: seq<seq<Record>>, at: seq<nat>, heap0: set<nat>) returns (group: seq<nat>, heap: set<nat>)
    requires Live(runs, at, heap0) && heap0 != {}
    ensures group != [] && group[0] in heap0
    ensures forall i, j :: 0 <= i < j < |group| ==> group[i] < group[j]
    ensures heap <= heap0 && forall i :: i in heap0 ==> i in heap || i in group
    ensures forall k :: 0 <= k < |group| ==>
      group[k] in heap0 && group[k] !in heap && Cur(runs, at, group[k]) == Cur(runs, at, group[0])
    ensures forall i :: i in heap ==> Less(Cur(runs, at, group[0]), Cur(runs, at, i))
  {
    LeastExists(runs, at, heap0, heap0);
    var first :| first in heap0 && forall j :: j in heap0 ==> first == j || Before(runs, at, first, j);
    group, heap := [first], heap0 - {first};
    var last := first;
    while heap != {}
      invariant heap <= heap0 && forall i :: i in heap0 ==> i in heap || i in group
      invariant group != [] && group[0] == first && group[|group| - 1] == last
      invariant forall i, j :: 0 <= i < j < |group| ==> group[i] < group[j]
      invariant forall k :: 0 <= k < |group| ==>
        group[k] <= last && group[k] in heap0 && group[k] !in heap && Cur(runs, at, group[k]) == Cur(runs, at, first)
      invariant forall i :: i in heap ==> Before(runs, at, last, i)
      decreases heap
    {
      LeastExists(runs, at, heap0, heap);
      var top :| top in heap && forall j :: j in heap ==> top == j || Before(runs, at, top, j);
      if Cur(runs, at, top) != Cur(runs, at, first) {
        AllBehind(runs, at, heap0, heap, last, top);
        return;
      }
      SameTermByRun(runs, at, heap0, last, top);
      group, heap := group + [top], heap - {top};
      last := top;
    }
  }

  lemma SameTermByRun(runs: seq<seq<Record>>, at: seq<nat>, heap: set<nat>, i: nat, j: nat)
    requires Live(runs, at, heap) && i in heap && j in heap
    requires Before(runs, at, i, j) && Cur(runs, at, i) == Cur(runs, at, j)
    ensures i < j
  {
    LessIsTotal();
  }

  /** Every record passed has its term in the dictionary. */
  ghost predicate Covered(entries: seq<Entry>, runs: seq<seq<Record>>, at: seq<nat>)
    requires |at| == |runs|
  {
    forall i, q :: 0 <= i < |runs| && 0 <= q < at[i] && q < |runs[i]| ==> Has(entries, runs[i][q].term)
  }

  /** The dictionary ends before the terms at which the runs stand. */
  ghost predicate Ahead(entries: seq<Entry>, runs: seq<seq<Record>>, at: seq<nat>, heap: set<nat>)
    requires Live(runs, at, heap)
  {
    forall k, i :: 0 <= k < |entries| && i in heap ==> Less(entries[k].term, Cur(runs, at, i))
  }

  /** A chunk with the least term has its run in the group of runs at that term. */
  lemma ChunkInGroup(runs: seq<seq<Record>>, at: seq<nat>, heap: set<nat>, chunks: seq<seq<Doc>>, bucket: Term -> nat,
                     b: nat, entries: seq<Entry>, t: Term, first: nat, i: nat)
    requires RunsOk(runs, chunks, bucket, b) && Live(runs, at, heap)
    requires Covered(entries, runs, at) && Ahead(entries, runs, at, heap)
    requires first in heap && Cur(runs, at, first) == t
    requires forall j :: j in heap ==> Cur(runs, at, j) == t || Less(t, Cur(runs, at, j))
    requires i < |chunks| && Occurs(chunks[i], t)
    ensures i in heap && Cur(runs, at, i) == t
  {
    assert RunOf(runs[first], chunks[first], ChunkBase(chunks, first), bucket, b);
    var q := RecordFor(runs[i], chunks[i], ChunkBase(chunks, i), bucket, b, t);
    NotPassed(runs, at, heap, entries, first, i, q);
    NotLater(runs[i], at[i], q);
  }

  lemma NotPassed(runs: seq<seq<Record>>, at: seq<nat>, heap: set<nat>, entries: seq<Entry>, first: nat, i: nat, q: nat)
    requires Live(runs, at, heap) && Covered(entries, runs, at) && Ahead(entries, runs, at, heap)
    requires first in heap && i < |runs| && q < |runs[i]| && runs[i][q].term == Cur(runs, at, first)
    ensures at[i] <= q
  {
    if q < at[i] {
      assert Has(entries, runs[i][q].term);
      var k :| 0 <= k < |entries| && entries[k].term == runs[i][q].term;
      assert Less(entries[k].term, Cur(runs, at, first));
      LessAsymmetric(entries[k].term, entries[k].term);
    }
  }

  lemma NotLater(run: seq<Record>, at: nat, q: nat)
    requires forall i, j :: 0 <= i < j < |run| ==> Less(run[i].term, run[j].term)
    requires at <= q < |run|
    requires run[at].term == run[q].term || Less(run[q].term, run[at].term)
    ensures q == at
  {
    LessAsymmetric(run[at].term, run[q].term);
    LessAsymmetric(run[q].term, run[q].term);
  }

  lemma RecordFor(run: seq<Record>, docs: seq<Doc>, base: nat, bucket: Term -> nat, b: nat, t: Term) returns (q: nat)
    requires RunOf(run, docs, base, bucket, b) && Occurs(docs, t) && bucket(t) == b
    ensures q < |run| && run[q].term == t
  {
    var d :| 0 <= d < |docs| && t in docs[d].tokens;
    var p :| 0 <= p < |docs[d].tokens| && docs[d].tokens[p] == t;
    assert Listed(docs[d].tokens, bucket, b, run);
    q :| 0 <= q < |run| && run[q].term == t;
  }

  /** The group popped off the heap is the list of chunks in which its term occurs. */
  lemma GroupIsChunks(runs: seq<seq<Record>>, at: seq<nat>, heap0: set<nat>, heap: set<nat>, chunks: seq<seq<Doc>>,
                      bucket: Term -> nat, b: nat, entries: seq<Entry>, t: Term, group: seq<nat>)
    requires RunsOk(runs, chunks, bucket, b) && Live(runs, at, heap0)
    requires Covered(entries, runs, at) && Ahead(entries, runs, at, heap0)
    requires group != [] && heap <= heap0
    requires forall i, j :: 0 <= i < j < |group| ==> group[i] < group[j]
    requires forall k :: 0 <= k < |group| ==> group[k] in heap0 && Cur(runs, at, group[k]) == t
    requires forall i :: i in heap0 ==> i in heap || i in group
    requires forall i :: i in heap ==> Less(t, Cur(runs, at, i))
    ensures Group(chunks, t, group)
  {
    forall k | 0 <= k < |group|
      ensures Occurs(chunks[group[k]], t)
    {
      var i := group[k];
      assert RunOf(runs[i], chunks[i], ChunkBase(chunks, i), bucket, b);
      assert RecordOf(chunks[i], ChunkBase(chunks, i), runs[i][at[i]]);
    }
    LessAsymmetric(t, t);
    forall i | 0 <= i < |chunks| && Occurs(chunks[i], t)
      ensures i in group
    {
      ChunkInGroup(runs, at, heap0, chunks, bucket, b, entries, t, group[0], i);
    }
  }

  /** The records of the group are the postings of its term, chunk by chunk. */
  lemma GroupRecords(runs: seq<seq<Record>>, at: seq<nat>, chunks: seq<seq<Doc>>, bucket: Term -> nat, b: nat,
                     t: Term, group: seq<nat>, k: nat)
    requires RunsOk(runs, chunks, bucket, b) && |at| == |runs| && k < |group|
    requires forall k :: 0 <= k < |group| ==> group[k] < |runs| && at[group[k]] < |runs[group[k]]|
    requires Cur(runs, at, group[k]) == t
    ensures runs[group[k]][at[group[k]]].data == RunBytes(0, GroupPostings(chunks, t, group)[k])
  {
    var i := group[k];
    assert RunOf(runs[i], chunks[i], ChunkBase(chunks, i), bucket, b);
    assert RecordOf(chunks[i], ChunkBase(chunks, i), runs[i][at[i]]);
  }

  /** Moves every run of the group to its next record, back onto the heap unless it is used up. */
  method Advance(runs: seq<seq<Record>>, at0: seq<nat>, heap0: set<nat>, group: seq<nat>)
    returns (at: seq<nat>, heap: set<nat>)
    requires |at0| == |runs|
    requires forall i, j :: 0 <= i < j < |group| ==> group[i] < group[j]
    requires forall k :: 0 <= k < |group| ==> group[k] < |runs| && group[k] !in heap0 && at0[group[k]] < |runs[group[k]]|
    requires forall i :: i in heap0 ==> i < |runs|
    requires forall i :: 0 <= i < |runs| ==> at0[i] <= |runs[i]| && (at0[i] < |runs[i]| ==> i in heap0 || i in group)
    requires forall i :: i in heap0 ==> at0[i] < |runs[i]|
    ensures Live(runs, at, heap)
    ensures forall i :: 0 <= i < |runs| ==> at[i] == at0[i] + (if i in group then 1 else 0)
    ensures forall i :: i in heap ==> i in heap0 || i in group
  {
    at, heap := at0, heap0;
    for k := 0 to |group|
      invariant |at| == |runs|
      invariant forall i :: 0 <= i < |runs| ==> at[i] == at0[i] + (if i in group[..k] then 1 else 0)
      invariant forall i :: i in heap ==> i in heap0 || (i in group[..k] && at[i] < |runs[i]|)
      invariant heap0 <= heap
      invariant forall i :: 0 <= i < |runs| && i in group[..k] && at[i] < |runs[i]| ==> i in heap
    {
      var c := group[k];
      assert c !in group[..k] && group[..k + 1] == group[..k] + [c];
      at := at[c := at[c] + 1];
      if at[c] < |runs[c]| {
        heap := heap + {c};
      }
    }
    assert group[..|group|] == group;
  }

  function Remaining(runs: seq<seq<Record>>, at: seq<nat>): nat
    requires |at| == |runs|
  {
    if runs == [] then 0
    else
      var n := |runs| - 1;
      Remaining(runs[..n], at[..n]) + (if at[n] <= |runs[n]| then |runs[n]| - at[n] else 0)
  }

  lemma {:induction false} RemainingShrinks(runs: seq<seq<Record>>, at: seq<nat>, at': seq<nat>)
    requires |at| == |at'| == |runs|
    requires forall i :: 0 <= i < |runs| ==> at[i] <= at'[i] <= |runs[i]|
    ensures Remaining(runs, at') <= Remaining(runs, at)
    ensures (exists i :: 0 <= i < |runs| && at[i] < at'[i]) ==> Remaining(runs, at') < Remaining(runs, at)
  {
    if runs != [] {
      var n := |runs| - 1;
      RemainingShrinks(runs[..n], at[..n], at'[..n]);
      if i :| 0 <= i < n && at[i] < at'[i] {
        assert at[..n][i] < at'[..n][i];
      }
    }
  }

  ghost predicate EntriesOk(entries: seq<Entry>, docs: seq<Byte>, pos: seq<Byte>, corpus: seq<Doc>,
                            bucket: Term -> nat, b: nat) {
    && (forall i, j :: 0 <= i < j < |entries| ==> Less(entries[i].term, entries[j].term))
    && (forall k :: 0 <= k < |entries| ==> DictEntry(entries[k], docs, pos, corpus, bucket, b))
  }

  lemma EntriesStep(entries: seq<Entry>, docs: seq<Byte>, pos: seq<Byte>, corpus: seq<Doc>, bucket: Term -> nat, b: nat,
                    e: Entry, docs': seq<Byte>, pos': seq<Byte>)
    requires EntriesOk(entries, docs, pos, corpus, bucket, b)
    requires docs <= docs' && pos <= pos'
    requires DictEntry(e, docs', pos', corpus, bucket, b)
    requires forall k :: 0 <= k < |entries| ==> Less(entries[k].term, e.term)
    ensures EntriesOk(entries + [e], docs', pos', corpus, bucket, b)
  {
    forall k | 0 <= k < |entries|
      ensures DictEntry(entries[k], docs', pos', corpus, bucket, b)
    {
      assert DictEntry(entries[k], docs, pos, corpus, bucket, b);
      EntryStays(entries[k], docs, pos, Postings(corpus, 0, entries[k].term), docs'[|docs|..], pos'[|pos|..]);
      assert docs + docs'[|docs|..] == docs' && pos + pos'[|pos|..] == pos';
    }
  }

  /** What a merge step has advanced. */
  ghost predicate Moved(runs: seq<seq<Record>>, at: seq<nat>, heap0: set<nat>, heap: set<nat>, group: seq<nat>,
                        t: Term, at': seq<nat>, heap': set<nat>)
    requires Live(runs, at, heap0)
  {
    && heap <= heap0 && Live(runs, at', heap')
    && (forall k :: 0 <= k < |group| ==> group[k] in heap0 && group[k] !in heap && Cur(runs, at, group[k]) == t)
    && (forall i :: i in heap ==> Less(t, Cur(runs, at, i)))
    && (forall i :: 0 <= i < |runs| ==> at'[i] == at[i] + (if i in group then 1 else 0))
    && (forall i :: i in heap' ==> i in heap || i in group)
  }

  lemma AheadStep(runs: seq<seq<Record>>, at: seq<nat>, heap0: set<nat>, heap: set<nat>, group: seq<nat>,
                  at': seq<nat>, heap': set<nat>, entries: seq<Entry>, e: Entry)
    requires forall i :: 0 <= i < |runs| ==> forall p, q :: 0 <= p < q < |runs[i]| ==> Less(runs[i][p].term, runs[i][q].term)
    requires Live(runs, at, heap0) && Moved(runs, at, heap0, heap, group, e.term, at', heap')
    requires forall k :: 0 <= k < |entries| ==> Less(entries[k].term, e.term)
    ensures Ahead(entries + [e], runs, at', heap')
  {
    forall i | i in heap'
      ensures Less(e.term, Cur(runs, at', i))
    {
      if i in group {
        var k :| 0 <= k < |group| && group[k] == i;
        assert Cur(runs, at, group[k]) == e.term;
        assert Less(runs[i][at[i]].term, runs[i][at'[i]].term);
      }
    }
    forall k, i | 0 <= k < |entries + [e]| && i in heap'
      ensures Less((entries + [e])[k].term, Cur(runs, at', i))
    {
      if k < |entries| {
        BytesLessTransitive(entries[k].term.bytes, e.term.bytes, Cur(runs, at', i).bytes);
      }
    }
  }

  lemma CoveredStep(runs: seq<seq<Record>>, at: seq<nat>, heap0: set<nat>, heap: set<nat>, group: seq<nat>,
                    at': seq<nat>, heap': set<nat>, entries: seq<Entry>, e: Entry)
    requires Live(runs, at, heap0) && Moved(runs, at, heap0, heap, group, e.term, at', heap')
    requires Covered(entries, runs, at)
    ensures Covered(entries + [e], runs, at')
  {
    forall i, q | 0 <= i < |runs| && 0 <= q < at'[i] && q < |runs[i]|
      ensures Has(entries + [e], runs[i][q].term)
    {
      if q < at[i] {
        assert Has(entries, runs[i][q].term);
        var k :| 0 <= k < |entries| && entries[k].term == runs[i][q].term;
        assert (entries + [e])[k].term == runs[i][q].term;
      } else {
        assert i in group;
        var k :| 0 <= k < |group| && group[k] == i;
        assert Cur(runs, at, group[k]) == e.term;
        assert (entries + [e])[|entries|].term == runs[i][q].term;
      }
    }
  }

  ghost predicate Merging(runs: seq<seq<Record>>, at: seq<nat>, heap: set<nat>, d: Dict,
                          chunks: seq<seq<Doc>>, bucket: Term -> nat, b: nat) {
    && RunsOk(runs, chunks, bucket, b) && Live(runs, at, heap)
    && Covered(d.entries, runs, at) && Ahead(d.entries, runs, at, heap)
    && EntriesOk(d.entries, d.docs, d.pos, Flatten(chunks), bucket, b)
  }

  /** `group` is what was popped off the heap: all the runs at the least term. */
  ghost predicate Popped(runs: seq<seq<Record>>, at: seq<nat>, heap0: set<nat>, heap: set<nat>, group: seq<nat>)
    requires Live(runs, at, heap0)
  {
    && group != [] && heap <= heap0 && group[0] in heap0
    && (forall i, j :: 0 <= i < j < |group| ==> group[i] < group[j])
    && (forall k :: 0 <= k < |group| ==> group[k] in heap0 && Cur(runs, at, group[k]) == Cur(runs, at, group[0]))
    && (forall i :: i in heap0 ==> i in heap || i in group)
    && (forall i :: i in heap ==> Less(Cur(runs, at, group[0]), Cur(runs, at, i)))
  }

  lemma PoppedPostings(runs: seq<seq<Record>>, at: seq<nat>, heap0: set<nat>, heap: set<nat>, group: seq<nat>,
                       d: Dict, chunks: seq<seq<Doc>>, bucket: Term -> nat, b: nat)
    requires Merging(runs, at, heap0, d, chunks, bucket, b) && Popped(runs, at, heap0, heap, group)
    ensures var t, ps := Cur(runs, at, group[0]), Postings(Flatten(chunks), 0, Cur(runs, at, group[0]));
      && (forall k :: 0 <= k < |group| ==> group[k] < |chunks|)
      && Flatten(GroupPostings(chunks, t, group)) == ps && Ordered(ps) && ps != [] && bucket(t) == b
  {
    var t := Cur(runs, at, group[0]);
    GroupIsChunks(runs, at, heap0, heap, chunks, bucket, b, d.entries, t, group);
    GroupGathers(chunks, t, group);
    PostingsOrdered(Flatten(chunks), 0, t);
    OccursInGroup(chunks, t, group);
    assert RunOf(runs[group[0]], chunks[group[0]], ChunkBase(chunks, group[0]), bucket, b);
  }

  method GroupDatas(runs: seq<seq<Record>>, at: seq<nat>, ghost heap0: set<nat>, ghost heap: set<nat>, group: seq<nat>,
                    ghost chunks: seq<seq<Doc>>, ghost bucket: Term -> nat, ghost b: nat)
    returns (datas: seq<seq<Byte>>)
    requires RunsOk(runs, chunks, bucket, b) && Live(runs, at, heap0) && Popped(runs, at, heap0, heap, group)
    ensures forall k :: 0 <= k < |group| ==> group[k] < |chunks|
    ensures |datas| == |group|
    ensures forall k :: 0 <= k < |group| ==>
      datas[k] == RunBytes(0, GroupPostings(chunks, Cur(runs, at, group[0]), group)[k])
  {
    hide Postings, RunBytes, RunOf, Flatten;
    ghost var t := Cur(runs, at, group[0]);
    ghost var pss := GroupPostings(chunks, t, group);
    datas := [];
    for k := 0 to |group|
      invariant |datas| == k && forall i :: 0 <= i < k ==> datas[i] == RunBytes(0, pss[i])
    {
      GroupRecords(runs, at, chunks, bucket, b, t, group, k);
      datas := datas + [runs[group[k]][at[group[k]]].data];
    }
  }

  /** Encodes the postings of the least term from the records of its runs. */
  method EncodeGroup(runs: seq<seq<Record>>, at: seq<nat>, ghost heap0: set<nat>, ghost heap: set<nat>, group: seq<nat>,
                     d: Dict, ghost chunks: seq<seq<Doc>>, ghost bucket: Term -> nat, ghost b: nat)
    returns (e: Entry, docs: seq<Byte>, pos: seq<Byte>)
    requires Merging(runs, at, heap0, d, chunks, bucket, b) && Popped(runs, at, heap0, heap, group)
    ensures d.docs <= docs && d.pos <= pos
    ensures e.term == Cur(runs, at, group[0]) && DictEntry(e, docs, pos, Flatten(chunks), bucket, b)
  {
    PoppedPostings(runs, at, heap0, heap, group, d, chunks, bucket, b);
    var datas := GroupDatas(runs, at, heap0, heap, group, chunks, bucket, b);
    var t := runs[group[0]][at[group[0]]].term;
    e, docs, pos := EncodeTerm(t, datas, d.docs, d.pos, GroupPostings(chunks, t, group));
  }

  lemma OccursInGroup(chunks: seq<seq<Doc>>, t: Term, group: seq<nat>)
    requires Group(chunks, t, group) && group != []
    ensures Postings(Flatten(chunks), 0, t) != []
  {
    assert Occurs(chunks[group[0]], t);
    OccursInChunk(chunks, t);
    OccursMeansPostings(Flatten(chunks), 0, t);
  }

  method MergeStep(runs: seq<seq<Record>>, at: seq<nat>, heap: set<nat>, d: Dict,
                   ghost chunks: seq<seq<Doc>>, ghost bucket: Term -> nat, ghost b: nat)
    returns (at': seq<nat>, heap': set<nat>, d': Dict)
    requires Merging(runs, at, heap, d, chunks, bucket, b) && heap != {}
    ensures Merging(runs, at', heap', d', chunks, bucket, b)
    ensures Remaining(runs, at') < Remaining(runs, at)
  {
    hide EntryOk, Postings, Flatten;
    var group, rest := PopGroup(runs, at, heap);
    var e, docs, pos := EncodeGroup(runs, at, heap, rest, group, d, chunks, bucket, b);
    at', heap' := Advance(runs, at, rest, group);
    assert Moved(runs, at, heap, rest, group, e.term, at', heap');
    forall k | 0 <= k < |d.entries|
      ensures Less(d.entries[k].term, e.term)
    {
      assert group[0] in heap;
    }
    EntriesStep(d.entries, d.docs, d.pos, Flatten(chunks), bucket, b, e, docs, pos);
    AheadStep(runs, at, heap, rest, group, at', heap', d.entries, e) by {
      forall i | 0 <= i < |runs|
        ensures forall p, q :: 0 <= p < q < |runs[i]| ==> Less(runs[i][p].term, runs[i][q].term)
      {
        assert RunOf(runs[i], chunks[i], ChunkBase(chunks, i), bucket, b);
      }
    }
    CoveredStep(runs, at, heap, rest, group, at', heap', d.entries, e);
    d' := Dict(d.entries + [e], docs, pos);
    assert group[0] in group;
    RemainingShrinks(runs, at, at');
  }

  /** Merges the runs of bucket `b`, one per chunk, into its dictionary. */
  method MergeBucket(runs: seq<seq<Record>>, ghost chunks: seq<seq<Doc>>, ghost bucket: Term -> nat, ghost b: nat)
    returns (d: Dict)
    requires RunsOk(runs, chunks, bucket, b)
    ensures DictOk(d, Flatten(chunks), bucket, b)
  {
    var at := seq(|runs|, i => 0);
    var heap := set i: nat | 0 <= i < |runs| && |runs[i]| > 0;
    d := Dict([], [], []);
    while heap != {}
      invariant Merging(runs, at, heap, d, chunks, bucket, b)
      decreases Remaining(runs, at)
    {
      at, heap, d := MergeStep(runs, at, heap, d, chunks, bucket, b);
    }
    Complete(runs, at, d, chunks, bucket, b);
  }

  lemma Complete(runs: seq<seq<Record>>, at: seq<nat>, d: Dict, chunks: seq<seq<Doc>>, bucket: Term -> nat, b: nat)
    requires Merging(runs, at, {}, d, chunks, bucket, b)
    ensures DictOk(d, Flatten(chunks), bucket, b)
  {
    forall t | Occurs(Flatten(chunks), t) && bucket(t) == b
      ensures Has(d.entries, t)
    {
      OccursInChunk(chunks, t);
      var i :| 0 <= i < |chunks| && Occurs(chunks[i], t);
      assert RunOf(runs[i], chunks[i], ChunkBase(chunks, i), bucket, b);
      var q := RecordFor(runs[i], chunks[i], ChunkBase(chunks, i), bucket, b, t);
      assert at[i] == |runs[i]|;
      assert Has(d.entries, runs[i][q].term);
    }
  }
}
