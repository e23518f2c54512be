/** One indexing worker: it turns the documents of a chunk into a run, that is, into one byte
    record per term. Its per-term counters are reused from chunk to chunk. */
module SearchWorker {
  import opened SearchVarint
  import opened SearchCorpus
  import opened SearchOrder

  // ----- grouping the positions of a document by token -----

  /** `ds` lists each token of `xs` once. */
  ghost predicate Distinct(xs: seq<nat>, ds: seq<nat>) {
    && NoRepeats(ds)
    && (forall p :: 0 <= p < |xs| ==> xs[p] in ds)
    && (forall j :: 0 <= j < |ds| ==> ds[j] in xs)
  }

  lemma DistinctStep(xs: seq<nat>, p: nat, ds: seq<nat>)
    requires p < |xs| && Distinct(xs[..p], ds)
    ensures Distinct(xs[..p + 1], if xs[p] in ds then ds else ds + [xs[p]])
  {
    assert xs[..p + 1] == xs[..p] + [xs[p]];
  }

  /** Where the parts start when parts of these sizes are laid end to end. */
  function Starts(cs: seq<nat>): (bs: seq<nat>)
    ensures |bs| == |cs| + 1 && bs[0] == 0
  {
    if cs == [] then [0]
    else
      var n := |cs| - 1;
      var bs := Starts(cs[..n]);
      bs + [bs[n] + cs[n]]
  }

  lemma {:induction false} StartsStep(cs: seq<nat>, j: nat)
    requires j < |cs|
    ensures Starts(cs)[j + 1] == Starts(cs)[j] + cs[j]
  {
    if j < |cs| - 1 {
      StartsStep(cs[..|cs| - 1], j);
    }
  }

  lemma {:induction false} StartsMonotone(cs: seq<nat>, i: nat, j: nat)
    requires i <= j <= |cs|
    ensures Starts(cs)[i] <= Starts(cs)[j]
    decreases j
  {
    if i < j {
      StartsMonotone(cs, i, j - 1);
      StartsStep(cs, j - 1);
    }
  }

  /** How often each listed token occurs. */
  function Counts(xs: seq<nat>, ds: seq<nat>): seq<nat> {
    seq(|ds|, j requires 0 <= j < |ds| => |Positions(xs, ds[j])|)
  }

  ghost predicate Tallies(xs: seq<nat>, ds: seq<nat>, cs: seq<nat>) {
    |cs| == |ds| && forall j :: 0 <= j < |ds| ==> cs[j] == |Positions(xs, ds[j])|
  }

  lemma TalliesNew(xs: seq<nat>, ds: seq<nat>, cs: seq<nat>, t: nat)
    requires Tallies(xs, ds, cs) && t !in xs
    ensures Tallies(xs, ds + [t], cs + [0])
  {
    AbsentHasNoPositions(xs, t);
  }

  lemma TalliesBump(xs: seq<nat>, p: nat, ds: seq<nat>, cs: seq<nat>, k: nat)
    requires p < |xs| && NoRepeats(ds) && Tallies(xs[..p], ds, cs)
    requires k < |ds| && ds[k] == xs[p]
    ensures Tallies(xs[..p + 1], ds, cs[k := cs[k] + 1])
  {
    forall j | 0 <= j < |ds|
      ensures cs[k := cs[k] + 1][j] == |Positions(xs[..p + 1], ds[j])|
    {
      PositionsStep(xs, p, ds[j]);
    }
  }

  /** What one more token does to the list of tokens and their tallies. */
  lemma TalliesStep(xs: seq<nat>, p: nat, ds: seq<nat>, cs: seq<nat>, ds': seq<nat>, cs': seq<nat>, k: nat)
    requires p < |xs| && Distinct(xs[..p], ds) && Tallies(xs[..p], ds, cs)
    requires if xs[p] in ds then ds' == ds && cs' == cs else ds' == ds + [xs[p]] && cs' == cs + [0]
    requires k < |ds'| && ds'[k] == xs[p]
    ensures Distinct(xs[..p + 1], ds') && Tallies(xs[..p + 1], ds', cs'[k := cs'[k] + 1])
  {
    DistinctStep(xs, p, ds);
    if xs[p] !in ds {
      TalliesNew(xs[..p], ds, cs, xs[p]);
    }
    TalliesBump(xs, p, ds', cs', k);
  }

  /** One more token adds one to the size of one part. */
  lemma {:induction false} TotalOfPrefix(xs: seq<nat>, ds: seq<nat>)
    requires xs != [] && NoRepeats(ds)
    ensures Starts(Counts(xs, ds))[|ds|] ==
      Starts(Counts(xs[..|xs| - 1], ds))[|ds|] + (if xs[|xs| - 1] in ds then 1 else 0)
  {
    if ds != [] {
      var n := |ds| - 1;
      TotalOfPrefix(xs, ds[..n]);
      assert ds == ds[..n] + [ds[n]];
      assert Counts(xs, ds)[..n] == Counts(xs, ds[..n]);
      assert Counts(xs[..|xs| - 1], ds)[..n] == Counts(xs[..|xs| - 1], ds[..n]);
    }
  }

  /** The layout fits: there are no more positions than tokens. */
  lemma {:induction false} LayoutFits(xs: seq<nat>, ds: seq<nat>)
    requires NoRepeats(ds)
    ensures Starts(Counts(xs, ds))[|ds|] <= |xs|
  {
    if xs == [] {
      NothingToLayOut(ds);
    } else {
      LayoutFits(xs[..|xs| - 1], ds);
      TotalOfPrefix(xs, ds);
    }
  }

  lemma {:induction false} NothingToLayOut(ds: seq<nat>)
    ensures Starts(Counts([], ds))[|ds|] == 0
  {
    if ds != [] {
      assert Counts([], ds)[..|ds| - 1] == Counts([], ds[..|ds| - 1]);
      NothingToLayOut(ds[..|ds| - 1]);
    }
  }

  lemma PositionsStep<T>(xs: seq<T>, p: nat, t: T)
    requires p < |xs|
    ensures Positions(xs[..p + 1], t) == Positions(xs[..p], t) + (if xs[p] == t then [p] else [])
  {
    assert xs[..p + 1][..p] == xs[..p];
  }

  lemma {:induction false} PositionsPrefix<T>(xs: seq<T>, p: nat, t: T)
    requires p <= |xs|
    ensures |Positions(xs[..p], t)| <= |Positions(xs, t)|
    ensures p < |xs| && xs[p] == t ==> |Positions(xs[..p], t)| < |Positions(xs, t)|
    decreases |xs| - p
  {
    if p == |xs| {
      assert xs[..p] == xs;
    } else {
      PositionsPrefix(xs, p + 1, t);
      PositionsStep(xs, p, t);
    }
  }

  /** The part of `pf` that starts at `lo` holds the positions of `t` among the first p tokens. */
  ghost predicate Filled(xs: seq<nat>, p: nat, t: nat, lo: nat, fill: seq<nat>, pf: seq<nat>)
    requires p <= |xs|
  {
    var got := Positions(xs[..p], t);
    && t < |fill| && fill[t] == lo + |got|
    && lo + |got| <= |pf| && pf[lo..lo + |got|] == got
  }

  /** A part has room for the positions of its token, and the next part starts behind it. */
  lemma PartHasRoom(xs: seq<nat>, ds: seq<nat>, p: nat, k: nat)
    requires p <= |xs| && k < |ds| && NoRepeats(ds)
    ensures var bs := Starts(Counts(xs, ds));
      && bs[k] + |Positions(xs[..p], ds[k])| <= bs[k + 1] <= |xs|
      && (p < |xs| && xs[p] == ds[k] ==> bs[k] + |Positions(xs[..p], ds[k])| < bs[k + 1])
  {
    PositionsPrefix(xs, p, ds[k]);
    LayoutFits(xs, ds);
    StartsStep(Counts(xs, ds), k);
    StartsMonotone(Counts(xs, ds), k + 1, |ds|);
  }

  /** Placing position p in the part of its token keeps the part of token j right. */
  lemma FilledStep(xs: seq<nat>, ds: seq<nat>, bs: seq<nat>, p: nat, fill: seq<nat>, pf: seq<nat>, k: nat, j: nat)
    requires p < |xs| && k < |ds| && ds[k] == xs[p] && j < |ds| && |pf| == |xs| && NoRepeats(ds)
    requires bs == Starts(Counts(xs, ds))
    requires Filled(xs, p, ds[k], bs[k], fill, pf) && Filled(xs, p, ds[j], bs[j], fill, pf)
    ensures fill[ds[k]] < |pf|
    ensures Filled(xs, p + 1, ds[j], bs[j], fill[ds[k] := fill[ds[k]] + 1], pf[fill[ds[k]] := p])
  {
    PartHasRoom(xs, ds, p, k);
    PositionsStep(xs, p, ds[j]);
    var at, lo, got := fill[ds[k]], bs[j], Positions(xs[..p], ds[j]);
    if j == k {
      assert pf[at := p][lo..lo + |got| + 1] == pf[lo..lo + |got|] + [p];
    } else {
      PartHasRoom(xs, ds, p, j);
      if j < k {
        StartsMonotone(Counts(xs, ds), j + 1, k);
      } else {
        StartsMonotone(Counts(xs, ds), k + 1, j);
      }
      assert pf[at := p][lo..lo + |got|] == pf[lo..lo + |got|];
    }
  }

  ghost predicate AllFilled(xs: seq<nat>, ds: seq<nat>, bs: seq<nat>, p: nat, fill: seq<nat>, pf: seq<nat>)
    requires p <= |xs|
  {
    |bs| == |ds| + 1 && forall j :: 0 <= j < |ds| ==> Filled(xs, p, ds[j], bs[j], fill, pf)
  }

  lemma AllFilledStart(xs: seq<nat>, ds: seq<nat>, bs: seq<nat>, fill: seq<nat>, pf: seq<nat>)
    requires |xs| == |pf| && NoRepeats(ds) && bs == Starts(Counts(xs, ds))
    requires forall j :: 0 <= j < |ds| ==> ds[j] < |fill| && fill[ds[j]] == bs[j]
    ensures AllFilled(xs, ds, bs, 0, fill, pf)
  {
    forall j | 0 <= j < |ds|
      ensures Filled(xs, 0, ds[j], bs[j], fill, pf)
    {
      PartHasRoom(xs, ds, 0, j);
    }
  }

  lemma AllFilledStep(xs: seq<nat>, ds: seq<nat>, bs: seq<nat>, p: nat, fill: seq<nat>, pf: seq<nat>)
    requires p < |xs| == |pf| && Distinct(xs, ds) && bs == Starts(Counts(xs, ds))
    requires AllFilled(xs, ds, bs, p, fill, pf)
    ensures var t := xs[p];
      t < |fill| && fill[t] < |pf| && AllFilled(xs, ds, bs, p + 1, fill[t := fill[t] + 1], pf[fill[t] := p])
  {
    assert xs[p] in ds;
    var k :| 0 <= k < |ds| && ds[k] == xs[p];
    FilledStep(xs, ds, bs, p, fill, pf, k, k);
    forall j | 0 <= j < |ds|
      ensures Filled(xs, p + 1, ds[j], bs[j], fill[xs[p] := fill[xs[p]] + 1], pf[fill[xs[p]] := p])
    {
      FilledStep(xs, ds, bs, p, fill, pf, k, j);
    }
  }

  /** Lists the tokens `xs` of document `doc` once each and counts them. A counter is current
      when it carries the document's stamp. */
  method Count(xs: seq<nat>, doc: nat, stamp0: seq<nat>, cnt0: seq<nat>)
    returns (stamp: seq<nat>, cnt: seq<nat>, ds: seq<nat>)
    requires |stamp0| == |cnt0|
    requires forall p :: 0 <= p < |xs| ==> xs[p] < |stamp0|
    requires forall t :: 0 <= t < |stamp0| ==> stamp0[t] != doc + 1
    ensures |stamp| == |cnt| == |stamp0|
    ensures forall t :: 0 <= t < |stamp| ==> stamp[t] == stamp0[t] || stamp[t] == doc + 1
    ensures Distinct(xs, ds)
    ensures forall j :: 0 <= j < |ds| ==> ds[j] < |cnt| && cnt[ds[j]] == Counts(xs, ds)[j]
  {
    hide Distinct, Tallies, Current, Counts;
    stamp, cnt, ds := stamp0, cnt0, [];
    ghost var cs := [];
    CountStart(stamp0, cnt0, doc);
    for p := 0 to |xs|
      invariant Current(stamp0, stamp, cnt, doc, ds, cs)
      invariant Distinct(xs[..p], ds) && Tallies(xs[..p], ds, cs)
    {
      var t := xs[p];
      ghost var k := CountStep(xs, p, stamp0, stamp, cnt, doc, ds, cs);
      if stamp[t] != doc + 1 {
        stamp := stamp[t := doc + 1];
        cnt := cnt[t := 0];
        ds, cs := ds + [t], cs + [0];
      }
      cs := cs[k := cs[k] + 1];
      cnt := cnt[t := cnt[t] + 1];
    }
    assert xs[..|xs|] == xs;
    CountEnd(xs, stamp0, stamp, cnt, doc, ds, cs);
  }

  /** Exactly the listed tokens carry the document's stamp, and their counters are current. */
  ghost predicate Current(stamp0: seq<nat>, stamp: seq<nat>, cnt: seq<nat>, doc: nat, ds: seq<nat>, cs: seq<nat>) {
    && |stamp| == |cnt| == |stamp0| && |cs| == |ds|
    && (forall t :: 0 <= t < |stamp| ==> stamp[t] == stamp0[t] || (stamp[t] == doc + 1 && t in ds))
    && (forall j :: 0 <= j < |ds| ==> ds[j] < |stamp| && stamp[ds[j]] == doc + 1 && cnt[ds[j]] == cs[j])
  }

  lemma CountStart(stamp0: seq<nat>, cnt0: seq<nat>, doc: nat)
    requires |stamp0| == |cnt0|
    ensures Current(stamp0, stamp0, cnt0, doc, [], []) && Distinct([], []) && Tallies([], [], [])
  {}

  /** One more token, new or seen before; k is its place in the list. */
  lemma CountStep(xs: seq<nat>, p: nat, stamp0: seq<nat>, stamp: seq<nat>, cnt: seq<nat>, doc: nat, ds: seq<nat>, cs: seq<nat>)
    returns (k: nat)
    requires p < |xs| && xs[p] < |stamp0| && stamp0[xs[p]] != doc + 1
    requires Current(stamp0, stamp, cnt, doc, ds, cs) && Distinct(xs[..p], ds) && Tallies(xs[..p], ds, cs)
    ensures |stamp| == |cnt| == |stamp0| && |cs| == |ds|
    ensures var t, isNew := xs[p], stamp[xs[p]] != doc + 1;
      var ds', cs' := if isNew then ds + [t] else ds, if isNew then cs + [0] else cs;
      var stamp', cnt' := if isNew then stamp[t := doc + 1] else stamp, if isNew then cnt[t := 0] else cnt;
      && k < |ds'| && Distinct(xs[..p + 1], ds') && Tallies(xs[..p + 1], ds', cs'[k := cs'[k] + 1])
      && Current(stamp0, stamp', cnt'[t := cnt'[t] + 1], doc, ds', cs'[k := cs'[k] + 1])
  {
    hide Tallies, Distinct, Current;
    var t := xs[p];
    k := CurrentStep(stamp0, stamp, cnt, doc, ds, cs, t, xs[..p]);
    if stamp[t] == doc + 1 {
      TalliesStep(xs, p, ds, cs, ds, cs, k);
    } else {
      TalliesStep(xs, p, ds, cs, ds + [t], cs + [0], k);
    }
  }

  lemma CurrentStep(stamp0: seq<nat>, stamp: seq<nat>, cnt: seq<nat>, doc: nat, ds: seq<nat>, cs: seq<nat>, t: nat, xs: seq<nat>)
    returns (k: nat)
    requires t < |stamp0| && stamp0[t] != doc + 1 && Current(stamp0, stamp, cnt, doc, ds, cs) && Distinct(xs, ds)
    ensures |stamp| == |cnt| == |stamp0| && |cs| == |ds| && (t in ds <==> stamp[t] == doc + 1)
    ensures k < |ds| + (if t in ds then 0 else 1) && (ds + [t])[k] == t
    ensures t in ds ==> Current(stamp0, stamp, cnt[t := cnt[t] + 1], doc, ds, cs[k := cs[k] + 1])
    ensures t !in ds ==>
      Current(stamp0, stamp[t := doc + 1], cnt[t := 0][t := 1], doc, ds + [t], (cs + [0])[k := 1])
  {
    if t in ds {
      k :| 0 <= k < |ds| && ds[k] == t;
      CurrentSeen(stamp0, stamp, cnt, doc, ds, cs, k);
    } else {
      k := |ds|;
      CurrentNew(stamp0, stamp, cnt, doc, ds, cs, t);
    }
  }

  lemma CurrentSeen(stamp0: seq<nat>, stamp: seq<nat>, cnt: seq<nat>, doc: nat, ds: seq<nat>, cs: seq<nat>, k: nat)
    requires Current(stamp0, stamp, cnt, doc, ds, cs) && NoRepeats(ds) && k < |ds|
    ensures Current(stamp0, stamp, cnt[ds[k] := cnt[ds[k]] + 1], doc, ds, cs[k := cs[k] + 1])
  {}

  lemma CurrentNew(stamp0: seq<nat>, stamp: seq<nat>, cnt: seq<nat>, doc: nat, ds: seq<nat>, cs: seq<nat>, t: nat)
    requires Current(stamp0, stamp, cnt, doc, ds, cs) && t < |stamp0| && t !in ds
    ensures Current(stamp0, stamp[t := doc + 1], cnt[t := 0][t := 1], doc, ds + [t], (cs + [0])[|ds| := 1])
  {
    var ds', cs' := ds + [t], (cs + [0])[|ds| := 1];
    forall j | 0 <= j < |ds'|
      ensures ds'[j] < |stamp| && (j < |ds| ==> ds'[j] != t && cs'[j] == cs[j])
    {}
  }

  lemma CountEnd(xs: seq<nat>, stamp0: seq<nat>, stamp: seq<nat>, cnt: seq<nat>, doc: nat, ds: seq<nat>, cs: seq<nat>)
    requires Current(stamp0, stamp, cnt, doc, ds, cs) && Tallies(xs, ds, cs)
    ensures |stamp| == |cnt| == |stamp0|
    ensures forall t :: 0 <= t < |stamp| ==> stamp[t] == stamp0[t] || stamp[t] == doc + 1
    ensures forall j :: 0 <= j < |ds| ==> ds[j] < |cnt| && cnt[ds[j]] == Counts(xs, ds)[j]
  {}

  /** Gives each listed token its part of the flat position buffer. */
  method Layout(ds: seq<nat>, ghost cs: seq<nat>, cnt: seq<nat>, fill0: seq<nat>) returns (fill: seq<nat>)
    requires NoRepeats(ds) && |cnt| == |fill0| && |cs| == |ds|
    requires forall j :: 0 <= j < |ds| ==> ds[j] < |cnt| && cnt[ds[j]] == cs[j]
    ensures |fill| == |fill0|
    ensures forall j :: 0 <= j < |ds| ==> fill[ds[j]] == Starts(cs)[j]
  {
    fill := fill0;
    var sum := 0;
    ghost var bs := Starts(cs);
    for j := 0 to |ds|
      invariant |fill| == |fill0|
      invariant sum == bs[j]
      invariant forall i :: 0 <= i < j ==> fill[ds[i]] == bs[i]
    {
      StartsStep(cs, j);
      fill := fill[ds[j] := sum];
      sum := sum + cnt[ds[j]];
    }
  }

  /** Drops every position into its token's part. */
  method Scatter(xs: seq<nat>, ds: seq<nat>, ghost bs: seq<nat>, fill0: seq<nat>)
    returns (pf: array<nat>, fill: seq<nat>)
    requires Distinct(xs, ds) && bs == Starts(Counts(xs, ds))
    requires forall j :: 0 <= j < |ds| ==> ds[j] < |fill0| && fill0[ds[j]] == bs[j]
    ensures fresh(pf) && |fill| == |fill0| && pf.Length == |xs|
    ensures AllFilled(xs, ds, bs, |xs|, fill, pf[..])
  {
    pf := new nat[|xs|];
    fill := fill0;
    AllFilledStart(xs, ds, bs, fill, pf[..]);
    for p := 0 to |xs|
      invariant |fill| == |fill0|
      invariant AllFilled(xs, ds, bs, p, fill, pf[..])
    {
      var t := xs[p];
      ghost var was := pf[..];
      AllFilledStep(xs, ds, bs, p, fill, was);
      pf[fill[t]] := p;
      assert pf[..] == was[fill[t] := p];
      fill := fill[t := fill[t] + 1];
    }
  }

  /** The positions of one token of one document, as gaps. */
  method PutPositions(b: seq<Byte>, xs: seq<nat>) returns (r: seq<Byte>)
    requires Increasing(xs)
    ensures r == b + Puts(Deltas(0, xs))
  {
    r := b;
    var prev := 0;
    for n := 0 to |xs|
      invariant prev == Last(0, xs[..n])
      invariant n < |xs| ==> prev <= xs[n]
      invariant r == b + Puts(Deltas(0, xs[..n]))
    {
      r := PutUvarint(r, xs[n] - prev);
      assert xs[..n + 1] == xs[..n] + [xs[n]];
      DeltasConcat(0, xs[..n], [xs[n]]);
      assert Deltas(prev, [xs[n]]) == [xs[n] - prev];
      PutsSnoc(Deltas(0, xs[..n]), xs[n] - prev);
      prev := xs[n];
    }
    assert xs[..|xs|] == xs;
  }

  /** One document's entry in the record of one of its tokens. */
  method PutEntry(b0: seq<Byte>, last: nat, doc: nat, ghost xs: seq<nat>, t: nat, ghost lo: nat, c: nat,
                  fill: seq<nat>, pf: seq<nat>) returns (b: seq<Byte>)
    requires last <= doc && Filled(xs, |xs|, t, lo, fill, pf) && c == |Positions(xs, t)|
    ensures b == b0 + EntryBytes(last, Posting(doc, Positions(xs, t)))
  {
    assert xs[..|xs|] == xs;
    PositionsSound(xs, t);
    var start := fill[t] - c;
    b := PutUvarint(b0, doc - last);
    b := PutUvarint(b, c);
    b := PutPositions(b, pf[start..start + c]);
  }

  /** Adds one document's entry to the record of each of its tokens. */
  method Append(xs: seq<nat>, ds: seq<nat>, ghost bs: seq<nat>, doc: nat, cnt: seq<nat>, fill: seq<nat>,
                pf: seq<nat>, post0: seq<seq<Byte>>, last0: seq<nat>)
    returns (post: seq<seq<Byte>>, last: seq<nat>)
    requires NoRepeats(ds) && |post0| == |last0|
    requires forall j :: 0 <= j < |ds| ==> ds[j] < |post0| && last0[ds[j]] <= doc
    requires forall j :: 0 <= j < |ds| ==> ds[j] < |cnt| && cnt[ds[j]] == Counts(xs, ds)[j]
    requires AllFilled(xs, ds, bs, |xs|, fill, pf)
    ensures |post| == |last| == |post0|
    ensures forall i :: 0 <= i < |post0| && i !in ds ==> post[i] == post0[i] && last[i] == last0[i]
    ensures forall j :: 0 <= j < |ds| ==>
      && post[ds[j]] == post0[ds[j]] + EntryBytes(last0[ds[j]], Posting(doc, Positions(xs, ds[j])))
      && last[ds[j]] == doc
  {
    post, last := post0, last0;
    ghost var after := seq(|ds|, j requires 0 <= j < |ds| =>
      post0[ds[j]] + EntryBytes(last0[ds[j]], Posting(doc, Positions(xs, ds[j]))));
    for j := 0 to |ds|
      invariant |post| == |last| == |post0|
      invariant forall i :: 0 <= i < |post0| && i !in ds[..j] ==> post[i] == post0[i] && last[i] == last0[i]
      invariant forall k :: 0 <= k < j ==> post[ds[k]] == after[k] && last[ds[k]] == doc
    {
      var t := ds[j];
      assert t !in ds[..j] && ds[..j + 1] == ds[..j] + [t];
      var b := PutEntry(post[t], last[t], doc, xs, t, bs[j], cnt[t], fill, pf);
      last := last[t := doc];
      post := post[t := b];
    }
    assert ds[..|ds|] == ds;
  }

  // ----- one document -----

  /** The entry a document adds to the record of the i-th term. */
  ghost predicate Entered(doc: nat, tids: seq<nat>, i: nat, data: seq<Byte>, last: nat, data': seq<Byte>, last': nat) {
    if i in tids then data' == data + EntryBytes(last, Posting(doc, Positions(tids, i))) && last' == doc
    else data' == data && last' == last
  }

  ghost predicate AllEntered(doc: nat, tids: seq<nat>, post0: seq<seq<Byte>>, last0: seq<nat>,
                             post: seq<seq<Byte>>, last: seq<nat>) {
    && |post| == |last| == |post0| == |last0|
    && forall i :: 0 <= i < |post0| ==> Entered(doc, tids, i, post0[i], last0[i], post[i], last[i])
  }

  /** Appends the tokens of one document to the records: count, lay out, scatter, append. */
  method Enter(tids: seq<nat>, doc: nat, stamp0: seq<nat>, cnt0: seq<nat>, fill0: seq<nat>,
               post0: seq<seq<Byte>>, last0: seq<nat>)
    returns (stamp: seq<nat>, cnt: seq<nat>, fill: seq<nat>, post: seq<seq<Byte>>, last: seq<nat>)
    requires |post0| == |last0| <= |stamp0| == |cnt0| == |fill0|
    requires forall p :: 0 <= p < |tids| ==> tids[p] < |post0|
    requires forall t :: 0 <= t < |stamp0| ==> stamp0[t] != doc + 1
    requires forall i :: 0 <= i < |last0| ==> last0[i] <= doc
    ensures |stamp| == |cnt| == |fill| == |stamp0|
    ensures forall t :: 0 <= t < |stamp| ==> stamp[t] == stamp0[t] || stamp[t] == doc + 1
    ensures AllEntered(doc, tids, post0, last0, post, last)
  {
    var ds, pf;
    stamp, cnt, ds := Count(tids, doc, stamp0, cnt0);
    fill := Layout(ds, Counts(tids, ds), cnt, fill0);
    ghost var bs := Starts(Counts(tids, ds));
    pf, fill := Scatter(tids, ds, bs, fill);
    post, last := Append(tids, ds, bs, doc, cnt, fill, pf[..], post0, last0);
    EveryoneEntered(doc, tids, ds, post0, last0, post, last);
  }

  lemma SameTokens(xs: seq<nat>, ds: seq<nat>, x: nat)
    requires Distinct(xs, ds)
    ensures x in xs <==> x in ds
  {}

  lemma EveryoneEntered(doc: nat, tids: seq<nat>, ds: seq<nat>, post0: seq<seq<Byte>>, last0: seq<nat>,
                        post: seq<seq<Byte>>, last: seq<nat>)
    requires Distinct(tids, ds) && |post| == |last| == |post0| == |last0|
    requires forall i :: 0 <= i < |post0| && i !in ds ==> post[i] == post0[i] && last[i] == last0[i]
    requires forall j :: 0 <= j < |ds| ==>
      && ds[j] < |post0|
      && post[ds[j]] == post0[ds[j]] + EntryBytes(last0[ds[j]], Posting(doc, Positions(tids, ds[j])))
      && last[ds[j]] == doc
    ensures AllEntered(doc, tids, post0, last0, post, last)
  {
    forall i | 0 <= i < |post0|
      ensures Entered(doc, tids, i, post0[i], last0[i], post[i], last[i])
    {
      SameTokens(tids, ds, i);
      if i in ds {
        var j :| 0 <= j < |ds| && ds[j] == i;
      }
    }
  }

  // ----- the records of a run -----

  ghost predicate Occurs(docs: seq<Doc>, t: Term) {
    exists d :: 0 <= d < |docs| && t in docs[d].tokens
  }

  ghost predicate AllOccur(docs: seq<Doc>, strs: seq<Term>) {
    forall i :: 0 <= i < |strs| ==> Occurs(docs, strs[i])
  }

  /** `data` is the record of `t`, and `last` its latest document (0 if none). */
  ghost predicate Holds(docs: seq<Doc>, base: nat, t: Term, data: seq<Byte>, last: nat) {
    && data == RunBytes(0, Postings(docs, base, t))
    && last == LastDoc(0, Postings(docs, base, t))
  }

  /** `terms` and `strs` number the same terms. */
  ghost predicate Numbered(terms: map<Term, nat>, strs: seq<Term>) {
    && (forall i :: 0 <= i < |strs| ==> strs[i] in terms && terms[strs[i]] == i)
    && (forall t :: t in terms ==> terms[t] < |strs| && strs[terms[t]] == t)
  }

  ghost predicate Within(tokens: seq<Term>, strs: seq<Term>) {
    forall p :: 0 <= p < |tokens| ==> tokens[p] in strs
  }

  ghost predicate Records(docs: seq<Doc>, base: nat, strs: seq<Term>, post: seq<seq<Byte>>, last: seq<nat>) {
    && |post| == |last| == |strs|
    && (forall i :: 0 <= i < |strs| ==> Holds(docs, base, strs[i], post[i], last[i]))
    && (forall d :: 0 <= d < |docs| ==> Within(docs[d].tokens, strs))
  }

  lemma RecordsNew(docs: seq<Doc>, base: nat, strs: seq<Term>, post: seq<seq<Byte>>, last: seq<nat>, t: Term)
    requires Records(docs, base, strs, post, last) && t !in strs
    ensures Records(docs, base, strs + [t], post + [[]], last + [0])
  {
    PostingsAbsent(docs, base, t) by {
      forall d | 0 <= d < |docs|
        ensures t !in docs[d].tokens
      {
        assert Within(docs[d].tokens, strs);
      }
    }
  }

  /** The tokens of a document and their numbers. */
  ghost predicate Names(strs: seq<Term>, tids: seq<nat>, tokens: seq<Term>) {
    |tids| == |tokens| && forall p :: 0 <= p < |tids| ==> tids[p] < |strs| && strs[tids[p]] == tokens[p]
  }

  lemma SamePositions(strs: seq<Term>, tids: seq<nat>, tokens: seq<Term>, i: nat)
    requires Names(strs, tids, tokens) && i < |strs|
    requires forall j, k :: 0 <= j < k < |strs| ==> strs[j] != strs[k]
    ensures Positions(tids, i) == Positions(tokens, strs[i])
    ensures i in tids <==> strs[i] in tokens
  {
    PositionsRenamed(tids, i, tokens, strs[i]);
    PositionsMeans(tids, i);
    PositionsMeans(tokens, strs[i]);
  }

  /** What one more document does to the record of a term. */
  lemma HoldsStep(docs: seq<Doc>, base: nat, d: Doc, t: Term, data: seq<Byte>, last: nat)
    requires Holds(docs, base, t, data, last)
    ensures last <= base + |docs|
    ensures t !in d.tokens ==> Holds(docs + [d], base, t, data, last)
    ensures t in d.tokens ==>
      var p := Posting(base + |docs|, Positions(d.tokens, t));
      Holds(docs + [d], base, t, data + EntryBytes(last, p), base + |docs|)
  {
    assert (docs + [d])[..|docs|] == docs;
    assert Postings(docs, base, t) + [] == Postings(docs, base, t);
    PostingsSound(docs, base, t);
    RunBytesSnoc(0, Postings(docs, base, t), Posting(base + |docs|, Positions(d.tokens, t)));
  }

  lemma LastBound(docs: seq<Doc>, base: nat, strs: seq<Term>, post: seq<seq<Byte>>, last: seq<nat>)
    requires Records(docs, base, strs, post, last)
    ensures forall i :: 0 <= i < |last| ==> last[i] <= base + |docs|
  {
    forall i | 0 <= i < |last|
      ensures last[i] <= base + |docs|
    {
      PostingsSound(docs, base, strs[i]);
      assert Holds(docs, base, strs[i], post[i], last[i]);
    }
  }

  lemma RecordsStep(docs: seq<Doc>, base: nat, d: Doc, tids: seq<nat>, terms: map<Term, nat>, strs: seq<Term>,
                    post: seq<seq<Byte>>, last: seq<nat>, post': seq<seq<Byte>>, last': seq<nat>)
    requires Records(docs, base, strs, post, last) && Names(strs, tids, d.tokens) && Numbered(terms, strs)
    requires AllEntered(base + |docs|, tids, post, last, post', last')
    ensures Records(docs + [d], base, strs, post', last')
  {
    forall i | 0 <= i < |strs|
      ensures Holds(docs + [d], base, strs[i], post'[i], last'[i])
    {
      SamePositions(strs, tids, d.tokens, i);
      HoldsStep(docs, base, d, strs[i], post[i], last[i]);
    }
    assert Within(d.tokens, strs);
  }

  method EnterDoc(tids: seq<nat>, doc: nat, stamp0: seq<nat>, cnt0: seq<nat>, fill0: seq<nat>,
                  post0: seq<seq<Byte>>, last0: seq<nat>, ghost d: Doc, ghost docs: seq<Doc>, ghost base: nat,
                  ghost terms: map<Term, nat>, ghost strs: seq<Term>)
    returns (stamp: seq<nat>, cnt: seq<nat>, fill: seq<nat>, post: seq<seq<Byte>>, last: seq<nat>)
    requires Records(docs, base, strs, post0, last0) && Numbered(terms, strs) && Names(strs, tids, d.tokens)
    requires |post0| <= |stamp0| == |cnt0| == |fill0| && doc == base + |docs|
    requires forall t :: 0 <= t < |stamp0| ==> stamp0[t] != doc + 1
    ensures |stamp| == |cnt| == |fill| == |stamp0|
    ensures forall t :: 0 <= t < |stamp| ==> stamp[t] == stamp0[t] || stamp[t] == doc + 1
    ensures Records(docs + [d], base, strs, post, last)
  {
    LastBound(docs, base, strs, post0, last0);
    stamp, cnt, fill, post, last := Enter(tids, doc, stamp0, cnt0, fill0, post0, last0);
    RecordsStep(docs, base, d, tids, terms, strs, post0, last0, post, last);
  }

  // ----- runs -----

  datatype Record = Record(term: Term, data: seq<Byte>)

  ghost predicate RecordOf(docs: seq<Doc>, base: nat, r: Record) {
    Occurs(docs, r.term) && r.data == RunBytes(0, Postings(docs, base, r.term))
  }

  /** The records of those terms of `docs` that fall into bucket `b`, in the order of their terms. */
  ghost predicate RunOf(run: seq<Record>, docs: seq<Doc>, base: nat, bucket: Term -> nat, b: nat) {
    && (forall i, j :: 0 <= i < j < |run| ==> Less(run[i].term, run[j].term))
    && (forall i :: 0 <= i < |run| ==> bucket(run[i].term) == b && RecordOf(docs, base, run[i]))
    && (forall d :: 0 <= d < |docs| ==> Listed(docs[d].tokens, bucket, b, run))
  }

  ghost predicate Listed(tokens: seq<Term>, bucket: Term -> nat, b: nat, run: seq<Record>) {
    forall p :: 0 <= p < |tokens| && bucket(tokens[p]) == b ==> exists i :: 0 <= i < |run| && run[i].term == tokens[p]
  }

  /** The terms of bucket `b` among `strs`. */
  method InBucket(strs: seq<Term>, bucket: Term -> nat, b: nat, ghost terms: map<Term, nat>) returns (tl: seq<Term>)
    requires Numbered(terms, strs)
    ensures forall j, k :: 0 <= j < k < |tl| ==> tl[j] != tl[k]
    ensures forall k :: 0 <= k < |tl| ==> tl[k] in terms && bucket(tl[k]) == b
    ensures forall t :: t in terms && bucket(t) == b ==> t in tl
  {
    tl := [];
    for i := 0 to |strs|
      invariant forall k :: 0 <= k < |tl| ==> tl[k] in terms && terms[tl[k]] < i && bucket(tl[k]) == b
      invariant forall j, k :: 0 <= j < k < |tl| ==> tl[j] != tl[k]
      invariant forall t :: t in terms && terms[t] < i && bucket(t) == b ==> t in tl
    {
      if bucket(strs[i]) == b {
        tl := tl + [strs[i]];
      }
    }
  }

  method WriteRecords(tl: seq<Term>, terms: map<Term, nat>, ghost strs: seq<Term>, post: seq<seq<Byte>>,
                      ghost last: seq<nat>, ghost docs: seq<Doc>, ghost base: nat) returns (run: seq<Record>)
    requires Numbered(terms, strs) && Records(docs, base, strs, post, last)
    requires AllOccur(docs, strs)
    requires forall i :: 0 <= i < |tl| ==> tl[i] in terms
    ensures |run| == |tl|
    ensures forall i :: 0 <= i < |tl| ==> run[i].term == tl[i] && RecordOf(docs, base, run[i])
  {
    hide Postings, RunBytes, Within, Occurs;
    run := [];
    for i := 0 to |tl|
      invariant |run| == i
      invariant forall k :: 0 <= k < i ==> run[k].term == tl[k] && RecordOf(docs, base, run[k])
    {
      var n := terms[tl[i]];
      assert Holds(docs, base, strs[n], post[n], last[n]);
      run := run + [Record(tl[i], post[n])];
    }
  }

  lemma SortedStrictly(tl: seq<Term>)
    requires forall j, k :: 0 <= j < k < |tl| ==> tl[j] != tl[k]
    ensures var r := Sort(Less, tl); forall i, j :: 0 <= i < j < |r| ==> Less(r[i], r[j])
  {
    var r := Sort(Less, tl);
    LessIsTotal();
    SortInOrder(Less, tl);
    SortPermutes(Less, tl);
    forall i, j | 0 <= i < j < |r|
      ensures Less(r[i], r[j])
    {
      if r[i] == r[j] {
        TwiceInMultiset(r, i, j);
        NoRepeatsInMultiset(tl, r[i]);
      }
    }
  }

  lemma SortedBucket(tl: seq<Term>, terms: map<Term, nat>, bucket: Term -> nat, b: nat)
    requires forall j, k :: 0 <= j < k < |tl| ==> tl[j] != tl[k]
    requires forall k :: 0 <= k < |tl| ==> tl[k] in terms && bucket(tl[k]) == b
    requires forall t :: t in terms && bucket(t) == b ==> t in tl
    ensures var r := Sort(Less, tl);
      && (forall i, j :: 0 <= i < j < |r| ==> Less(r[i], r[j]))
      && (forall i :: 0 <= i < |r| ==> r[i] in terms && bucket(r[i]) == b)
      && (forall t :: t in terms && bucket(t) == b ==> t in r)
  {
    var r := Sort(Less, tl);
    SortedStrictly(tl);
    forall i | 0 <= i < |r|
      ensures r[i] in terms && bucket(r[i]) == b
    {
      SortKeepsElement(Less, tl, r[i]);
    }
    forall t | t in terms && bucket(t) == b
      ensures t in r
    {
      SortKeepsElement(Less, tl, t);
    }
  }

  lemma ListedBySorted(tokens: seq<Term>, terms: map<Term, nat>, strs: seq<Term>, bucket: Term -> nat, b: nat,
                       tl: seq<Term>, run: seq<Record>)
    requires Within(tokens, strs) && Numbered(terms, strs) && |run| == |tl|
    requires forall t :: t in terms && bucket(t) == b ==> t in tl
    requires forall k :: 0 <= k < |tl| ==> run[k].term == tl[k]
    ensures Listed(tokens, bucket, b, run)
  {
    forall p | 0 <= p < |tokens| && bucket(tokens[p]) == b
      ensures exists i :: 0 <= i < |run| && run[i].term == tokens[p]
    {
      assert tokens[p] in terms;
      var i :| 0 <= i < |tl| && tl[i] == tokens[p];
      assert run[i].term == tokens[p];
    }
  }

  class Worker {
    var terms: map<Term, nat>
    var strs: seq<Term>
    var post: seq<seq<Byte>>
    var last: seq<nat>
    var stamp: seq<nat>
    var cnt: seq<nat>
    var fill: seq<nat>
    var tids: seq<nat>
    ghost var done: set<nat>  // documents this worker has ever added

    /** No counter carries the stamp of a document yet to come. */
    ghost predicate Stamps()
      reads `stamp, `done
    {
      forall i :: 0 <= i < |stamp| ==> stamp[i] == 0 || stamp[i] - 1 in done
    }

    /** The records so far are those of `docs`, the first of which has number `base`. */
    ghost predicate Run(docs: seq<Doc>, base: nat)
      reads `terms, `strs, `post, `last, `stamp, `cnt, `fill, `done
    {
      && Numbered(terms, strs) && Records(docs, base, strs, post, last)
      && |strs| <= |stamp| == |cnt| == |fill| && Stamps()
    }

    constructor ()
      ensures Run([], 0) && strs == [] && done == {}
    {
      terms, strs, post, last := map[], [], [], [];
      stamp, cnt, fill, tids := [], [], [], [];
      done := {};
    }

    /** The number of a term, a new one if it has none. */
    method Number(t: Term, ghost docs: seq<Doc>, ghost base: nat) returns (tid: nat)
      requires Run(docs, base)
      modifies `terms, `strs, `post, `last, `stamp, `cnt, `fill
      ensures Run(docs, base)
      ensures tid < |strs| && strs[tid] == t
      ensures strs == old(strs) || strs == old(strs) + [t]
    {
      hide Holds, Within;
      if t in terms {
        return terms[t];
      }
      RecordsNew(docs, base, strs, post, last, t);
      tid := |strs|;
      terms := terms[t := tid];
      strs := strs + [t];
      post := post + [[]];
      last := last + [0];
      if |strs| > |stamp| {
        stamp, cnt, fill := stamp + [0], cnt + [0], fill + [0];
      }
    }

    /** Numbers the tokens of one document, extending the vocabulary as needed. */
    method Intern(tokens: seq<Term>, ghost docs: seq<Doc>, ghost base: nat)
      requires Run(docs, base)
      modifies `terms, `strs, `post, `last, `stamp, `cnt, `fill, `tids
      ensures Run(docs, base) && Names(strs, tids, tokens)
      ensures forall t :: t in strs ==> t in old(strs) || t in tokens
    {
      hide Records, Numbered, Stamps;
      tids := [];
      for n := 0 to |tokens|
        invariant Run(docs, base) && |tids| == n
        invariant forall p :: 0 <= p < n ==> tids[p] < |strs| && strs[tids[p]] == tokens[p]
        invariant forall t :: t in strs ==> t in old(strs) || t in tokens
      {
        var tid := Number(tokens[n], docs, base);
        tids := tids + [tid];
      }
    }

    /** Appends document `doc`, whose token numbers are `tids`, to the records of its terms. */
    method AddDoc(doc: nat, ghost d: Doc, ghost docs: seq<Doc>, ghost base: nat)
      requires Run(docs, base) && doc == base + |docs| && doc !in done
      requires Names(strs, tids, d.tokens)
      modifies `post, `last, `stamp, `cnt, `fill, `done
      ensures Run(docs + [d], base)
      ensures done == old(done) + {doc}
    {
      done := done + {doc};
      stamp, cnt, fill, post, last :=
        EnterDoc(tids, doc, stamp, cnt, fill, post, last, d, docs, base, terms, strs);
    }

    lemma RunEmpty(base: nat)
      requires Run([], 0) && strs == []
      ensures Run([], base)
    {}

    /** Reads one document. */
    method Read(doc: nat, d: Doc, ghost docs: seq<Doc>, ghost base: nat)
      requires Run(docs, base) && doc == base + |docs| && doc !in done
      requires AllOccur(docs, strs)
      modifies this
      ensures Run(docs + [d], base) && done == old(done) + {doc}
      ensures AllOccur(docs + [d], strs)
    {
      Intern(d.tokens, docs, base);
      OccursMore(docs, d, strs, old(strs));
      AddDoc(doc, d, docs, base);
    }

    /** Reads a chunk whose first document has number `base`. */
    method Process(docs: seq<Doc>, base: nat)
      requires Run([], 0) && strs == []
      requires forall d :: d in done ==> d < base || base + |docs| <= d
      modifies this
      ensures Run(docs, base)
      ensures AllOccur(docs, strs)
      ensures forall d :: d in done ==> d in old(done) || base <= d < base + |docs|
    {
      ghost var seen: seq<Doc> := [];
      RunEmpty(base);
      for n := 0 to |docs|
        invariant Run(seen, base)
        invariant seen == docs[..n] && AllOccur(seen, strs)
        invariant forall d :: d in done ==> d in old(done) || base <= d < base + n
      {
        Read(base + n, docs[n], seen, base);
        seen := seen + [docs[n]];
      }
      assert docs[..|docs|] == docs;
    }

    /** Writes the records of bucket `b`, ordered by term. */
    method Write(bucket: Term -> nat, b: nat, ghost docs: seq<Doc>, ghost base: nat) returns (run: seq<Record>)
      requires Run(docs, base)
      requires AllOccur(docs, strs)
      ensures RunOf(run, docs, base, bucket, b)
    {
      var tl := InBucket(strs, bucket, b, terms);
      var sorted := Sort(Less, tl);
      SortedBucket(tl, terms, bucket, b);
      run := WriteRecords(sorted, terms, strs, post, last, docs, base);
      forall d | 0 <= d < |docs|
        ensures Listed(docs[d].tokens, bucket, b, run)
      {
        ListedBySorted(docs[d].tokens, terms, strs, bucket, b, sorted, run);
      }
    }

    /** Forgets the run, keeping the counters. */
    method Reset()
      requires |stamp| == |cnt| == |fill| && Stamps()
      modifies `terms, `strs, `post, `last
      ensures Run([], 0) && strs == []
    {
      terms, strs, post, last := map[], [], [], [];
    }
  }

  lemma OccursMore(docs: seq<Doc>, d: Doc, strs: seq<Term>, strs0: seq<Term>)
    requires AllOccur(docs, strs0)
    requires forall t :: t in strs ==> t in strs0 || t in d.tokens
    ensures AllOccur(docs + [d], strs)
  {
    var more := docs + [d];
    assert more[|docs|] == d;
    forall i | 0 <= i < |strs|
      ensures Occurs(more, strs[i])
    {
      assert strs[i] in strs;
      if strs[i] in strs0 {
        var k :| 0 <= k < |strs0| && strs0[k] == strs[i];
        var j :| 0 <= j < |docs| && strs[i] in docs[j].tokens;
        assert more[j] == docs[j];
      }
    }
  }

  lemma AbsentHasNoPositions(xs: seq<nat>, t: nat)
    requires t !in xs
    ensures Positions(xs, t) == []
  {
    PositionsSound(xs, t);
  }

  lemma {:induction false} PostingsAbsent(docs: seq<Doc>, base: nat, t: Term)
    requires forall d :: 0 <= d < |docs| ==> t !in docs[d].tokens
    ensures Postings(docs, base, t) == []
  {
    if docs != [] {
      PostingsAbsent(docs[..|docs| - 1], base, t);
    }
  }
}
