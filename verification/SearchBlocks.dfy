/** The block-compressed postings of one term: blocks of 128 documents, a skip entry a block,
    and the positions in a file of their own. */
module SearchBlocks {
  import opened SearchVarint
  import opened SearchCorpus

  /** Last document of a block, where its bytes start, where its positions start. */
  datatype SkipEntry = SkipEntry(last: nat, off: nat, pos: nat)

  // ----- what a block holds -----

  function DocsOf(ps: seq<Posting>): (ds: seq<nat>)
    ensures |ds| == |ps|
  {
    seq(|ps|, i requires 0 <= i < |ps| => ps[i].doc)
  }

  function TfsOf(ps: seq<Posting>): (ts: seq<nat>)
    ensures |ts| == |ps|
  {
    seq(|ps|, i requires 0 <= i < |ps| => |ps[i].positions|)
  }

  function BlockBytes(prev: nat, ps: seq<Posting>): seq<Byte> {
    Puts(Deltas(prev, DocsOf(ps))) + Puts(TfsOf(ps))
  }

  function BlockEnd(n: nat, b: nat): nat {
    if 128 * (b + 1) <= n then 128 * (b + 1) else n
  }

  function Block(ps: seq<Posting>, b: nat): seq<Posting>
    requires 128 * b <= |ps|
  {
    ps[128 * b..BlockEnd(|ps|, b)]
  }

  /** The document before block `b`. */
  function BlockPrev(ps: seq<Posting>, b: nat): nat
    requires 128 * b <= |ps|
  {
    if b == 0 then 0 else ps[128 * b - 1].doc
  }

  ghost predicate SkipOk(s: SkipEntry, blocks: seq<Byte>, firstPos: nat, ps: seq<Posting>, b: nat) {
    && 128 * b < |ps|
    && s.last == ps[BlockEnd(|ps|, b) - 1].doc
    && At(blocks, s.off, BlockBytes(BlockPrev(ps, b), Block(ps, b)))
    && s.pos == firstPos + |PosFile(ps[..128 * b])|
  }

  /** Every entry of the skip table describes its block. */
  ghost predicate AllSkips(skip: seq<SkipEntry>, blocks: seq<Byte>, firstPos: nat, ps: seq<Posting>) {
    forall b :: 0 <= b < |skip| ==> SkipOk(skip[b], blocks, firstPos, ps, b)
  }

  /** A full block is not touched by postings and bytes that come after it. */
  lemma SkipStays(s: SkipEntry, blocks: seq<Byte>, more: seq<Byte>, firstPos: nat, ps: seq<Posting>, qs: seq<Posting>, b: nat)
    requires SkipOk(s, blocks, firstPos, ps, b)
    requires 128 * (b + 1) <= |ps| || qs == []
    ensures SkipOk(s, blocks + more, firstPos, ps + qs, b)
  {
    assert (ps + qs)[..128 * b] == ps[..128 * b];
    assert Block(ps + qs, b) == Block(ps, b);
    AtGrow(blocks, more, s.off, BlockBytes(BlockPrev(ps, b), Block(ps, b)));
  }

  // ----- encoding -----

  method PutDocs(b: seq<Byte>, prev: nat, ds: array<nat>, n: nat) returns (r: seq<Byte>)
    requires n <= ds.Length && Increasing(ds[..n]) && (n > 0 ==> prev <= ds[0])
    ensures r == b + Puts(Deltas(prev, ds[..n]))
  {
    r := b;
    var p := prev;
    for i := 0 to n
      invariant p == Last(prev, ds[..i])
      invariant i < n ==> p <= ds[i]
      invariant r == b + Puts(Deltas(prev, ds[..i]))
    {
      r := PutUvarint(r, ds[i] - p);
      assert ds[..i + 1] == ds[..i] + [ds[i]];
      DeltasConcat(prev, ds[..i], [ds[i]]);
      assert Deltas(p, [ds[i]]) == [ds[i] - p];
      PutsSnoc(Deltas(prev, ds[..i]), ds[i] - p);
      p := ds[i];
      assert ds[..n][i] == ds[i] && (i + 1 < n ==> ds[..n][i + 1] == ds[i + 1]);
    }
  }

  method PutAll(b: seq<Byte>, ts: array<nat>, n: nat) returns (r: seq<Byte>)
    requires n <= ts.Length
    ensures r == b + Puts(ts[..n])
  {
    r := b;
    for i := 0 to n
      invariant r == b + Puts(ts[..i])
    {
      r := PutUvarint(r, ts[i]);
      assert ts[..i + 1] == ts[..i] + [ts[i]];
      PutsSnoc(ts[..i], ts[i]);
    }
  }

  method PutBlock(prev: nat, bdocs: array<nat>, btfs: array<nat>, n: nat, ghost blk: seq<Posting>)
    returns (bytes: seq<Byte>, last: nat)
    requires 0 < n <= bdocs.Length == btfs.Length && bdocs[..n] == DocsOf(blk) && btfs[..n] == TfsOf(blk)
    requires Increasing(DocsOf(blk)) && prev <= DocsOf(blk)[0]
    ensures bytes == BlockBytes(prev, blk) && blk != [] && last == blk[|blk| - 1].doc
  {
    assert bdocs[..n][0] == bdocs[0] && bdocs[..n][n - 1] == bdocs[n - 1] && |DocsOf(blk)| == n;
    var docs := PutDocs([], prev, bdocs, n);
    var tfs := PutAll([], btfs, n);
    bytes, last := docs + tfs, bdocs[n - 1];
  }

  /** Collects the postings of one term into blocks, appending their positions to a file. */
  class Encoder {
    var blocks: seq<Byte>
    var skip: seq<SkipEntry>
    const bdocs: array<nat>
    const btfs: array<nat>
    var n: nat
    var df: nat
    var prevLast: nat
    var blockPos: nat
    var pos: seq<Byte>
    ghost const pos0: seq<Byte>

    ghost predicate Shape()
      reads `n
    {
      bdocs.Length == btfs.Length == 128 && bdocs != btfs && n <= 128
    }

    /** The open block is the end of `ps`. */
    ghost predicate Open(ps: seq<Posting>)
      reads `skip, `n, `prevLast, `blockPos, bdocs, btfs
    {
      && Shape() && |ps| == 128 * |skip| + n
      && bdocs[..n] == DocsOf(ps[128 * |skip|..]) && btfs[..n] == TfsOf(ps[128 * |skip|..])
      && prevLast == BlockPrev(ps, |skip|)
      && (n > 0 ==> blockPos == |pos0| + |PosFile(ps[..128 * |skip|])|)
    }

    ghost predicate Closed(ps: seq<Posting>)
      reads `skip, `blocks
    {
      AllSkips(skip, blocks, |pos0|, ps) && if skip == [] then blocks == [] else skip[0].off == 0
    }

    ghost predicate Added(ps: seq<Posting>)
      reads this, bdocs, btfs
    {
      Open(ps) && Closed(ps) && df == |ps| && pos == pos0 + PosFile(ps)
    }

    /** `ps` has been added, and every full block has been written. */
    ghost predicate Valid(ps: seq<Posting>)
      reads this, bdocs, btfs
    {
      Added(ps) && n < 128
    }

    constructor (posFile: seq<Byte>)
      ensures Valid([]) && pos0 == posFile && fresh(bdocs) && fresh(btfs)
    {
      blocks, skip, n, df, prevLast, blockPos := [], [], 0, 0, 0, 0;
      pos, pos0 := posFile, posFile;
      bdocs := new nat[128];
      btfs := new nat[128];
      new;
      assert bdocs[..0] == DocsOf([]) && btfs[..0] == TfsOf([]);
    }

    method Flush(ghost ps: seq<Posting>)
      requires Added(ps) && n > 0 && Ordered(ps)
      modifies `blocks, `skip, `prevLast, `n
      ensures n == 0 && |skip| == old(|skip|) + 1
      ensures Closed(ps)
      ensures old(n) == 128 ==> Added(ps)
    {
      ghost var blk := ps[128 * |skip|..];
      assert Block(ps, |skip|) == blk;
      OrderedBlock(ps, |skip|);
      var bytes, last := PutBlock(prevLast, bdocs, btfs, n, blk);
      ClosedBlock(skip, blocks, |pos0|, ps, bytes, blockPos);
      skip := skip + [SkipEntry(last, |blocks|, blockPos)];
      blocks := blocks + bytes;
      prevLast := last;
      assert n == 128 ==> ps[128 * |skip|..] == [];
      n := 0;
    }

    /** Puts one posting into the open block. */
    method Put(doc: nat, tf: nat, ghost ps: seq<Posting>, ghost p: Posting)
      requires Open(ps) && n < 128
      requires doc == p.doc && tf == |p.positions|
      requires blockPos == |pos0| + |PosFile(ps[..128 * |skip|])|
      modifies `n, bdocs, btfs
      ensures Open(ps + [p]) && n == old(n) + 1
    {
      OpenStep(ps, p, |skip|);
      bdocs[n], btfs[n] := doc, tf;
      assert bdocs[..n + 1] == bdocs[..n] + [doc] && btfs[..n + 1] == btfs[..n] + [tf];
      n := n + 1;
    }

    /** Writes the position bytes of the next posting, noting where a new block's begin. */
    method PutPositions(bytes: seq<Byte>, ghost ps: seq<Posting>, ghost p: Posting)
      requires Open(ps) && pos == pos0 + PosFile(ps) && bytes == PosBytes(p)
      modifies `pos, `blockPos
      ensures Open(ps) && pos == pos0 + PosFile(ps + [p])
      ensures blockPos == |pos0| + |PosFile(ps[..128 * |skip|])|
    {
      if n == 0 {
        blockPos := |pos|;
        assert ps[..128 * |skip|] == ps;
      }
      PosFileSnoc(ps, p);
      assert pos0 + PosFile(ps) + bytes == pos0 + (PosFile(ps) + bytes);
      pos := pos + bytes;
    }

    method Store(doc: nat, tf: nat, bytes: seq<Byte>, ghost ps: seq<Posting>, ghost p: Posting)
      requires Valid(ps)
      requires doc == p.doc && tf == |p.positions| && bytes == PosBytes(p)
      modifies `pos, `blockPos, `df, `n, bdocs, btfs
      ensures Added(ps + [p]) && n > 0
    {
      hide PosFile, SkipOk, DocsOf, TfsOf;
      PutPositions(bytes, ps, p);
      Put(doc, tf, ps, p);
      df := df + 1;
      ClosedStep(skip, blocks, |pos0|, ps, p);
    }

    /** Adds one posting, whose position bytes are `bytes`. */
    method Add(doc: nat, tf: nat, bytes: seq<Byte>, ghost ps: seq<Posting>, ghost p: Posting)
      requires Valid(ps) && Ordered(ps + [p])
      requires doc == p.doc && tf == |p.positions| && bytes == PosBytes(p)
      modifies this, bdocs, btfs
      ensures Valid(ps + [p])
    {
      Store(doc, tf, bytes, ps, p);
      if n == 128 {
        Flush(ps + [p]);
      }
    }

    /** Writes the open block, if there is one. */
    method Finish(ghost ps: seq<Posting>)
      requires Valid(ps) && Ordered(ps)
      modifies `blocks, `skip, `prevLast, `n
      ensures Closed(ps) && |skip| == (|ps| + 128 - 1) / 128
    {
      if n > 0 {
        Flush(ps);
      }
    }
  }

  lemma OpenStep(ps: seq<Posting>, p: Posting, k: nat)
    requires 128 * k <= |ps|
    ensures DocsOf((ps + [p])[128 * k..]) == DocsOf(ps[128 * k..]) + [p.doc]
    ensures TfsOf((ps + [p])[128 * k..]) == TfsOf(ps[128 * k..]) + [|p.positions|]
    ensures BlockPrev(ps + [p], k) == BlockPrev(ps, k)
    ensures (ps + [p])[..128 * k] == ps[..128 * k]
  {
    assert (ps + [p])[128 * k..] == ps[128 * k..] + [p];
  }

  lemma SkipsStay(skip: seq<SkipEntry>, blocks: seq<Byte>, more: seq<Byte>, firstPos: nat,
                  ps: seq<Posting>, qs: seq<Posting>)
    requires AllSkips(skip, blocks, firstPos, ps)
    requires 128 * |skip| <= |ps| || qs == []
    ensures AllSkips(skip, blocks + more, firstPos, ps + qs)
  {
    forall b | 0 <= b < |skip|
      ensures SkipOk(skip[b], blocks + more, firstPos, ps + qs, b)
    {
      SkipStays(skip[b], blocks, more, firstPos, ps, qs, b);
    }
  }

  lemma ClosedStep(skip: seq<SkipEntry>, blocks: seq<Byte>, firstPos: nat, ps: seq<Posting>, p: Posting)
    requires 128 * |skip| <= |ps|
    requires AllSkips(skip, blocks, firstPos, ps)
    ensures AllSkips(skip, blocks, firstPos, ps + [p])
  {
    SkipsStay(skip, blocks, [], firstPos, ps, [p]);
    assert blocks + [] == blocks;
  }

  /** Closing the last block of `ps`. */
  lemma ClosedBlock(skip: seq<SkipEntry>, blocks: seq<Byte>, firstPos: nat, ps: seq<Posting>, bytes: seq<Byte>, pos: nat)
    requires 128 * |skip| < |ps| <= 128 * (|skip| + 1)
    requires AllSkips(skip, blocks, firstPos, ps)
    requires bytes == BlockBytes(BlockPrev(ps, |skip|), Block(ps, |skip|))
    requires pos == firstPos + |PosFile(ps[..128 * |skip|])|
    ensures AllSkips(skip + [SkipEntry(ps[|ps| - 1].doc, |blocks|, pos)], blocks + bytes, firstPos, ps)
  {
    assert ps + [] == ps;
    SkipsStay(skip, blocks, bytes, firstPos, ps, []);
    assert At(blocks + bytes, |blocks|, bytes);
    var s := SkipEntry(ps[|ps| - 1].doc, |blocks|, pos);
    assert SkipOk(s, blocks + bytes, firstPos, ps, |skip|);
  }

  lemma OrderedBlock(ps: seq<Posting>, b: nat)
    requires Ordered(ps) && 128 * b < |ps|
    ensures Increasing(DocsOf(Block(ps, b))) && BlockPrev(ps, b) <= DocsOf(Block(ps, b))[0]
  {}

  // ----- copying a run's record -----

  /** Decoding the next entry of a record: gap, then frequency, then positions. */
  lemma EntryAt(data: seq<Byte>, i: nat, prev: nat, ps: seq<Posting>) returns (j: nat, k: nat, e: nat)
    requires ps != [] && At(data, i, RunBytes(prev, ps)) && prev <= ps[0].doc
    ensures HasVarint(data, i) && Decode(data, i) == (ps[0].doc - prev, j)
    ensures HasVarint(data, j) && Decode(data, j) == (|ps[0].positions|, k)
    ensures HasVarints(data, k, |ps[0].positions|) && Skip(data, k, |ps[0].positions|) == e
    ensures i < k <= e <= |data| && data[k..e] == PosBytes(ps[0])
    ensures At(data, e, RunBytes(ps[0].doc, ps[1..])) && e - i == |EntryBytes(prev, ps[0])|
  {
    hide Put, Puts, Deltas, PosBytes;
    var p := ps[0];
    var a, rest := Put(Gap(prev, p.doc)), Put(|p.positions|) + (PosBytes(p) + RunBytes(p.doc, ps[1..]));
    Associate(a, Put(|p.positions|), PosBytes(p), RunBytes(p.doc, ps[1..]));
    j := i + |a|;
    AtSplit(data, i, a, rest);
    DecodePut(data, i, Gap(prev, p.doc));
    k, e := FrequencyAt(data, j, p, RunBytes(p.doc, ps[1..]));
  }

  lemma Associate(a: seq<Byte>, b: seq<Byte>, c: seq<Byte>, d: seq<Byte>)
    ensures a + b + c + d == a + (b + (c + d))
  {}

  lemma FrequencyAt(data: seq<Byte>, j: nat, p: Posting, rest: seq<Byte>) returns (k: nat, e: nat)
    requires At(data, j, Put(|p.positions|) + (PosBytes(p) + rest))
    ensures HasVarint(data, j) && Decode(data, j) == (|p.positions|, k)
    ensures HasVarints(data, k, |p.positions|) && Skip(data, k, |p.positions|) == e
    ensures k == j + |Put(|p.positions|)| && e == k + |PosBytes(p)| <= |data|
    ensures data[k..e] == PosBytes(p) && At(data, e, rest)
  {
    hide Put, Puts, Deltas;
    var b, c := Put(|p.positions|), PosBytes(p);
    AtSplit(data, j, b, c + rest);
    DecodePut(data, j, |p.positions|);
    k, e := j + |b|, j + |b| + |c|;
    AtSplit(data, k, c, rest);
    SkipPuts(data, k, Deltas(0, p.positions));
  }

  /** Appends the postings of one run's record to those already added. */
  method AddRun(enc: Encoder, data: seq<Byte>, ghost ps: seq<Posting>, ghost qs: seq<Posting>)
    requires enc.Valid(ps) && Ordered(ps + qs) && data == RunBytes(0, qs)
    modifies enc, enc.bdocs, enc.btfs
    ensures enc.Valid(ps + qs)
  {
    var doc: nat := 0;
    var i: nat := 0;
    ghost var seen, rest := ps, qs;
    while i < |data|
      invariant i <= |data| && seen + rest == ps + qs && Ordered(seen + rest)
      invariant rest != [] ==> doc <= rest[0].doc
      invariant At(data, i, RunBytes(doc, rest)) && i + |RunBytes(doc, rest)| == |data|
      invariant enc.Valid(seen)
      decreases |data| - i
    {
      MoveOne(seen, rest);
      ghost var j, p, e := EntryAt(data, i, doc, rest);
      var v, tf;
      v, i := Uvarint(data, i);
      doc := doc + v;
      tf, i := Uvarint(data, i);
      var pstart := i;
      i := SkipVarints(data, i, tf);
      enc.Add(doc, tf, data[pstart..i], seen, rest[0]);
      seen, rest := seen + [rest[0]], rest[1..];
    }
    if rest != [] {
      EntryNotEmpty(doc, rest);
    }
    assert seen + [] == seen;
  }

  lemma MoveOne(seen: seq<Posting>, rest: seq<Posting>)
    requires rest != [] && Ordered(seen + rest)
    ensures seen + [rest[0]] + rest[1..] == seen + rest && Ordered(seen + [rest[0]])
    ensures |rest| > 1 ==> rest[0].doc <= rest[1].doc
  {
    var all := seen + rest;
    assert seen + [rest[0]] == all[..|seen| + 1];
    assert |rest| > 1 ==> all[|seen|] == rest[0] && all[|seen| + 1] == rest[1];
  }

  lemma EntryNotEmpty(prev: nat, ps: seq<Posting>)
    requires ps != []
    ensures RunBytes(prev, ps) != []
  {
    assert Put(Gap(prev, ps[0].doc)) != [];
  }

  // ----- one term of the dictionary -----

  /** A dictionary entry. The skip table is left out when there is only one block. */
  datatype Entry = Entry(term: Term, df: nat, skip: seq<SkipEntry>, docOff: nat, posOff: nat)

  function NumBlocks(df: nat): nat {
    (df + 128 - 1) / 128
  }

  function BlockOff(e: Entry, b: nat): nat
    requires e.skip == [] || b < |e.skip|
  {
    if e.skip == [] then 0 else e.skip[b].off
  }

  function BlockPos(e: Entry, b: nat): nat
    requires e.skip == [] || b < |e.skip|
  {
    if e.skip == [] then e.posOff else e.skip[b].pos
  }

  ghost predicate BlockOk(e: Entry, docs: seq<Byte>, ps: seq<Posting>, b: nat)
    requires e.skip == [] || b < |e.skip|
  {
    && 128 * b < |ps|
    && (e.skip != [] ==> e.skip[b].last == ps[BlockEnd(|ps|, b) - 1].doc)
    && At(docs, e.docOff + BlockOff(e, b), BlockBytes(BlockPrev(ps, b), Block(ps, b)))
    && BlockPos(e, b) == e.posOff + |PosFile(ps[..128 * b])|
  }

  /** The entry and the files describe the postings `ps`. */
  ghost predicate EntryOk(e: Entry, docs: seq<Byte>, pos: seq<Byte>, ps: seq<Posting>) {
    && Ordered(ps) && e.df == |ps| > 0
    && |e.skip| == (if NumBlocks(e.df) > 1 then NumBlocks(e.df) else 0)
    && (forall b :: 0 <= b < NumBlocks(e.df) ==> BlockOk(e, docs, ps, b))
    && At(pos, e.posOff, PosFile(ps))
  }

  lemma EntryStays(e: Entry, docs: seq<Byte>, pos: seq<Byte>, ps: seq<Posting>, moreDocs: seq<Byte>, morePos: seq<Byte>)
    requires EntryOk(e, docs, pos, ps)
    ensures EntryOk(e, docs + moreDocs, pos + morePos, ps)
  {
    AtGrow(pos, morePos, e.posOff, PosFile(ps));
    forall b | 0 <= b < NumBlocks(e.df)
      ensures BlockOk(e, docs + moreDocs, ps, b)
    {
      assert BlockOk(e, docs, ps, b);
      AtGrow(docs, moreDocs, e.docOff + BlockOff(e, b), BlockBytes(BlockPrev(ps, b), Block(ps, b)));
    }
  }

  function Flatten<T>(pss: seq<seq<T>>): seq<T> {
    if pss == [] then [] else Flatten(pss[..|pss| - 1]) + pss[|pss| - 1]
  }

  lemma {:induction false} FlattenPrefix<T>(pss: seq<seq<T>>, k: nat)
    requires k <= |pss|
    ensures exists rest :: Flatten(pss) == Flatten(pss[..k]) + rest
  {
    if k == |pss| {
      assert pss[..k] == pss && Flatten(pss) == Flatten(pss[..k]) + [];
    } else {
      var n := |pss| - 1;
      FlattenPrefix(pss[..n], k);
      assert pss[..n][..k] == pss[..k];
      var rest :| Flatten(pss[..n]) == Flatten(pss[..k]) + rest;
      assert Flatten(pss) == Flatten(pss[..k]) + (rest + pss[n]);
    }
  }

  /** Merges the records of one term, in the order of their runs, into the dictionary files. */
  method EncodeTerm(term: Term, datas: seq<seq<Byte>>, docs0: seq<Byte>, pos0: seq<Byte>, ghost pss: seq<seq<Posting>>)
    returns (e: Entry, docs: seq<Byte>, pos: seq<Byte>)
    requires |datas| == |pss| && forall i :: 0 <= i < |pss| ==> datas[i] == RunBytes(0, pss[i])
    requires Ordered(Flatten(pss)) && Flatten(pss) != []
    ensures docs0 <= docs && pos0 <= pos
    ensures e.term == term && EntryOk(e, docs, pos, Flatten(pss))
  {
    hide RunBytes, SkipOk, DocsOf, TfsOf;
    var enc := new Encoder(pos0);
    for k := 0 to |datas|
      invariant enc.Valid(Flatten(pss[..k])) && enc.pos0 == pos0
      invariant fresh(enc) && fresh(enc.bdocs) && fresh(enc.btfs)
    {
      FlattenPrefix(pss, k + 1);
      assert pss[..k + 1][..k] == pss[..k];
      ghost var rest :| Flatten(pss) == Flatten(pss[..k + 1]) + rest;
      OrderedSplit(Flatten(pss[..k + 1]), rest);
      AddRun(enc, datas[k], Flatten(pss[..k]), pss[k]);
    }
    ghost var ps := Flatten(pss);
    assert pss[..|pss|] == pss;
    enc.Finish(ps);
    pos := enc.pos;
    docs := docs0 + enc.blocks;
    e := Entry(term, enc.df, if |enc.skip| > 1 then enc.skip else [], |docs0|, |pos0|);
    FinishedEntry(e, docs0, pos0, enc.skip, enc.blocks, ps);
  }

  lemma FinishedEntry(e: Entry, docs0: seq<Byte>, pos0: seq<Byte>, skip: seq<SkipEntry>, blocks: seq<Byte>, ps: seq<Posting>)
    requires Ordered(ps) && ps != [] && |skip| == NumBlocks(|ps|)
    requires AllSkips(skip, blocks, |pos0|, ps) && skip[0].off == 0
    requires e == Entry(e.term, |ps|, if |skip| > 1 then skip else [], |docs0|, |pos0|)
    ensures EntryOk(e, docs0 + blocks, pos0 + PosFile(ps), ps)
  {
    hide BlockOk, SkipOk, Ordered, PosFile, At;
    forall b | 0 <= b < |skip|
      ensures BlockOk(e, docs0 + blocks, ps, b)
    {
      FinishedBlock(e, docs0, pos0, skip, blocks, ps, b);
    }
    AtWhole(PosFile(ps));
    AtBehind(pos0, PosFile(ps), 0, PosFile(ps));
  }

  lemma FinishedBlock(e: Entry, docs0: seq<Byte>, pos0: seq<Byte>, skip: seq<SkipEntry>, blocks: seq<Byte>, ps: seq<Posting>, b: nat)
    requires b < |skip| && SkipOk(skip[b], blocks, |pos0|, ps, b) && skip[0].off == 0
    requires e == Entry(e.term, |ps|, if |skip| > 1 then skip else [], |docs0|, |pos0|)
    ensures BlockOk(e, docs0 + blocks, ps, b)
  {
    hide BlockBytes, At;
    AtBehind(docs0, blocks, skip[b].off, BlockBytes(BlockPrev(ps, b), Block(ps, b)));
    assert |skip| == 1 ==> ps[..128 * b] == [];
  }

  lemma AtWhole(s: seq<Byte>)
    ensures At(s, 0, s)
  {}

  lemma AtBehind(before: seq<Byte>, b: seq<Byte>, i: nat, s: seq<Byte>)
    requires At(b, i, s)
    ensures At(before + b, |before| + i, s)
  {
    assert (before + b)[|before| + i..|before| + i + |s|] == b[i..i + |s|];
  }
}
