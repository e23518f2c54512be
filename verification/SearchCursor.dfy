/** Reading postings back: dictionary lookup and the skipping cursor. */
module SearchCursor {
  import opened SearchVarint
  import opened SearchCorpus
  import opened SearchOrder
  import opened SearchWorker
  import opened SearchBlocks
  import opened SearchMerge

  const END := 0xFFFF_FFFF

  // ----- decoding -----

  method DecodeDocs(data: seq<Byte>, at: nat, prev0: nat, n: nat, ghost xs: seq<nat>) returns (docs: seq<nat>, p: nat)
    requires |xs| == n && Increasing(xs) && (n > 0 ==> prev0 <= xs[0])
    requires At(data, at, Puts(Deltas(prev0, xs)))
    ensures docs == xs && p == at + |Puts(Deltas(prev0, xs))|
  {
    docs, p := [], at;
    var prev := prev0;
    ghost var ds := Deltas(prev0, xs);
    for i := 0 to n
      invariant docs == xs[..i] && prev == (if i == 0 then prev0 else xs[i - 1])
      invariant PutsFrom(data, p, ds, i) && p + |Puts(ds[i..])| == at + |Puts(ds)|
    {
      NextPut(data, p, ds, i);
      DeltasAt(prev0, xs, i);
      var v;
      v, p := Uvarint(data, p);
      prev := prev + v;
      docs := docs + [prev];
    }
  }

  ghost predicate PutsFrom(data: seq<Byte>, p: nat, vs: seq<nat>, i: nat)
    requires i <= |vs|
  {
    At(data, p, Puts(vs[i..]))
  }

  lemma NextPut(data: seq<Byte>, p: nat, vs: seq<nat>, i: nat)
    requires i < |vs| && PutsFrom(data, p, vs, i)
    ensures HasVarint(data, p) && Decode(data, p).0 == vs[i] && PutsFrom(data, Decode(data, p).1, vs, i + 1)
    ensures Decode(data, p).1 + |Puts(vs[i + 1..])| == p + |Puts(vs[i..])|
  {
    assert vs[i..][1..] == vs[i + 1..];
    AtSplit(data, p, Put(vs[i]), Puts(vs[i + 1..]));
    DecodePut(data, p, vs[i]);
  }

  lemma {:induction false} DeltasAt(prev: nat, xs: seq<nat>, i: nat)
    requires i < |xs| && Increasing(xs) && prev <= xs[0]
    ensures Deltas(prev, xs)[i] == xs[i] - (if i == 0 then prev else xs[i - 1])
    decreases i
  {
    if i > 0 {
      DeltasAt(xs[0], xs[1..], i - 1);
    }
  }

  method DecodeAll(data: seq<Byte>, at: nat, n: nat, ghost xs: seq<nat>) returns (ts: seq<nat>)
    requires |xs| == n && At(data, at, Puts(xs))
    ensures ts == xs
  {
    ts := [];
    var p := at;
    for i := 0 to n
      invariant ts == xs[..i] && PutsFrom(data, p, xs, i)
    {
      NextPut(data, p, xs, i);
      var v;
      v, p := Uvarint(data, p);
      ts := ts + [v];
    }
  }

  // ----- positions -----

  function Sum(xs: seq<nat>): nat {
    if xs == [] then 0 else Sum(xs[..|xs| - 1]) + xs[|xs| - 1]
  }

  /** As many integers follow one another in the positions file as the frequencies add up to. */
  lemma {:induction false} PosFileCount(ps: seq<Posting>) returns (vs: seq<nat>)
    ensures PosFile(ps) == Puts(vs) && |vs| == Sum(TfsOf(ps))
  {
    if ps == [] {
      vs := [];
    } else {
      var n := |ps| - 1;
      var ws := PosFileCount(ps[..n]);
      assert ps == ps[..n] + [ps[n]];
      PosFileSnoc(ps[..n], ps[n]);
      vs := ws + Deltas(0, ps[n].positions);
      PutsConcat(ws, Deltas(0, ps[n].positions));
      assert TfsOf(ps)[..n] == TfsOf(ps[..n]);
    }
  }

  /** Skipping the integers of some postings leads from their positions to those of the next. */
  lemma SkipPostings(pos: seq<Byte>, off: nat, ps: seq<Posting>, a: nat, b: nat)
    requires a <= b <= |ps| && At(pos, off, PosFile(ps))
    ensures var p := off + |PosFile(ps[..a])|;
      HasVarints(pos, p, Sum(TfsOf(ps[a..b]))) && Skip(pos, p, Sum(TfsOf(ps[a..b]))) == off + |PosFile(ps[..b])|
  {
    hide PosFile, Sum, Skip, HasVarints, Puts;
    PosFileSplit(pos, off, ps, a, b);
    var vs := PosFileCount(ps[a..b]);
    SkipPuts(pos, off + |PosFile(ps[..a])|, vs);
  }

  lemma PosFileSplit(pos: seq<Byte>, off: nat, ps: seq<Posting>, a: nat, b: nat)
    requires a <= b <= |ps| && At(pos, off, PosFile(ps))
    ensures At(pos, off + |PosFile(ps[..a])|, PosFile(ps[a..b]))
    ensures |PosFile(ps[..a])| + |PosFile(ps[a..b])| == |PosFile(ps[..b])|
    ensures off + |PosFile(ps[..b])| <= |pos|
  {
    hide PosFile;
    assert ps == ps[..b] + ps[b..] && ps[..b] == ps[..a] + ps[a..b];
    PosFileConcat(ps[..b], ps[b..]);
    PosFileConcat(ps[..a], ps[a..b]);
    AtSplit(pos, off, PosFile(ps[..b]), PosFile(ps[b..]));
    AtSplit(pos, off, PosFile(ps[..a]), PosFile(ps[a..b]));
  }

  // ----- the cursor -----

  /** The number of postings of block `b`. */
  function BlockLen(df: nat, b: nat): nat
    requires b < NumBlocks(df)
  {
    if b == NumBlocks(df) - 1 then df - 128 * (NumBlocks(df) - 1) else 128
  }

  lemma BlockLenMeans(ps: seq<Posting>, b: nat)
    requires b < NumBlocks(|ps|)
    ensures 128 * b + BlockLen(|ps|, b) == BlockEnd(|ps|, b) && BlockLen(|ps|, b) > 0 && 128 * b < |ps|
    ensures b < NumBlocks(|ps|) - 1 ==> BlockEnd(|ps|, b) == 128 * (b + 1)
    ensures b == NumBlocks(|ps|) - 1 ==> BlockEnd(|ps|, b) == |ps|
  {}

  class Cursor {
    const e: Entry
    const nblocks: nat
    const blocks: seq<Byte>
    const pos: seq<Byte>
    ghost const ps: seq<Posting>
    var blk: nat
    var n: nat
    var i: nat
    var doc: nat
    var docs: seq<nat>
    var tfs: seq<nat>
    var pj: nat
    var pp: nat

    ghost predicate Fixed() {
      && EntryOk(e, blocks, pos, ps) && nblocks == NumBlocks(e.df)
      && forall k :: 0 <= k < |ps| ==> ps[k].doc < END
    }

    /** Block `blk` is decoded, and the positions of its first `pj` postings are skipped. */
    ghost predicate Loaded()
      reads this
    {
      && blk < nblocks == NumBlocks(|ps|) && n == BlockLen(|ps|, blk)
      && docs == DocsOf(Block(ps, blk)) && tfs == TfsOf(Block(ps, blk))
      && pj <= n && pp == e.posOff + |PosFile(ps[..128 * blk + pj])|
    }

    /** At a posting, or behind the last one. */
    ghost predicate Valid()
      reads this
    {
      && Fixed()
      && if doc == END then blk + 1 == nblocks && i == n
         else Loaded() && i < n && pj <= i && doc == docs[i]
    }

    /** How many postings lie before the cursor. */
    ghost function Index(): (r: nat)
      requires Valid()
      reads this
      ensures r <= |ps| && (r == |ps| <==> doc == END)
      ensures r < |ps| ==> doc == ps[r].doc
    {
      if doc == END then |ps|
      else
        BlockLenMeans(ps, blk);
        128 * blk + i
    }

    constructor (entry: Entry, docFile: seq<Byte>, posFile: seq<Byte>, ghost postings: seq<Posting>)
      requires EntryOk(entry, docFile, posFile, postings)
      requires forall k :: 0 <= k < |postings| ==> postings[k].doc < END
      ensures Valid() && ps == postings && Index() == 0 && e == entry
    {
      e, blocks, pos, ps := entry, docFile, posFile, postings;
      nblocks := NumBlocks(entry.df);
      i, doc, blk, n, docs, tfs, pj, pp := 0, 0, 0, 0, [], [], 0, 0;
      new;
      BlockLenMeans(ps, 0);
      LoadBlock(0);
      doc := docs[0];
    }

    /** Where block `b` starts, what precedes it, and where its positions start. */
    method BlockStart(b: nat) returns (off: nat, prev: nat, p: nat)
      requires Fixed() && b < nblocks
      ensures prev == BlockPrev(ps, b) && 128 * b < |ps|
      ensures At(blocks, off, BlockBytes(prev, Block(ps, b)))
      ensures p == e.posOff + |PosFile(ps[..128 * b])|
    {
      BlockLenMeans(ps, b);
      assert BlockOk(e, blocks, ps, b);
      off, prev, p := e.docOff, 0, e.posOff;
      if e.skip != [] {
        off := e.docOff + e.skip[b].off;
        p := e.skip[b].pos;
        if b > 0 {
          prev := e.skip[b - 1].last;
          assert BlockOk(e, blocks, ps, b - 1);
          BlockLenMeans(ps, b - 1);
        }
      }
    }

    method LoadBlock(b: nat)
      requires Fixed() && b < nblocks
      modifies `blk, `n, `docs, `tfs, `pj, `pp
      ensures Loaded() && blk == b && pj == 0
    {
      BlockLenMeans(ps, b);
      var off, prev;
      off, prev, pp := BlockStart(b);
      blk := b;
      n := 128;
      if b + 1 == nblocks {
        n := e.df - 128 * (nblocks - 1);
      }
      ghost var block := Block(ps, b);
      OrderedBlock(ps, b);
      AtSplit(blocks, off, Puts(Deltas(prev, DocsOf(block))), Puts(TfsOf(block)));
      var p;
      docs, p := DecodeDocs(blocks, off, prev, n, DocsOf(block));
      tfs := DecodeAll(blocks, p, n, TfsOf(block));
      pj := 0;
    }

    method Next()
      requires Valid()
      modifies this
      ensures Valid() && Index() == if old(Index()) < |ps| then old(Index()) + 1 else |ps|
    {
      hide PosFile, TfsOf, EntryOk;
      if doc != END {
        BlockLenMeans(ps, blk);
      }
      i := i + 1;
      if i >= n {
        if blk + 1 >= nblocks {
          doc := END;
          i := n;
          return;
        }
        BlockLenMeans(ps, blk + 1);
        LoadBlock(blk + 1);
        i := 0;
      }
      doc := docs[i];
    }

    function LastDocOf(b: nat): nat
      requires e.skip == [] || b < |e.skip|
    {
      if e.skip == [] then END - 1 else e.skip[b].last
    }

    lemma LastDocMeans(b: nat)
      requires Fixed() && b < nblocks
      ensures e.skip == [] || b < |e.skip|
      ensures forall k :: 0 <= k < BlockEnd(|ps|, b) ==> ps[k].doc <= LastDocOf(b)
      ensures b + 1 < nblocks ==> 0 < BlockEnd(|ps|, b) && ps[BlockEnd(|ps|, b) - 1].doc == LastDocOf(b)
    {
      assert BlockOk(e, blocks, ps, b);
      BlockLenMeans(ps, b);
    }

    /** The first block from `lo` on that does not end before `target`. */
    method FindBlock(from: nat, target: nat) returns (lo: nat)
      requires Fixed() && from <= nblocks
      ensures from <= lo <= nblocks
      ensures forall b :: from <= b < lo ==> (e.skip == [] || b < |e.skip|) && LastDocOf(b) < target
      ensures lo < nblocks ==> (e.skip == [] || lo < |e.skip|) && LastDocOf(lo) >= target
    {
      lo := from;
      var hi := nblocks;
      while lo < hi
        invariant from <= lo <= hi <= nblocks
        invariant forall b :: from <= b < lo ==> (e.skip == [] || b < |e.skip|) && LastDocOf(b) < target
        invariant hi < nblocks ==> (e.skip == [] || hi < |e.skip|) && LastDocOf(hi) >= target
      {
        var m := (lo + hi) / 2;
        LastDocMeans(m);
        if LastDocOf(m) >= target {
          hi := m;
        } else {
          BlocksBefore(m, target);
          lo := m + 1;
        }
      }
    }

    lemma BlocksBefore(m: nat, target: nat)
      requires Fixed() && m < nblocks && (e.skip == [] || m < |e.skip|) && LastDocOf(m) < target
      ensures forall b :: 0 <= b <= m ==> (e.skip == [] || b < |e.skip|) && LastDocOf(b) < target
    {
      LastDocMeans(m);
      forall b | 0 <= b <= m
        ensures (e.skip == [] || b < |e.skip|) && LastDocOf(b) < target
      {
        LastDocMeans(b);
        BlockLenMeans(ps, b);
        BlockLenMeans(ps, m);
      }
    }

    /** From posting `from` on, posting `to` is the first one not before `target`. */
    ghost predicate Seeks(from: nat, target: nat, to: nat) {
      && from <= to <= |ps| && (forall k :: from <= k < to ==> ps[k].doc < target)
      && (to < |ps| ==> target <= ps[to].doc)
    }

    /** Scans the loaded block, which does not end before `target` unless it is the only one. */
    method ScanBlock(target: nat)
      requires Fixed() && Loaded() && i < n && pj <= i
      requires (e.skip == [] || blk < |e.skip|) && target <= LastDocOf(blk) && doc != END
      modifies `i, `doc
      ensures Valid() && Seeks(128 * blk + old(i), target, Index())
    {
      hide PosFile, TfsOf, EntryOk;
      BlockLenMeans(ps, blk);
      var k := ScanDocs(docs, i, target);
      ScannedMeans(k, target);
      if k >= n {
        i := n;
        doc := END;
        return;
      }
      i := k;
      doc := docs[k];
    }

    lemma ScannedMeans(k: nat, target: nat)
      requires Fixed() && Loaded() && i <= k <= n == |docs|
      requires (e.skip == [] || blk < |e.skip|) && target <= LastDocOf(blk)
      requires forall j :: i <= j < k ==> docs[j] < target
      ensures 128 * blk + n <= |ps|
      ensures forall j :: 128 * blk + i <= j < 128 * blk + k ==> ps[j].doc < target
      ensures k == n && i < n ==> blk + 1 == nblocks && 128 * blk + n == |ps|
    {
      BlockLenMeans(ps, blk);
      forall j | 128 * blk + i <= j < 128 * blk + k
        ensures ps[j].doc < target
      {
        assert docs[j - 128 * blk] == ps[j].doc;
      }
      if e.skip != [] {
        assert BlockOk(e, blocks, ps, blk);
      }
    }

    /** Moves to the first document not before `target`; never moves back. */
    method Advance(target: nat)
      requires Valid() && target <= END
      modifies this
      ensures Valid() && Seeks(old(Index()), target, Index())
    {
      hide PosFile, DocsOf, TfsOf, BlockOk;
      if doc >= target {
        return;
      }
      ghost var from := Index();
      BlockLenMeans(ps, blk);
      LastDocMeans(blk);
      if target > LastDocOf(blk) {
        var lo := FindBlock(blk + 1, target);
        assert LastDocOf(lo - 1) < target;
        LastDocMeans(lo - 1);
        BlockLenMeans(ps, lo - 1);
        if lo >= nblocks {
          doc := END;
          blk := nblocks - 1;
          i := n;
          return;
        }
        LoadBlock(lo);
        BlockLenMeans(ps, lo);
        i := 0;
      }
      ScanBlock(target);
    }

    function Tf(): (r: nat)
      requires Valid() && Index() < |ps|
      reads this
      ensures r == |ps[Index()].positions|
    {
      BlockLenMeans(ps, blk);
      tfs[i]
    }

    /** The offset of the current document's positions: what decoding all earlier ones one by one would reach. */
    method PosStart() returns (p: nat)
      requires Valid() && Index() < |ps|
      modifies `pp, `pj
      ensures Valid() && Index() == old(Index())
      ensures p == e.posOff + |PosFile(ps[..Index()])| && At(pos, p, PosBytes(ps[Index()]))
    {
      hide PosFile, PosBytes;
      ghost var at := Index();
      BlockLenMeans(ps, blk);
      if pj < i {
        pp := SkipPositions(pos, pp, tfs, pj, i, e.posOff, ps, blk);
        pj := i;
      }
      p := pp;
      PositionsAt(pos, e.posOff, ps, at);
    }
  }

  method ScanDocs(docs: seq<nat>, from: nat, target: nat) returns (k: nat)
    requires from <= |docs|
    ensures from <= k <= |docs| && (forall j :: from <= j < k ==> docs[j] < target)
    ensures k < |docs| ==> target <= docs[k]
  {
    k := from;
    while k < |docs| && docs[k] < target
      invariant from <= k <= |docs| && forall j :: from <= j < k ==> docs[j] < target
    {
      k := k + 1;
    }
  }

  method SumRange(xs: seq<nat>, a: nat, b: nat) returns (s: nat)
    requires a <= b <= |xs|
    ensures s == Sum(xs[a..b])
  {
    s := 0;
    for j := a to b
      invariant s == Sum(xs[a..j])
    {
      assert xs[a..j + 1][..j - a] == xs[a..j];
      s := s + xs[j];
    }
  }

  lemma TfsRange(ps: seq<Posting>, b: nat, i: nat, j: nat)
    requires 128 * b <= |ps| && i <= j <= |Block(ps, b)|
    ensures TfsOf(Block(ps, b))[i..j] == TfsOf(ps[128 * b + i..128 * b + j])
  {
    SliceOfSlice(ps, 128 * b, BlockEnd(|ps|, b), i, j);
  }

  lemma SliceOfSlice<T>(s: seq<T>, lo: nat, hi: nat, i: nat, j: nat)
    requires lo <= hi <= |s| && i <= j <= hi - lo
    ensures s[lo..hi][i..j] == s[lo + i..lo + j]
  {
    var a, b := s[lo..hi][i..j], s[lo + i..lo + j];
    forall k | 0 <= k < |a|
      ensures a[k] == b[k]
    {
      assert a[k] == s[lo..hi][i + k];
    }
  }

  /** Skips the positions of the postings from `pj` to `i` of block `b`. */
  method SkipPositions(pos: seq<Byte>, pp: nat, tfs: seq<nat>, pj: nat, i: nat, ghost off: nat, ghost ps: seq<Posting>,
                       ghost b: nat) returns (p: nat)
    requires 128 * b <= |ps| && At(pos, off, PosFile(ps)) && tfs == TfsOf(Block(ps, b)) && pj <= i <= |tfs|
    requires pp == off + |PosFile(ps[..128 * b + pj])|
    ensures p == off + |PosFile(ps[..128 * b + i])|
  {
    hide PosFile, Sum, Skip, HasVarints;
    var cnt := SumRange(tfs, pj, i);
    TfsRange(ps, b, pj, i);
    SkipPostings(pos, off, ps, 128 * b + pj, 128 * b + i);
    p := SkipVarints(pos, pp, cnt);
  }

  lemma PositionsAt(pos: seq<Byte>, off: nat, ps: seq<Posting>, at: nat)
    requires at < |ps| && At(pos, off, PosFile(ps))
    ensures At(pos, off + |PosFile(ps[..at])|, PosBytes(ps[at]))
  {
    PosFileSplit(pos, off, ps, at, at + 1);
    assert ps[at..at + 1] == [ps[at]] && PosFile([ps[at]]) == PosBytes(ps[at]);
  }

  // ----- lookup -----

  /** Binary search for a term. */
  method Lookup(d: Dict, t: Term) returns (found: bool, k: nat)
    requires forall i, j :: 0 <= i < j < |d.entries| ==> Less(d.entries[i].term, d.entries[j].term)
    ensures found <==> Has(d.entries, t)
    ensures found ==> k < |d.entries| && d.entries[k].term == t
  {
    var lo, hi := 0, |d.entries|;
    while lo < hi
      invariant 0 <= lo <= hi <= |d.entries|
      invariant forall i :: 0 <= i < lo ==> Less(d.entries[i].term, t)
      invariant forall i :: hi <= i < |d.entries| ==> !Less(d.entries[i].term, t)
    {
      var m := (lo + hi) / 2;
      LessIsTotal();
      if Less(d.entries[m].term, t) {
        lo := m + 1;
      } else {
        hi := m;
      }
    }
    k := lo;
    found := lo < |d.entries| && d.entries[lo].term == t;
    NotElsewhere(d.entries, t, lo);
  }

  lemma NotElsewhere(entries: seq<Entry>, t: Term, lo: nat)
    requires forall i, j :: 0 <= i < j < |entries| ==> Less(entries[i].term, entries[j].term)
    requires lo <= |entries| && forall i :: 0 <= i < lo ==> Less(entries[i].term, t)
    requires forall i :: lo <= i < |entries| ==> !Less(entries[i].term, t)
    ensures Has(entries, t) <==> lo < |entries| && entries[lo].term == t
  {
    if k :| 0 <= k < |entries| && entries[k].term == t {
      LessAsymmetric(t, t);
      assert k > lo ==> Less(entries[lo].term, entries[k].term);
    }
  }
}
