/** The corpus, what its terms' postings are, and their byte form in a run. */
module SearchCorpus {
  import opened SearchVarint

  datatype Term = Term(bytes: seq<Byte>)

  datatype Doc = Doc(id: nat, tokens: seq<Term>)

  /** One document of a term: its number and where the term occurs in it. */
  datatype Posting = Posting(doc: nat, positions: seq<nat>)

  predicate Increasing(xs: seq<nat>) {
    forall i, j :: 0 <= i < j < |xs| ==> xs[i] < xs[j]
  }

  // ----- positions -----

  /** Where `t` occurs in `toks`, in order. */
  function Positions<T(==)>(toks: seq<T>, t: T): seq<nat> {
    if toks == [] then []
    else
      var n := |toks| - 1;
      Positions(toks[..n], t) + (if toks[n] == t then [n] else [])
  }

  lemma {:induction false} PositionsSound<T>(toks: seq<T>, t: T)
    ensures Increasing(Positions(toks, t))
    ensures forall i :: 0 <= i < |Positions(toks, t)| ==>
      Positions(toks, t)[i] < |toks| && toks[Positions(toks, t)[i]] == t
    ensures |Positions(toks, t)| <= |toks|
  {
    if toks != [] {
      PositionsSound(toks[..|toks| - 1], t);
    }
  }

  lemma {:induction false} PositionsComplete<T>(toks: seq<T>, t: T, p: nat)
    requires p < |toks| && toks[p] == t
    ensures p in Positions(toks, t)
  {
    var n := |toks| - 1;
    if p < n {
      PositionsComplete(toks[..n], t, p);
    } else {
      assert Positions(toks, t)[|Positions(toks[..n], t)|] == n;
    }
  }

  lemma PositionsMeans<T>(toks: seq<T>, t: T)
    ensures Increasing(Positions(toks, t))
    ensures forall p: nat :: p in Positions(toks, t) <==> p < |toks| && toks[p] == t
    ensures Positions(toks, t) == [] <==> t !in toks
  {
    PositionsSound(toks, t);
    forall p: nat | p < |toks| && toks[p] == t
      ensures p in Positions(toks, t)
    {
      PositionsComplete(toks, t, p);
    }
  }

  /** Renaming tokens one to one leaves the positions alone. */
  lemma {:induction false} PositionsRenamed<S, T>(xs: seq<S>, s: S, ys: seq<T>, t: T)
    requires |xs| == |ys| && forall p :: 0 <= p < |xs| ==> (xs[p] == s <==> ys[p] == t)
    ensures Positions(xs, s) == Positions(ys, t)
  {
    if xs != [] {
      var n := |xs| - 1;
      PositionsRenamed(xs[..n], s, ys[..n], t);
    }
  }

  // ----- postings -----

  /** The postings of `t` in documents numbered from `base` on. */
  function Postings(docs: seq<Doc>, base: nat, t: Term): seq<Posting> {
    if docs == [] then []
    else
      var n := |docs| - 1;
      Postings(docs[..n], base, t) +
      (if t in docs[n].tokens then [Posting(base + n, Positions(docs[n].tokens, t))] else [])
  }

  predicate Ordered(ps: seq<Posting>) {
    && (forall i, j :: 0 <= i < j < |ps| ==> ps[i].doc < ps[j].doc)
    && (forall i :: 0 <= i < |ps| ==> ps[i].positions != [] && Increasing(ps[i].positions))
  }

  predicate IsPosting(docs: seq<Doc>, base: nat, t: Term, p: Posting) {
    && base <= p.doc < base + |docs|
    && t in docs[p.doc - base].tokens
    && p.positions == Positions(docs[p.doc - base].tokens, t)
  }

  lemma {:induction false} PostingsSound(docs: seq<Doc>, base: nat, t: Term)
    ensures forall i :: 0 <= i < |Postings(docs, base, t)| ==> IsPosting(docs, base, t, Postings(docs, base, t)[i])
  {
    if docs != [] {
      var n := |docs| - 1;
      PostingsSound(docs[..n], base, t);
      var before, ps := Postings(docs[..n], base, t), Postings(docs, base, t);
      forall i | 0 <= i < |ps|
        ensures IsPosting(docs, base, t, ps[i])
      {
        if i < |before| {
          assert IsPosting(docs[..n], base, t, before[i]);
        }
      }
    }
  }

  lemma {:induction false} PostingsOrdered(docs: seq<Doc>, base: nat, t: Term)
    ensures Ordered(Postings(docs, base, t))
  {
    if docs != [] {
      var n := |docs| - 1;
      PostingsOrdered(docs[..n], base, t);
      PostingsSound(docs[..n], base, t);
      PositionsMeans(docs[n].tokens, t);
      var before := Postings(docs[..n], base, t);
      assert forall i :: 0 <= i < |before| ==> before[i].doc < base + n;
    }
  }

  lemma {:induction false} PostingsComplete(docs: seq<Doc>, base: nat, t: Term, d: nat) returns (i: nat)
    requires d < |docs| && t in docs[d].tokens
    ensures i < |Postings(docs, base, t)|
    ensures Postings(docs, base, t)[i] == Posting(base + d, Positions(docs[d].tokens, t))
  {
    var n := |docs| - 1;
    if d < n {
      i := PostingsComplete(docs[..n], base, t, d);
    } else {
      i := |Postings(docs[..n], base, t)|;
    }
  }

  lemma {:induction false} PostingsConcat(a: seq<Doc>, b: seq<Doc>, base: nat, t: Term)
    ensures Postings(a + b, base, t) == Postings(a, base, t) + Postings(b, base + |a|, t)
  {
    if b == [] {
      assert a + b == a;
    } else {
      var n := |b| - 1;
      assert (a + b)[..|a| + n] == a + b[..n];
      PostingsConcat(a, b[..n], base, t);
    }
  }

  // ----- byte form -----

  function Gap(a: nat, b: nat): nat {
    if a <= b then b - a else 0
  }

  function Last(prev: nat, xs: seq<nat>): nat {
    if xs == [] then prev else xs[|xs| - 1]
  }

  /** Differences of neighbours in an ascending list; `prev` stands before its first element. */
  function Deltas(prev: nat, xs: seq<nat>): (ds: seq<nat>)
    ensures |ds| == |xs|
    decreases |xs|
  {
    if xs == [] then [] else [Gap(prev, xs[0])] + Deltas(xs[0], xs[1..])
  }

  lemma {:induction false} DeltasConcat(prev: nat, xs: seq<nat>, ys: seq<nat>)
    ensures Deltas(prev, xs + ys) == Deltas(prev, xs) + Deltas(Last(prev, xs), ys)
    decreases |xs|
  {
    if xs == [] {
      assert xs + ys == ys;
    } else {
      assert (xs + ys)[1..] == xs[1..] + ys;
      DeltasConcat(xs[0], xs[1..], ys);
    }
  }

  function PosBytes(p: Posting): seq<Byte> {
    Puts(Deltas(0, p.positions))
  }

  function EntryBytes(prev: nat, p: Posting): seq<Byte> {
    Put(Gap(prev, p.doc)) + Put(|p.positions|) + PosBytes(p)
  }

  function LastDoc(prev: nat, ps: seq<Posting>): nat {
    if ps == [] then prev else ps[|ps| - 1].doc
  }

  /** A term's record in a run: gap, term frequency and position gaps of every document. */
  function RunBytes(prev: nat, ps: seq<Posting>): seq<Byte>
    decreases |ps|
  {
    if ps == [] then [] else EntryBytes(prev, ps[0]) + RunBytes(ps[0].doc, ps[1..])
  }

  lemma {:induction false} RunBytesSnoc(prev: nat, ps: seq<Posting>, p: Posting)
    ensures RunBytes(prev, ps + [p]) == RunBytes(prev, ps) + EntryBytes(LastDoc(prev, ps), p)
    decreases |ps|
  {
    if ps == [] {
      assert (ps + [p])[1..] == [];
    } else {
      assert (ps + [p])[1..] == ps[1..] + [p];
      RunBytesSnoc(ps[0].doc, ps[1..], p);
    }
  }

  /** The position bytes of a list of postings, as they follow one another in a positions file. */
  function PosFile(ps: seq<Posting>): seq<Byte> {
    if ps == [] then [] else PosBytes(ps[0]) + PosFile(ps[1..])
  }

  lemma {:induction false} PosFileConcat(ps: seq<Posting>, qs: seq<Posting>)
    ensures PosFile(ps + qs) == PosFile(ps) + PosFile(qs)
  {
    if ps == [] {
      assert ps + qs == qs;
    } else {
      assert (ps + qs)[1..] == ps[1..] + qs;
      PosFileConcat(ps[1..], qs);
    }
  }

  lemma PosFileSnoc(ps: seq<Posting>, p: Posting)
    ensures PosFile(ps + [p]) == PosFile(ps) + PosBytes(p)
  {
    PosFileConcat(ps, [p]);
    assert PosFile([p]) == PosBytes(p);
  }

  lemma OrderedSplit(ps: seq<Posting>, qs: seq<Posting>)
    requires Ordered(ps + qs)
    ensures Ordered(ps) && Ordered(qs)
    ensures ps != [] && qs != [] ==> ps[|ps| - 1].doc < qs[0].doc
  {
    var all := ps + qs;
    assert forall i :: 0 <= i < |ps| ==> all[i] == ps[i];
    assert forall i :: 0 <= i < |qs| ==> all[|ps| + i] == qs[i];
  }
}
