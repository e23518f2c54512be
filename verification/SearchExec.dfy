/** Executing a plan: leapfrogging cursors, phrase and exclusion checks, scoring, and splitting by ranges. */
module SearchExec {
  import opened SearchVarint
  import opened SearchCorpus
  import opened SearchOrder
  import opened SearchWorker
  import opened SearchBlocks
  import opened SearchCursor
  import opened SearchPhrase
  import opened SearchTopK
  import opened SearchSpec
  import opened SearchMeaning
  import opened SearchPlan

  // ----- cursors and documents -----

  ghost predicate HasDoc(ps: seq<Posting>, x: nat) {
    exists k :: 0 <= k < |ps| && ps[k].doc == x
  }

  lemma HasDocMeans(corpus: seq<Doc>, t: Term, x: nat)
    ensures HasDoc(Postings(corpus, 0, t), x) <==> x < |corpus| && t in corpus[x].tokens
  {
    var ps := Postings(corpus, 0, t);
    if x < |corpus| && t in corpus[x].tokens {
      var k := PostingsComplete(corpus, 0, t, x);
    }
    PostingsSound(corpus, 0, t);
    if HasDoc(ps, x) {
      var k :| 0 <= k < |ps| && ps[k].doc == x;
      assert IsPosting(corpus, 0, t, ps[k]);
    }
  }

  /** Everything the cursor has passed lies before document d. */
  ghost predicate NotPast(c: Cursor, d: nat)
    reads c
  {
    c.Valid() && forall k :: 0 <= k < c.Index() ==> c.ps[k].doc < d
  }

  /** The cursor stands on document d. */
  ghost predicate OnDoc(c: Cursor, d: nat)
    reads c
  {
    c.Valid() && c.doc == d && d < END
  }

  ghost predicate AllNotPast(cs: seq<Cursor>, d: nat)
    reads cs
  {
    forall c :: c in cs ==> NotPast(c, d)
  }

  ghost predicate AllOn(cs: seq<Cursor>, d: nat)
    reads cs
  {
    forall c :: c in cs ==> OnDoc(c, d)
  }

  ghost predicate CursorsFor(cs: seq<Cursor>, corpus: seq<Doc>, terms: seq<Term>) {
    |cs| == |terms| && forall j :: 0 <= j < |cs| ==> cs[j].ps == Postings(corpus, 0, terms[j])
  }

  ghost predicate OnAllLists(cs: seq<Cursor>, x: nat) {
    forall c :: c in cs ==> HasDoc(c.ps, x)
  }

  /** No document from a to b is on all lists. */
  ghost predicate NoneAll(cs: seq<Cursor>, a: nat, b: nat) {
    forall x :: a <= x < b ==> !OnAllLists(cs, x)
  }

  lemma NoneOf(cs: seq<Cursor>, c: Cursor, a: nat, b: nat)
    requires c in cs && forall x :: a <= x < b ==> !HasDoc(c.ps, x)
    ensures NoneAll(cs, a, b)
  {
    forall x | a <= x < b
      ensures !OnAllLists(cs, x)
    {
      assert !HasDoc(c.ps, x);
    }
  }

  lemma NoneJoined(cs: seq<Cursor>, a: nat, b: nat, c: nat)
    requires NoneAll(cs, a, b) && NoneAll(cs, b, c)
    ensures NoneAll(cs, a, c)
  {}

  lemma OrderedPostings(c: Cursor)
    requires c.Valid()
    ensures Ordered(c.ps)
  {}

  /** A cursor that has passed only documents before d finds none from d up to where it stands. */
  lemma GapToDoc(c: Cursor, d: nat)
    requires NotPast(c, d)
    ensures forall x :: d <= x < c.doc ==> !HasDoc(c.ps, x)
    ensures c.doc <= END && NotPast(c, if d < c.doc then c.doc else d)
    ensures c.doc < END ==> HasDoc(c.ps, c.doc)
  {
    hide Cursor.Fixed, Cursor.Loaded;
    OrderedPostings(c);
    DocBound(c);
    if c.doc < END {
      assert c.ps[c.Index()].doc == c.doc;
    }
    forall k | 0 <= k < |c.ps|
      ensures c.ps[k].doc < d || c.doc <= c.ps[k].doc
    {
      assert k < c.Index() || k == c.Index() || c.ps[c.Index()].doc < c.ps[k].doc;
    }
  }

  lemma DocBound(c: Cursor)
    requires c.Valid()
    ensures c.doc <= END
  {
    assert c.Index() <= |c.ps|;
  }

  method AdvanceTo(c: Cursor, d: nat)
    requires NotPast(c, d) && d <= END
    modifies c
    ensures NotPast(c, d) && d <= c.doc <= END
    ensures old(c.doc) == d ==> c.doc == d
    ensures forall x :: d <= x < c.doc ==> !HasDoc(c.ps, x)
  {
    hide Cursor.Fixed, Cursor.Loaded;
    OrderedPostings(c);
    c.Advance(d);
    assert NotPast(c, d);
    GapToDoc(c, d);
  }

  lemma NotPastLater(cs: seq<Cursor>, d: nat, e: nat)
    requires AllNotPast(cs, d) && d <= e
    ensures AllNotPast(cs, e)
  {}

  // ----- leapfrog -----

  /** Brings the cursors behind the leader to its document d. Unless all have it, the leader moves on to the
      next candidate, or there is none. */
  method Align(order: seq<Cursor>, d: nat) returns (all: bool, next: nat)
    requires order != [] && AllNotPast(order, d) && OnDoc(order[0], d)
    modifies order
    ensures all ==> AllOn(order, d) && AllNotPast(order, d)
    ensures !all ==> d < next <= END && NoneAll(order, d, next)
    ensures !all && next < END ==> AllNotPast(order, next) && OnDoc(order[0], next)
  {
    hide Cursor.Valid, Cursor.Index, HasDoc, NoneAll;
    for j := 1 to |order|
      invariant AllNotPast(order, d)
      invariant forall i :: 0 <= i < j ==> OnDoc(order[i], d)
    {
      var c := order[j];
      AdvanceTo(c, d);
      if c.doc != d {
        NoneOf(order, c, d, c.doc);
        if c.doc == END {
          return false, END;
        }
        var e := c.doc;
        NotPastLater(order, d, e);
        AdvanceTo(order[0], e);
        next := order[0].doc;
        NoneOf(order, order[0], e, next);
        NoneJoined(order, d, e, next);
        NotPastLater(order, e, next);
        return false, next;
      }
    }
    all, next := true, d;
  }

  // ----- checking a candidate -----

  lemma OnPosting(c: Cursor, corpus: seq<Doc>, t: Term, d: nat)
    requires OnDoc(c, d) && c.ps == Postings(corpus, 0, t)
    ensures d < |corpus| && t in corpus[d].tokens
    ensures c.Index() < |c.ps| && c.ps[c.Index()].positions == Positions(corpus[d].tokens, t)
  {
    PostingsSound(corpus, 0, t);
    assert IsPosting(corpus, 0, t, c.ps[c.Index()]);
  }

  function PositionLists(d: Doc, toks: seq<Term>): (xss: seq<seq<nat>>)
    ensures |xss| == |toks| && forall j :: 0 <= j < |toks| ==> xss[j] == Positions(d.tokens, toks[j])
  {
    seq(|toks|, j requires 0 <= j < |toks| => Positions(d.tokens, toks[j]))
  }

  lemma OnPhrase(ph: seq<Cursor>, corpus: seq<Doc>, toks: seq<Term>, d: nat)
    requires ph != [] && AllOn(ph, d) && CursorsFor(ph, corpus, toks)
    ensures d < |corpus| && OnPostings(ph, PositionLists(corpus[d], toks))
  {
    hide Cursor.Valid, Cursor.Index, Postings, Positions;
    assert ph[0] in ph;
    OnPosting(ph[0], corpus, toks[0], d);
    forall j | 0 <= j < |ph|
      ensures ph[j].Valid() && ph[j].Index() < |ph[j].ps|
      ensures ph[j].ps[ph[j].Index()].positions == Positions(corpus[d].tokens, toks[j])
    {
      assert ph[j] in ph;
      OnPosting(ph[j], corpus, toks[j], d);
    }
  }

  /** Whether the phrase of these cursors stands in document d. */
  method PhraseOn(ph: seq<Cursor>, d: nat, ghost corpus: seq<Doc>, ghost toks: seq<Term>) returns (found: bool)
    requires ph != [] && AllOn(ph, d) && CursorsFor(ph, corpus, toks)
    modifies set c | c in ph :: c`pp, set c | c in ph :: c`pj
    ensures d < |corpus| && (found <==> ClauseIn(corpus[d], toks))
    ensures forall c :: c in ph ==> c.Valid() && c.Index() == old(c.Index())
  {
    hide Cursor.Valid, Cursor.Index, Postings, Positions, StartsAt, PhraseAt;
    OnPhrase(ph, corpus, toks, d);
    ghost var xss := PositionLists(corpus[d], toks);
    var st := new Stream[|ph|](i => Stream([], 0, 0, 0));
    found := PhraseMatch(ph, st, xss);
    PhraseAtMeans(corpus[d].tokens, toks, xss);
    forall c | c in ph
      ensures c.Valid()
    {
      var j :| 0 <= j < |ph| && ph[j] == c;
    }
  }

  /** The cursors of the phrases are among `cs` and spell `pcs`. */
  ghost predicate PhrasesOver(phr: seq<seq<Cursor>>, pcs: seq<seq<Term>>, cs: seq<Cursor>, corpus: seq<Doc>) {
    && |phr| == |pcs|
    && (forall i :: 0 <= i < |phr| ==> phr[i] != [] && CursorsFor(phr[i], corpus, pcs[i]))
    && (forall i :: 0 <= i < |phr| ==> forall c :: c in phr[i] ==> c in cs)
  }

  method CheckPhrases(phr: seq<seq<Cursor>>, d: nat, ghost cs: seq<Cursor>, ghost corpus: seq<Doc>, ghost pcs: seq<seq<Term>>)
    returns (fits: bool)
    requires AllOn(cs, d) && PhrasesOver(phr, pcs, cs, corpus) && d < |corpus|
    modifies set c | c in cs :: c`pp, set c | c in cs :: c`pj
    ensures fits <==> AllIn(corpus[d], pcs)
    ensures forall c :: c in cs ==> c.Valid() && c.Index() == old(c.Index())
  {
    hide Cursor.Valid, Cursor.Index, ClauseIn, CursorsFor;
    for i := 0 to |phr|
      invariant forall c :: c in cs ==> c.Valid() && c.Index() == old(c.Index())
      invariant forall j :: 0 <= j < i ==> ClauseIn(corpus[d], pcs[j])
    {
      var found := PhraseOn(phr[i], d, corpus, pcs[i]);
      if !found {
        return false;
      }
    }
    fits := true;
  }

  datatype NegExec = NegExec(uniq: seq<Cursor>, sq: seq<Cursor>)

  ghost predicate NegFor(n: NegExec, corpus: seq<Doc>, toks: seq<Term>) {
    && n.sq != [] && CursorsFor(n.sq, corpus, toks)
    && (forall c :: c in n.sq ==> c in n.uniq)
    && (forall c :: c in n.uniq ==> TermAmong(c, corpus, toks))
  }

  ghost predicate TermAmong(c: Cursor, corpus: seq<Doc>, toks: seq<Term>) {
    exists q :: 0 <= q < |toks| && c.ps == Postings(corpus, 0, toks[q])
  }

  /** Advances the cursors to d, stopping at the first that has no posting there. */
  method AdvanceAll(cs: seq<Cursor>, d: nat) returns (all: bool, ghost miss: nat)
    requires AllNotPast(cs, d) && d < END
    modifies cs
    ensures AllNotPast(cs, d)
    ensures all ==> AllOn(cs, d)
    ensures !all ==> miss < |cs| && !HasDoc(cs[miss].ps, d)
  {
    hide Cursor.Valid, Cursor.Index, HasDoc;
    for j := 0 to |cs|
      invariant AllNotPast(cs, d)
      invariant forall i :: 0 <= i < j ==> OnDoc(cs[i], d)
    {
      AdvanceTo(cs[j], d);
      if cs[j].doc != d {
        return false, j;
      }
    }
    all, miss := true, 0;
  }

  lemma MissExcludes(n: NegExec, corpus: seq<Doc>, toks: seq<Term>, d: nat, miss: nat)
    requires NegFor(n, corpus, toks) && miss < |n.uniq| && !HasDoc(n.uniq[miss].ps, d) && d < |corpus|
    ensures !ClauseIn(corpus[d], toks)
  {
    assert n.uniq[miss] in n.uniq;
    var j :| 0 <= j < |toks| && n.uniq[miss].ps == Postings(corpus, 0, toks[j]);
    HasDocMeans(corpus, toks[j], d);
    if ClauseIn(corpus[d], toks) {
      ClauseHasTokens(corpus[d], toks, j);
    }
  }

  /** Whether document d contains the excluded clause. */
  method Excluded(n: NegExec, d: nat, ghost corpus: seq<Doc>, ghost toks: seq<Term>) returns (yes: bool)
    requires NegFor(n, corpus, toks) && AllNotPast(n.uniq, d) && d < |corpus| < END
    modifies n.uniq
    ensures AllNotPast(n.uniq, d)
    ensures yes <==> ClauseIn(corpus[d], toks)
  {
    hide Cursor.Valid, Cursor.Index, HasDoc, ClauseIn, Postings;
    var all;
    ghost var miss;
    all, miss := AdvanceAll(n.uniq, d);
    if !all {
      MissExcludes(n, corpus, toks, d, miss);
      return false;
    }
    if |n.sq| == 1 {
      OnSingle(n.sq, corpus, toks, d);
      return true;
    }
    yes := PhraseOn(n.sq, d, corpus, toks);
  }

  lemma OnSingle(sq: seq<Cursor>, corpus: seq<Doc>, toks: seq<Term>, d: nat)
    requires |sq| == 1 && AllOn(sq, d) && CursorsFor(sq, corpus, toks)
    ensures d < |corpus| && ClauseIn(corpus[d], toks)
  {
    assert sq[0] in sq;
    OnPosting(sq[0], corpus, toks[0], d);
    SingleClause(corpus[d], toks[0]);
    assert toks == [toks[0]];
  }

  ghost predicate NegsFor(negs: seq<NegExec>, corpus: seq<Doc>, ncs: seq<seq<Term>>, ns: set<Cursor>) {
    && |negs| == |ncs| && (forall i :: 0 <= i < |negs| ==> NegFor(negs[i], corpus, ncs[i]))
    && (forall i :: 0 <= i < |negs| ==> forall c :: c in negs[i].uniq ==> c in ns)
  }

  method CheckNegs(negs: seq<NegExec>, d: nat, ghost ns: set<Cursor>, ghost corpus: seq<Doc>, ghost ncs: seq<seq<Term>>)
    returns (fits: bool)
    requires NegsFor(negs, corpus, ncs, ns) && (forall c :: c in ns ==> NotPast(c, d)) && d < |corpus| < END
    modifies ns
    ensures forall c :: c in ns ==> NotPast(c, d)
    ensures fits <==> NoneIn(corpus[d], ncs)
  {
    hide NotPast, ClauseIn, NegFor;
    for i := 0 to |negs|
      invariant forall c :: c in ns ==> NotPast(c, d)
      invariant forall j :: 0 <= j < i ==> !ClauseIn(corpus[d], ncs[j])
    {
      var yes := Excluded(negs[i], d, corpus, ncs[i]);
      if yes {
        return false;
      }
    }
    fits := true;
  }

  // ----- scoring -----

  /** The length normalisation with its two constants worked out beforehand. */
  function NormOf(ix: Index, dl: nat): real {
    if ix.n == 0 || ix.tokens == 0 then 0.0
    else
      var avgdl := ix.tokens as real / ix.n as real;
      1.2 * (1.0 - 0.75) + 1.2 * 0.75 / avgdl * dl as real
  }

  lemma NormSame(ix: Index, dl: nat)
    ensures NormOf(ix, dl) == Norm(dl, ix.tokens, ix.n)
  {
    if ix.n != 0 && ix.tokens != 0 {
      var a, x := ix.tokens as real / ix.n as real, dl as real;
      assert a > 0.0;
      FactorOut(a, x);
    }
  }

  lemma FactorOut(a: real, x: real)
    requires a > 0.0
    ensures 1.2 * (1.0 - 0.75) + 1.2 * 0.75 / a * x == 1.2 * (1.0 - 0.75 + 0.75 * x / a)
  {
    assert 0.75 * x / a == 0.75 * (x / a);
    assert 1.2 * 0.75 / a * x == 0.9 * (x / a) by {
      assert (0.9 / a) * x * a == 0.9 * x;
    }
  }

  ghost predicate Scorable(ix: Index, pos: seq<TermEntry>, cs: seq<Cursor>, corpus: seq<Doc>, d: nat)
    reads cs
  {
    && ix.n == |corpus| && ix.tokens == TotalTokens(corpus) && d < |corpus| == |ix.dls|
    && ix.dls[d] == |corpus[d].tokens|
    && CursorsFor(cs, corpus, TermsOf(pos)) && AllOn(cs, d)
    && forall i :: 0 <= i < |pos| ==> EntryFor(pos[i], corpus)
  }

  lemma TermWeight(ix: Index, pos: seq<TermEntry>, cs: seq<Cursor>, corpus: seq<Doc>, idf: (nat, nat) -> real, d: nat, i: nat)
    requires Scorable(ix, pos, cs, corpus, d) && i < |cs|
    ensures cs[i].Valid() && cs[i].Index() < |cs[i].ps|
    ensures Weight(idf(ix.n, pos[i].e.df), cs[i].Tf(), NormOf(ix, ix.dls[d])) ==
      TermScore(corpus, idf, corpus[d], pos[i].e.term)
  {
    hide Cursor.Valid, Cursor.Index, Postings, Positions, Weight, NormOf, Norm;
    assert cs[i] in cs;
    OnPosting(cs[i], corpus, TermsOf(pos)[i], d);
    NormSame(ix, ix.dls[d]);
    DfOf(pos[i], corpus);
  }

  lemma DfOf(te: TermEntry, corpus: seq<Doc>)
    requires EntryFor(te, corpus)
    ensures te.e.df == |Postings(corpus, 0, te.e.term)|
  {}

  method ScoreDoc(ix: Index, pos: seq<TermEntry>, cs: seq<Cursor>, d: nat, idf: (nat, nat) -> real, ghost corpus: seq<Doc>)
    returns (s: real)
    requires Scorable(ix, pos, cs, corpus, d)
    ensures s == Total(t => TermScore(corpus, idf, corpus[d], t), TermsOf(pos))
  {
    hide Cursor.Valid, Cursor.Index, Weight, NormOf, Norm, TermScore, Scorable, Total;
    CursorCount(ix, pos, cs, corpus, d);
    ghost var f := t => TermScore(corpus, idf, corpus[d], t);
    ghost var terms := TermsOf(pos);
    var norm := NormOf(ix, ix.dls[d]);
    s := 0.0;
    TotalNone(f);
    for i := 0 to |cs|
      invariant s == Total(f, terms[..i])
    {
      TermWeight(ix, pos, cs, corpus, idf, d, i);
      TotalOne(f, terms, i);
      s := s + Weight(idf(ix.n, pos[i].e.df), cs[i].Tf(), norm);
    }
    assert terms[..|terms|] == terms;
  }

  lemma CursorCount(ix: Index, pos: seq<TermEntry>, cs: seq<Cursor>, corpus: seq<Doc>, d: nat)
    requires Scorable(ix, pos, cs, corpus, d)
    ensures |cs| == |pos| && d < |ix.dls| && d < |corpus|
  {}

  lemma TotalNone<T>(f: T -> real)
    ensures Total(f, []) == 0.0
  {}

  lemma TotalOne<T>(f: T -> real, s: seq<T>, i: nat)
    requires i < |s|
    ensures Total(f, s[..i + 1]) == Total(f, s[..i]) + f(s[i])
  {
    assert s[..i + 1][..i] == s[..i];
  }

  // ----- execution -----

  method OpenCursors(uniq: seq<TermEntry>, ghost corpus: seq<Doc>, ghost lo: nat) returns (cs: seq<Cursor>)
    requires |corpus| < END && forall i :: 0 <= i < |uniq| ==> EntryFor(uniq[i], corpus)
    ensures CursorsFor(cs, corpus, TermsOf(uniq)) && forall c :: c in cs ==> fresh(c) && NotPast(c, lo)
    ensures forall i :: 0 <= i < |uniq| ==> cs[i].e == uniq[i].e && fresh(cs[i])
  {
    hide Cursor.Valid, Cursor.Index, Postings, EntryOk;
    cs := [];
    for i := 0 to |uniq|
      invariant |cs| == i && forall c :: c in cs ==> fresh(c) && NotPast(c, lo)
      invariant forall j :: 0 <= j < i ==> cs[j].ps == Postings(corpus, 0, uniq[j].e.term) && cs[j].e == uniq[j].e && fresh(cs[j])
    {
      ghost var ps := Postings(corpus, 0, uniq[i].e.term);
      DocsBelowEnd(corpus, uniq[i].e.term, ps);
      var c := new Cursor(uniq[i].e, uniq[i].d.docs, uniq[i].d.pos, ps);
      cs := cs + [c];
    }
  }

  lemma DocsBelowEnd(corpus: seq<Doc>, t: Term, ps: seq<Posting>)
    requires |corpus| < END && ps == Postings(corpus, 0, t)
    ensures forall k :: 0 <= k < |ps| ==> ps[k].doc < END
  {
    PostingsSound(corpus, 0, t);
    forall k | 0 <= k < |ps|
      ensures ps[k].doc < END
    {
      assert IsPosting(corpus, 0, t, ps[k]);
    }
  }

  /** The cursors that a list of indices picks. */
  method Pick(cs: seq<Cursor>, sq: seq<nat>, ghost corpus: seq<Doc>, ghost terms: seq<Term>, ghost toks: seq<Term>)
    returns (r: seq<Cursor>)
    requires CursorsFor(cs, corpus, terms) && Spells(terms, sq, toks)
    ensures CursorsFor(r, corpus, toks) && forall c :: c in r ==> c in cs
  {
    r := [];
    for j := 0 to |sq|
      invariant |r| == j && forall i :: 0 <= i < j ==> r[i] == cs[sq[i]]
    {
      r := r + [cs[sq[j]]];
    }
  }

  method OpenPhrases(cs: seq<Cursor>, phrases: seq<seq<nat>>, ghost corpus: seq<Doc>, ghost terms: seq<Term>,
                     ghost pcs: seq<seq<Term>>) returns (phr: seq<seq<Cursor>>)
    requires CursorsFor(cs, corpus, terms) && AllSpell(terms, phrases, pcs)
    ensures PhrasesOver(phr, pcs, cs, corpus)
  {
    hide CursorsFor, Spells;
    phr := [];
    for i := 0 to |phrases|
      invariant |phr| == i
      invariant forall j :: 0 <= j < i ==> phr[j] != [] && CursorsFor(phr[j], corpus, pcs[j])
      invariant forall j :: 0 <= j < i ==> forall c :: c in phr[j] ==> c in cs
    {
      var ph := Pick(cs, phrases[i], corpus, terms, pcs[i]);
      SameLengths(terms, phrases[i], pcs[i], ph, corpus);
      phr := phr + [ph];
    }
  }

  lemma SameLengths(terms: seq<Term>, sq: seq<nat>, toks: seq<Term>, ph: seq<Cursor>, corpus: seq<Doc>)
    requires Spells(terms, sq, toks) && CursorsFor(ph, corpus, toks)
    ensures |sq| == |ph| == |toks|
  {}

  method OpenNeg(np: NegPlan, ghost corpus: seq<Doc>, ghost toks: seq<Term>, ghost lo: nat) returns (n: NegExec)
    requires |corpus| < END && NegOk(np, toks, corpus)
    ensures NegFor(n, corpus, toks) && forall c :: c in n.uniq ==> fresh(c) && NotPast(c, lo)
  {
    hide Cursor.Valid, Cursor.Index, Postings, EntryOk;
    var cs := OpenCursors(np.uniq, corpus, lo);
    var sq := Pick(cs, np.sq, corpus, TermsOf(np.uniq), toks);
    n := NegExec(cs, sq);
    NegOpened(np, n, corpus, toks);
  }

  lemma NegOpened(np: NegPlan, n: NegExec, corpus: seq<Doc>, toks: seq<Term>)
    requires NegOk(np, toks, corpus) && CursorsFor(n.uniq, corpus, TermsOf(np.uniq)) && CursorsFor(n.sq, corpus, toks)
    requires forall c :: c in n.sq ==> c in n.uniq
    ensures NegFor(n, corpus, toks)
  {
    hide Postings;
    forall c | c in n.uniq
      ensures TermAmong(c, corpus, toks)
    {
      var j :| 0 <= j < |n.uniq| && n.uniq[j] == c;
      var q :| 0 <= q < |toks| && toks[q] == np.uniq[j].e.term;
      assert c.ps == Postings(corpus, 0, toks[q]);
    }
  }

  method OpenNegs(negs: seq<NegPlan>, ghost corpus: seq<Doc>, ghost ncs: seq<seq<Term>>, ghost lo: nat)
    returns (ns: seq<NegExec>, ghost all: set<Cursor>)
    requires |corpus| < END && NegsOk(negs, ncs, corpus)
    ensures NegsFor(ns, corpus, ncs, all) && forall c :: c in all ==> fresh(c) && NotPast(c, lo)
  {
    hide NotPast, NegFor, NegOk;
    ns, all := [], {};
    for i := 0 to |negs|
      invariant |ns| == i && forall c :: c in all ==> fresh(c) && NotPast(c, lo)
      invariant forall j :: 0 <= j < i ==> NegFor(ns[j], corpus, ncs[j])
      invariant forall j :: 0 <= j < i ==> forall c :: c in ns[j].uniq ==> c in all
    {
      var n := OpenNeg(negs[i], corpus, ncs[i], lo);
      ns := ns + [n];
      all := all + set c | c in n.uniq;
    }
  }

  /** The same cursors, in some order. */
  ghost predicate Arranged(cs: seq<Cursor>, order: seq<Cursor>) {
    (forall c :: c in order ==> c in cs) && (forall c :: c in cs ==> c in order)
  }

  lemma SameCursors(cs: seq<Cursor>, order: seq<Cursor>, less: (Cursor, Cursor) -> bool)
    requires order == Sort(less, cs)
    ensures |order| == |cs| && Arranged(cs, order)
  {
    SortPermutes(less, cs);
    forall c: Cursor
      ensures c in order <==> c in cs
    {
      SortKeepsElement(less, cs, c);
    }
  }

  function Until(d: nat, hi: nat): nat {
    if d < hi then d else hi
  }

  lemma MatchOnAllLists(corpus: seq<Doc>, clauses: seq<Clause>, cs: seq<Cursor>, terms: seq<Term>, pcs: seq<seq<Term>>, x: nat)
    requires PosMeans(corpus, clauses, terms, pcs) && CursorsFor(cs, corpus, terms) && MatchesAt(corpus, clauses, x)
    ensures OnAllLists(cs, x)
  {
    hide Postings, PositiveTokens, HasDoc, PosMatch, NegMatch, AllIn;
    assert HasAll(corpus[x], terms);
    forall c | c in cs
      ensures HasDoc(c.ps, x)
    {
      var j :| 0 <= j < |cs| && cs[j] == c;
      HasDocMeans(corpus, terms[j], x);
    }
  }

  /** Moving on to `next`, with nothing matching in between, adds nothing. */
  lemma MovedOn(corpus: seq<Doc>, clauses: seq<Clause>, idf: (nat, nat) -> real, cs: seq<Cursor>, terms: seq<Term>,
                pcs: seq<seq<Term>>, lo: nat, hi: nat, a: nat, next: nat)
    requires PosMeans(corpus, clauses, terms, pcs) && CursorsFor(cs, corpus, terms)
    requires lo <= a <= hi && a <= next && NoneAll(cs, a, next)
    ensures RangeHits(corpus, clauses, idf, lo, Until(next, hi)) == RangeHits(corpus, clauses, idf, lo, a)
  {
    hide RangeHits, Postings, PositiveTokens, HasDoc, PosMatch, NegMatch, AllIn;
    forall x | a <= x < next
      ensures !MatchesAt(corpus, clauses, x)
    {
      if MatchesAt(corpus, clauses, x) {
        MatchOnAllLists(corpus, clauses, cs, terms, pcs, x);
      }
    }
    HitsSkip(corpus, clauses, idf, lo, a, Until(next, hi));
  }

  /** What stays the same while a plan is executed. */
  ghost predicate Setup(ix: Index, pl: Plan, corpus: seq<Doc>, clauses: seq<Clause>, pcs: seq<seq<Term>>, ncs: seq<seq<Term>>,
                        cs: seq<Cursor>, phr: seq<seq<Cursor>>, negs: seq<NegExec>, ns: set<Cursor>) {
    && |corpus| < END && ix.n == |corpus| == |ix.dls| == |ix.ids| && ix.tokens == TotalTokens(corpus)
    && (forall d :: 0 <= d < |corpus| ==> ix.ids[d] == corpus[d].id && ix.dls[d] == |corpus[d].tokens|)
    && PlanOk(pl, corpus, clauses, pcs, ncs)
    && CursorsFor(cs, corpus, TermsOf(pl.pos)) && cs != []
    && PhrasesOver(phr, pcs, cs, corpus) && NegsFor(negs, corpus, ncs, ns)
    && (forall c :: c in cs ==> c !in ns)
  }

  lemma CandidateMeans(ix: Index, pl: Plan, corpus: seq<Doc>, clauses: seq<Clause>, pcs: seq<seq<Term>>,
                       ncs: seq<seq<Term>>, cs: seq<Cursor>, phr: seq<seq<Cursor>>, negs: seq<NegExec>, ns: set<Cursor>, d: nat)
    requires Setup(ix, pl, corpus, clauses, pcs, ncs, cs, phr, negs, ns) && AllOn(cs, d)
    ensures d < |corpus|
    ensures DocMatches(corpus[d], clauses) <==> AllIn(corpus[d], pcs) && NoneIn(corpus[d], ncs)
  {
    hide Postings, AllIn, NoneIn, PosMatch, NegMatch, Cursor.Valid, PositiveTokens;
    var terms := TermsOf(pl.pos);
    assert cs[0] in cs;
    OnPosting(cs[0], corpus, terms[0], d);
    forall j | 0 <= j < |cs|
      ensures terms[j] in corpus[d].tokens
    {
      assert cs[j] in cs;
      OnPosting(cs[j], corpus, terms[j], d);
    }
    assert HasAll(corpus[d], terms);
  }

  /** Whether document d, on which all cursors stand, is a match. */
  method Candidate(ix: Index, pl: Plan, cs: seq<Cursor>, phr: seq<seq<Cursor>>, negs: seq<NegExec>, d: nat,
                   ghost ns: set<Cursor>, ghost corpus: seq<Doc>, ghost clauses: seq<Clause>, ghost pcs: seq<seq<Term>>,
                   ghost ncs: seq<seq<Term>>) returns (fits: bool)
    requires Setup(ix, pl, corpus, clauses, pcs, ncs, cs, phr, negs, ns) && AllOn(cs, d) && AllNotPast(cs, d)
    requires forall c :: c in ns ==> NotPast(c, d)
    modifies set c | c in cs :: c`pp, set c | c in cs :: c`pj, ns
    ensures d < |corpus| && (fits <==> DocMatches(corpus[d], clauses))
    ensures AllOn(cs, d) && AllNotPast(cs, d) && forall c :: c in ns ==> NotPast(c, d)
  {
    hide DocMatches, PlanOk, PhrasesOver, NegsFor, Cursor.Valid, Cursor.Index, AllIn, NoneIn, CursorsFor;
    CandidateMeans(ix, pl, corpus, clauses, pcs, ncs, cs, phr, negs, ns, d);
    fits := CheckPhrases(phr, d, cs, corpus, pcs);
    if fits {
      fits := CheckNegs(negs, d, ns, corpus, ncs);
    }
  }

  lemma HitScore(corpus: seq<Doc>, clauses: seq<Clause>, idf: (nat, nat) -> real, pl: Plan, pcs: seq<seq<Term>>,
                 ncs: seq<seq<Term>>, d: nat, s: real)
    requires PlanOk(pl, corpus, clauses, pcs, ncs) && d < |corpus|
    requires s == Total(t => TermScore(corpus, idf, corpus[d], t), TermsOf(pl.pos))
    ensures Hit(s, corpus[d].id, d) == HitOf(corpus, clauses, idf, d)
  {
    ScoreInAnyOrder(corpus, clauses, idf, corpus[d], TermsOf(pl.pos));
  }

  lemma HitsStep(corpus: seq<Doc>, clauses: seq<Clause>, idf: (nat, nat) -> real, lo: nat, d: nat)
    requires lo <= d < |corpus|
    ensures RangeHits(corpus, clauses, idf, lo, d + 1) == RangeHits(corpus, clauses, idf, lo, d) +
      if DocMatches(corpus[d], clauses) then [HitOf(corpus, clauses, idf, d)] else []
  {}

  method NextDoc(lead: Cursor, d: nat) returns (next: nat)
    requires OnDoc(lead, d) && NotPast(lead, d)
    modifies lead
    ensures d < next <= END && next == lead.doc && NotPast(lead, next)
    ensures forall x :: d < x < next ==> !HasDoc(lead.ps, x)
  {
    OrderedPostings(lead);
    lead.Next();
    assert NotPast(lead, d + 1);
    GapToDoc(lead, d + 1);
    next := lead.doc;
  }

  /** Counts and keeps document d, on which all cursors stand, if it matches. */
  method Consider(ix: Index, pl: Plan, cs: seq<Cursor>, phr: seq<seq<Cursor>>, negs: seq<NegExec>, d: nat,
                  idf: (nat, nat) -> real, top: TopK, total0: nat, ghost ns: set<Cursor>, ghost corpus: seq<Doc>,
                  ghost clauses: seq<Clause>, ghost pcs: seq<seq<Term>>, ghost ncs: seq<seq<Term>>, ghost lo: nat)
    returns (total: nat)
    requires Setup(ix, pl, corpus, clauses, pcs, ncs, cs, phr, negs, ns) && AllOn(cs, d) && AllNotPast(cs, d)
    requires forall c :: c in ns ==> NotPast(c, d)
    requires lo <= d && Kept(top, total0, RangeHits(corpus, clauses, idf, lo, d))
    modifies set c | c in cs :: c`pp, set c | c in cs :: c`pj, ns, top
    ensures AllOn(cs, d) && AllNotPast(cs, d) && forall c :: c in ns ==> NotPast(c, d)
    ensures Kept(top, total, RangeHits(corpus, clauses, idf, lo, d + 1))
  {
    hide DocMatches, PlanOk, PhrasesOver, NegsFor, Cursor.Valid, Cursor.Index, CursorsFor, TermScore, Total, RangeHits,
      TopK.Valid, NotPast, HitOf, Scorable;
    total := total0;
    ghost var was := RangeHits(corpus, clauses, idf, lo, d);
    var fits := Candidate(ix, pl, cs, phr, negs, d, ns, corpus, clauses, pcs, ncs);
    HitsStep(corpus, clauses, idf, lo, d);
    if fits {
      Scores(ix, pl, corpus, clauses, pcs, ncs, cs, phr, negs, ns, d);
      var s := ScoreDoc(ix, pl.pos, cs, d, idf, corpus);
      HitScore(corpus, clauses, idf, pl, pcs, ncs, d, s);
      total := total + 1;
      var h := Hit(s, ix.ids[d], d);
      top.Push(h, multiset(was));
      assert multiset(was + [h]) == multiset(was) + multiset{h};
    } else {
      assert was + [] == was;
    }
  }

  ghost predicate Kept(top: TopK, total: nat, hits: seq<Hit>)
    reads top
  {
    total == |hits| && top.Valid(multiset(hits))
  }

  lemma Scores(ix: Index, pl: Plan, corpus: seq<Doc>, clauses: seq<Clause>, pcs: seq<seq<Term>>,
               ncs: seq<seq<Term>>, cs: seq<Cursor>, phr: seq<seq<Cursor>>, negs: seq<NegExec>, ns: set<Cursor>, d: nat)
    requires Setup(ix, pl, corpus, clauses, pcs, ncs, cs, phr, negs, ns) && AllOn(cs, d) && d < |corpus|
    ensures Scorable(ix, pl.pos, cs, corpus, d) && PlanOk(pl, corpus, clauses, pcs, ncs)
    ensures ix.ids[d] == corpus[d].id
  {}

  /** The state between two candidates: d is the leader's document. */
  ghost predicate Going(order: seq<Cursor>, ns: set<Cursor>, d: nat)
    requires order != []
    reads order, ns
  {
    && AllNotPast(order, d) && (forall c :: c in ns ==> NotPast(c, d))
    && d == order[0].doc && d <= END && order[0].Valid()
  }

  lemma NsLater(ns: set<Cursor>, d: nat, e: nat)
    requires (forall c :: c in ns ==> NotPast(c, d)) && d <= e
    ensures forall c :: c in ns ==> NotPast(c, e)
  {}

  lemma SameLists(cs: seq<Cursor>, order: seq<Cursor>, a: nat, b: nat)
    requires Arranged(cs, order)
    ensures NoneAll(cs, a, b) <==> NoneAll(order, a, b)
  {
    assert forall x {:trigger OnAllLists(cs, x)} {:trigger OnAllLists(order, x)} :: OnAllLists(cs, x) <==> OnAllLists(order, x);
  }

  /** One round of the leapfrog. */
  method Leap(ix: Index, pl: Plan, cs: seq<Cursor>, order: seq<Cursor>, phr: seq<seq<Cursor>>, negs: seq<NegExec>, d: nat,
              hi: nat, idf: (nat, nat) -> real, top: TopK, total0: nat, ghost ns: set<Cursor>, ghost corpus: seq<Doc>,
              ghost clauses: seq<Clause>, ghost pcs: seq<seq<Term>>, ghost ncs: seq<seq<Term>>, ghost lo: nat)
    returns (total: nat, next: nat)
    requires Setup(ix, pl, corpus, clauses, pcs, ncs, cs, phr, negs, ns) && order != [] && lo <= d < hi <= END
    requires Arranged(cs, order)
    requires Going(order, ns, d) && Kept(top, total0, RangeHits(corpus, clauses, idf, lo, d))
    modifies cs, order, ns, top
    ensures d < next <= END
    ensures next < END ==> Going(order, ns, next)
    ensures Kept(top, total, RangeHits(corpus, clauses, idf, lo, Until(next, hi)))
  {
    hide PlanOk, PhrasesOver, NegsFor, Cursor.Valid, Cursor.Index, CursorsFor, RangeHits, NotPast, Kept, NoneAll;
    total := total0;
    ghost var terms := TermsOf(pl.pos);
    ghost var from := d;
    LeapSetup(ix, pl, corpus, clauses, pcs, ncs, cs, phr, negs, ns);
    var all;
    all, next := Align(order, d);
    if all {
      total := Consider(ix, pl, cs, phr, negs, d, idf, top, total, ns, corpus, clauses, pcs, ncs, lo);
      assert order[0] in cs;
      next := NextDoc(order[0], d);
      NoneOf(order, order[0], d + 1, next);
      LaterButLead(order, d, next);
      from := d + 1;
    }
    NsLater(ns, d, next);
    SameLists(cs, order, from, next);
    MovedOn(corpus, clauses, idf, cs, terms, pcs, lo, hi, from, next);
  }

  lemma LaterButLead(order: seq<Cursor>, d: nat, next: nat)
    requires order != [] && NotPast(order[0], next) && d <= next
    requires forall c :: c in order && c != order[0] ==> NotPast(c, d)
    ensures AllNotPast(order, next)
  {}

  lemma LeapSetup(ix: Index, pl: Plan, corpus: seq<Doc>, clauses: seq<Clause>, pcs: seq<seq<Term>>,
                  ncs: seq<seq<Term>>, cs: seq<Cursor>, phr: seq<seq<Cursor>>, negs: seq<NegExec>, ns: set<Cursor>)
    requires Setup(ix, pl, corpus, clauses, pcs, ncs, cs, phr, negs, ns)
    ensures PosMeans(corpus, clauses, TermsOf(pl.pos), pcs)
  {}

  /** Evaluates the plan over the documents numbered from `lo` to `hi`: how many match, and the best k of them. */
  method Exec(ix: Index, pl: Plan, lo: nat, hi: nat, k: nat, idf: (nat, nat) -> real, ghost bucket: Term -> nat,
              ghost corpus: seq<Doc>, ghost clauses: seq<Clause>, ghost pcs: seq<seq<Term>>, ghost ncs: seq<seq<Term>>)
    returns (total: nat, hits: seq<Hit>)
    requires IndexOk(ix, corpus, bucket) && |corpus| < END && PlanOk(pl, corpus, clauses, pcs, ncs)
    requires lo <= hi <= END && k >= 1
    ensures total == |RangeHits(corpus, clauses, idf, lo, hi)|
    ensures IsTop(multiset(hits), multiset(RangeHits(corpus, clauses, idf, lo, hi)), k)
  {
    hide PhrasesOver, NegsFor, Cursor.Valid, Cursor.Index, CursorsFor, RangeHits, NotPast, NoneAll, PosMeans, NegMeans,
      EntryFor, AllSpell, NegsOk, IsTop, NoRepeats, HasDoc;
    var cs := OpenCursors(pl.pos, corpus, lo);
    var less := (a: Cursor, b: Cursor) => a.e.df < b.e.df;
    var order := Sort(less, cs);
    SameCursors(cs, order, less);
    var phr := OpenPhrases(cs, pl.phrases, corpus, TermsOf(pl.pos), pcs);
    var negs;
    ghost var ns;
    negs, ns := OpenNegs(pl.negs, corpus, ncs, lo);
    CursorsMatch(cs, corpus, TermsOf(pl.pos));
    assert Setup(ix, pl, corpus, clauses, pcs, ncs, cs, phr, negs, ns);
    var top := new TopK(k);
    total := 0;
    var d;
    forall i | 0 <= i < |order|
      ensures fresh(order[i])
    {
      var j := PlaceIn(cs, order, i);
    }
    d := Begin(order, lo, ns);
    SameLists(cs, order, lo, d);
    NoHits(corpus, clauses, idf, lo);
    MovedOn(corpus, clauses, idf, cs, TermsOf(pl.pos), pcs, lo, hi, lo, d);
    while d < hi
      invariant lo <= d <= END && (d < hi ==> Going(order, ns, d))
      invariant Kept(top, total, RangeHits(corpus, clauses, idf, lo, Until(d, hi)))
      invariant top.k == k
      decreases END - d
    {
      total, d := Leap(ix, pl, cs, order, phr, negs, d, hi, idf, top, total, ns, corpus, clauses, pcs, ncs, lo);
    }
    hits := top.h;
  }

  lemma PlaceIn(cs: seq<Cursor>, order: seq<Cursor>, i: nat) returns (j: nat)
    requires Arranged(cs, order) && i < |order|
    ensures j < |cs| && cs[j] == order[i]
  {
    assert order[i] in order;
    j :| 0 <= j < |cs| && cs[j] == order[i];
  }

  lemma NoHits(corpus: seq<Doc>, clauses: seq<Clause>, idf: (nat, nat) -> real, lo: nat)
    ensures RangeHits(corpus, clauses, idf, lo, lo) == []
  {}

  lemma CursorsMatch(cs: seq<Cursor>, corpus: seq<Doc>, terms: seq<Term>)
    requires CursorsFor(cs, corpus, terms)
    ensures |cs| == |terms|
  {}

  /** Moves the leader to its first document not before `lo`. */
  method Begin(order: seq<Cursor>, lo: nat, ghost ns: set<Cursor>) returns (d: nat)
    requires order != [] && AllNotPast(order, lo) && (forall c :: c in ns ==> NotPast(c, lo)) && lo <= END
    requires forall c :: c in order ==> c !in ns
    modifies order[0]
    ensures lo <= d <= END && NoneAll(order, lo, d) && Going(order, ns, d)
  {
    hide Cursor.Valid, Cursor.Index, HasDoc, NoneAll;
    var lead := order[0];
    assert lead in order;
    AdvanceTo(lead, lo);
    d := lead.doc;
    NoneOf(order, lead, lo, d);
    NotPastLater(order, lo, d);
    NsLater(ns, lo, d);
  }

  // ----- ranges and ranking -----

  method PushAll(top: TopK, hs: seq<Hit>, ghost pushed: multiset<Hit>)
    requires top.Valid(pushed)
    modifies top
    ensures top.Valid(pushed + multiset(hs))
  {
    hide TopK.Valid;
    assert pushed + multiset(hs[..0]) == pushed;
    for i := 0 to |hs|
      invariant top.Valid(pushed + multiset(hs[..i]))
    {
      top.Push(hs[i], pushed + multiset(hs[..i]));
      assert hs[..i + 1] == hs[..i] + [hs[i]];
      assert pushed + multiset(hs[..i]) + multiset{hs[i]} == pushed + multiset(hs[..i + 1]);
    }
    assert hs[..|hs|] == hs;
  }

  /** Evaluates the plan range by range and joins the results. */
  method ExecParts(ix: Index, pl: Plan, parts: nat, k: nat, idf: (nat, nat) -> real, ghost bucket: Term -> nat,
                   ghost corpus: seq<Doc>, ghost clauses: seq<Clause>, ghost pcs: seq<seq<Term>>, ghost ncs: seq<seq<Term>>)
    returns (total: nat, hits: seq<Hit>)
    requires IndexOk(ix, corpus, bucket) && |corpus| < END && PlanOk(pl, corpus, clauses, pcs, ncs) && parts >= 1 && k >= 1
    ensures total == |RangeHits(corpus, clauses, idf, 0, |corpus|)|
    ensures IsTop(multiset(hits), multiset(RangeHits(corpus, clauses, idf, 0, |corpus|)), k)
  {
    hide RangeHits, PlanOk, Heap, IsTop, Share, IndexOk;
    IndexSize(ix, corpus, bucket);
    var n := ix.n;
    var top := new TopK(k);
    total := 0;
    NoHits(corpus, clauses, idf, 0);
    Shares(n, parts, 0);
    for p := 0 to parts
      invariant Share(n, parts, p) <= n
      invariant top.k == k && Kept(top, total, RangeHits(corpus, clauses, idf, 0, Share(n, parts, p)))
    {
      var lo, hi := Share(n, parts, p), Share(n, parts, p + 1);
      Shares(n, parts, p);
      var m, hs := Exec(ix, pl, lo, hi, k, idf, bucket, corpus, clauses, pcs, ncs);
      ghost var before, part := RangeHits(corpus, clauses, idf, 0, lo), RangeHits(corpus, clauses, idf, lo, hi);
      total := total + m;
      PushAll(top, hs, multiset(before));
      TopOfPart(multiset(top.h), multiset(before), multiset(part), multiset(hs), k);
      HitsConcat(corpus, clauses, idf, 0, lo, hi);
      assert multiset(before + part) == multiset(before) + multiset(part);
    }
    AllShares(n, parts);
    hits := top.h;
  }

  lemma IndexSize(ix: Index, corpus: seq<Doc>, bucket: Term -> nat)
    requires IndexOk(ix, corpus, bucket)
    ensures ix.n == |corpus|
  {}

  /** Where part p of n documents begins. */
  function Share(n: nat, parts: nat, p: nat): nat {
    if parts == 0 then 0 else n * p / parts
  }

  lemma Shares(n: nat, parts: nat, p: nat)
    requires p < parts
    ensures Share(n, parts, p) <= Share(n, parts, p + 1) <= n && Share(n, parts, 0) == 0
  {
    assert n * (p + 1) == n * p + n;
    DivMonotone(n * p, n * (p + 1), parts);
    Multiply(p + 1, parts, n);
    DivMonotone(n * (p + 1), n * parts, parts);
    AllShares(n, parts);
  }

  lemma AllShares(n: nat, parts: nat)
    requires parts > 0
    ensures Share(n, parts, parts) == n
  {
    Quotient(n * parts, parts, n);
  }

  lemma Multiply(a: nat, b: nat, m: nat)
    requires a <= b
    ensures a * m <= b * m
  {}

  lemma Quotient(a: nat, m: nat, q: nat)
    requires m > 0 && a == q * m
    ensures a / m == q
  {
    var x := a / m;
    assert a == x * m + a % m;
    if x < q {
      Multiply(x + 1, q, m);
    } else if q < x {
      Multiply(q + 1, x, m);
    }
  }

  lemma DivMonotone(a: nat, b: nat, m: nat)
    requires m > 0 && a <= b
    ensures a / m <= b / m
  {
    assert a == a / m * m + a % m && b == b / m * m + b % m;
    if a / m > b / m {
      Multiply(b / m + 1, a / m, m);
    }
  }

  /** The smallest document frequency of the plan's terms. */
  method MinDf(pos: seq<TermEntry>) returns (m: nat)
    requires pos != []
    ensures (exists i :: 0 <= i < |pos| && pos[i].e.df == m) && forall i :: 0 <= i < |pos| ==> m <= pos[i].e.df
  {
    m := pos[0].e.df;
    for i := 0 to |pos|
      invariant (exists j :: 0 <= j < |pos| && pos[j].e.df == m) && forall j :: 0 <= j < i ==> m <= pos[j].e.df
    {
      if pos[i].e.df < m {
        m := pos[i].e.df;
      }
    }
  }

  function Min(a: nat, b: nat): nat {
    if a < b then a else b
  }

  lemma SortedIsRanked(h: seq<Hit>)
    ensures Ranked(Sort(Ahead, h)) && multiset(Sort(Ahead, h)) == multiset(h)
  {
    hide StrictTotal;
    AheadIsTotal();
    SortInOrder(Ahead, h);
    SortPermutes(Ahead, h);
    var s := Sort(Ahead, h);
    forall i, j | 0 <= i < j < |s|
      ensures !Worse(s[i], s[j])
    {
      assert !Ahead(s[j], s[i]);
    }
  }

  /** The search agrees with evaluating every document and ranking all that match. */
  method Search(ix: Index, bucket: Term -> nat, clauses: seq<Clause>, k: nat, procs: nat, idf: (nat, nat) -> real,
                ghost corpus: seq<Doc>) returns (a: Answer)
    requires IndexOk(ix, corpus, bucket) && |corpus| < END && DistinctIds(corpus) && Tokenized(clauses) && k >= 1
    ensures Answers(corpus, clauses, idf, k, a) && Meant(corpus, clauses, idf, k, a)
  {
    hide IndexOk, PlanOk, RangeHits, DocMatches, IsTop, Sort, Meant;
    var ok, pl;
    ghost var pcs, ncs;
    ok, pl, pcs, ncs := BuildPlan(ix, bucket, clauses, corpus);
    if !ok {
      NothingFound(corpus, clauses, idf, k);
      AnswersMean(corpus, clauses, idf, k, Answer(0, []));
      return Answer(0, []);
    }
    PlanNotEmpty(pl, corpus, clauses, pcs, ncs);
    var minDf := MinDf(pl.pos);
    var unit := if pl.phrases != [] || pl.negs != [] then 2048 else 16384;
    var parts := Min(Min(procs, minDf / unit), 8);
    var total: nat;
    var hits;
    if parts <= 1 {
      total, hits := Exec(ix, pl, 0, END, k, idf, bucket, corpus, clauses, pcs, ncs);
      HitsSkip(corpus, clauses, idf, 0, |corpus|, END);
    } else {
      total, hits := ExecParts(ix, pl, parts, k, idf, bucket, corpus, clauses, pcs, ncs);
    }
    var ranked := Sort(Ahead, hits);
    SortedIsRanked(hits);
    HitsTellApart(corpus, clauses, idf, 0, |corpus|);
    RankedTop(ranked, RangeHits(corpus, clauses, idf, 0, |corpus|), k);
    a := Answer(total, ranked);
    AnswersMean(corpus, clauses, idf, k, a);
  }

  lemma PlanNotEmpty(pl: Plan, corpus: seq<Doc>, clauses: seq<Clause>, pcs: seq<seq<Term>>, ncs: seq<seq<Term>>)
    requires PlanOk(pl, corpus, clauses, pcs, ncs)
    ensures pl.pos != []
  {}

  lemma NothingFound(corpus: seq<Doc>, clauses: seq<Clause>, idf: (nat, nat) -> real, k: nat)
    requires !HasPositive(clauses) || forall d :: 0 <= d < |corpus| ==> !DocMatches(corpus[d], clauses)
    ensures Answers(corpus, clauses, idf, k, Answer(0, []))
  {
    if HasPositive(clauses) {
      HitsSkip(corpus, clauses, idf, 0, 0, |corpus|);
    }
  }
}
