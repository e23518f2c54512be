/** The opened index, and turning a query into a plan over its entries. */
module SearchPlan {
  import opened SearchVarint
  import opened SearchCorpus
  import opened SearchOrder
  import opened SearchWorker
  import opened SearchBlocks
  import opened SearchMerge
  import opened SearchCursor
  import opened SearchPhrase
  import opened SearchSpec

  datatype Index = Index(n: nat, tokens: nat, dicts: seq<Dict>, ids: seq<nat>, dls: seq<nat>)

  ghost predicate IndexOk(ix: Index, corpus: seq<Doc>, bucket: Term -> nat) {
    && ix.n == |corpus| == |ix.ids| == |ix.dls| && ix.tokens == TotalTokens(corpus)
    && (forall d :: 0 <= d < |corpus| ==> ix.ids[d] == corpus[d].id && ix.dls[d] == |corpus[d].tokens|)
    && (forall b :: 0 <= b < |ix.dicts| ==> DictOk(ix.dicts[b], corpus, bucket, b))
    && (forall t :: bucket(t) < |ix.dicts|)
  }

  /** An entry with the files it points into. */
  datatype TermEntry = TermEntry(e: Entry, d: Dict)

  ghost predicate EntryFor(te: TermEntry, corpus: seq<Doc>) {
    EntryOk(te.e, te.d.docs, te.d.pos, Postings(corpus, 0, te.e.term))
  }

  /** A term is found exactly if it occurs; what is found describes its postings in the corpus. */
  method Find(ix: Index, bucket: Term -> nat, t: Term, ghost corpus: seq<Doc>) returns (found: bool, te: TermEntry)
    requires IndexOk(ix, corpus, bucket)
    ensures found <==> Occurs(corpus, t)
    ensures found ==> te.e.term == t && EntryFor(te, corpus)
  {
    hide EntryOk, Occurs;
    var d := ix.dicts[bucket(t)];
    assert DictOk(d, corpus, bucket, bucket(t));
    var k;
    found, k := Lookup(d, t);
    te := TermEntry(Entry(t, 0, [], 0, 0), Dict([], [], []));
    if found {
      te := TermEntry(d.entries[k], d);
      assert DictEntry(d.entries[k], d.docs, d.pos, corpus, bucket, bucket(t));
      EntryOccurs(te, corpus);
    }
    assert Occurs(corpus, t) ==> Has(d.entries, t);
  }

  lemma EntryOccurs(te: TermEntry, corpus: seq<Doc>)
    requires EntryFor(te, corpus)
    ensures Occurs(corpus, te.e.term)
  {
    OccursMeansPostings(corpus, 0, te.e.term);
  }

  // ----- interning the terms of a query -----

  function TermsOf(uniq: seq<TermEntry>): (ts: seq<Term>)
    ensures |ts| == |uniq| && forall i :: 0 <= i < |uniq| ==> ts[i] == uniq[i].e.term
  {
    seq(|uniq|, i requires 0 <= i < |uniq| => uniq[i].e.term)
  }

  /** The plan's terms, each once, with `idx` telling where. */
  ghost predicate Interned(uniq: seq<TermEntry>, idx: map<Term, nat>, corpus: seq<Doc>) {
    && (forall i :: 0 <= i < |uniq| ==> uniq[i].e.term in idx && idx[uniq[i].e.term] == i && EntryFor(uniq[i], corpus))
    && (forall t :: t in idx ==> idx[t] < |uniq| && uniq[idx[t]].e.term == t)
  }

  /** The indices `sq` spell the tokens. */
  ghost predicate Spells(terms: seq<Term>, sq: seq<nat>, toks: seq<Term>) {
    |sq| == |toks| && forall j :: 0 <= j < |sq| ==> sq[j] < |terms| && terms[sq[j]] == toks[j]
  }

  lemma SpellsMore(terms: seq<Term>, more: seq<Term>, sq: seq<nat>, toks: seq<Term>)
    requires Spells(terms, sq, toks) && terms <= more
    ensures Spells(more, sq, toks)
  {}

  lemma InternedNoRepeats(uniq: seq<TermEntry>, idx: map<Term, nat>, corpus: seq<Doc>)
    requires Interned(uniq, idx, corpus)
    ensures NoRepeats(TermsOf(uniq))
  {}

  /** Looks up the tokens of one clause, sharing entries already found; fails if one does not occur. */
  method InternClause(ix: Index, bucket: Term -> nat, toks: seq<Term>, uniq0: seq<TermEntry>, idx0: map<Term, nat>,
                      ghost corpus: seq<Doc>)
    returns (ok: bool, uniq: seq<TermEntry>, idx: map<Term, nat>, sq: seq<nat>)
    requires IndexOk(ix, corpus, bucket) && Interned(uniq0, idx0, corpus)
    ensures ok <==> forall j :: 0 <= j < |toks| ==> Occurs(corpus, toks[j])
    ensures ok ==> Interned(uniq, idx, corpus) && Spells(TermsOf(uniq), sq, toks)
    ensures ok ==> TermsOf(uniq0) <= TermsOf(uniq)
    ensures ok ==> forall t :: t in TermsOf(uniq) <==> t in TermsOf(uniq0) || t in toks
  {
    hide EntryFor, Occurs, IndexOk;
    ok, uniq, idx, sq := true, uniq0, idx0, [];
    for n := 0 to |toks|
      invariant Interned(uniq, idx, corpus) && |sq| == n
      invariant forall j :: 0 <= j < n ==> sq[j] < |uniq| && uniq[sq[j]].e.term == toks[j] && Occurs(corpus, toks[j])
      invariant uniq0 <= uniq
      invariant forall i :: |uniq0| <= i < |uniq| ==> uniq[i].e.term in toks
    {
      var t := toks[n];
      if t !in idx {
        var found, te := Find(ix, bucket, t, corpus);
        if !found {
          ok := false;
          return;
        }
        idx := idx[t := |uniq|];
        uniq := uniq + [te];
      }
      EntryOccurs(uniq[idx[t]], corpus);
      sq := sq + [idx[t]];
    }
    InternedTerms(uniq0, uniq, toks, sq);
  }

  lemma InternedTerms(uniq0: seq<TermEntry>, uniq: seq<TermEntry>, toks: seq<Term>, sq: seq<nat>)
    requires uniq0 <= uniq && |sq| == |toks|
    requires forall j :: 0 <= j < |toks| ==> sq[j] < |uniq| && uniq[sq[j]].e.term == toks[j]
    requires forall i :: |uniq0| <= i < |uniq| ==> uniq[i].e.term in toks
    ensures TermsOf(uniq0) <= TermsOf(uniq)
    ensures forall t :: t in TermsOf(uniq) <==> t in TermsOf(uniq0) || t in toks
  {
    var a, b := TermsOf(uniq0), TermsOf(uniq);
    forall t
      ensures t in b <==> t in a || t in toks
    {
      if t in a {
        var i :| 0 <= i < |a| && a[i] == t;
        assert b[i] == t;
      }
      if t in toks {
        var j :| 0 <= j < |toks| && toks[j] == t;
        assert b[sq[j]] == t;
      }
    }
  }

  // ----- the plan -----

  datatype NegPlan = NegPlan(uniq: seq<TermEntry>, sq: seq<nat>)

  datatype Plan = Plan(pos: seq<TermEntry>, phrases: seq<seq<nat>>, negs: seq<NegPlan>)

  ghost predicate HasAll(d: Doc, terms: seq<Term>) {
    forall i :: 0 <= i < |terms| ==> terms[i] in d.tokens
  }

  ghost predicate AllIn(d: Doc, tss: seq<seq<Term>>) {
    forall i :: 0 <= i < |tss| ==> ClauseIn(d, tss[i])
  }

  ghost predicate NoneIn(d: Doc, tss: seq<seq<Term>>) {
    forall i :: 0 <= i < |tss| ==> !ClauseIn(d, tss[i])
  }

  ghost predicate PosMeans(corpus: seq<Doc>, clauses: seq<Clause>, terms: seq<Term>, pcs: seq<seq<Term>>) {
    && (forall d :: 0 <= d < |corpus| ==>
         (PosMatch(corpus[d], clauses) <==> HasAll(corpus[d], terms) && AllIn(corpus[d], pcs)))
    && (forall t :: t in terms <==> t in PositiveTokens(clauses))
  }

  ghost predicate NegMeans(corpus: seq<Doc>, clauses: seq<Clause>, ncs: seq<seq<Term>>) {
    forall d :: 0 <= d < |corpus| ==> (NegMatch(corpus[d], clauses) <==> NoneIn(corpus[d], ncs))
  }

  lemma PosMatchStep(d: Doc, clauses: seq<Clause>, c: Clause)
    ensures PosMatch(d, clauses + [c]) <==> PosMatch(d, clauses) && (c.neg || ClauseIn(d, c.tokens))
    ensures NegMatch(d, clauses + [c]) <==> NegMatch(d, clauses) && (!c.neg || !ClauseIn(d, c.tokens))
  {
    var s := clauses + [c];
    assert s[|clauses|] == c && forall i :: 0 <= i < |clauses| ==> s[i] == clauses[i];
  }

  lemma AllInStep(d: Doc, tss: seq<seq<Term>>, ts: seq<Term>)
    ensures AllIn(d, tss + [ts]) <==> AllIn(d, tss) && ClauseIn(d, ts)
    ensures NoneIn(d, tss + [ts]) <==> NoneIn(d, tss) && !ClauseIn(d, ts)
  {
    var s := tss + [ts];
    assert s[|tss|] == ts && forall i :: 0 <= i < |tss| ==> s[i] == tss[i];
  }

  /** One positive clause: its terms are required, and the whole phrase if there are several. */
  lemma ClauseByTerms(d: Doc, toks: seq<Term>, terms: seq<Term>, more: seq<Term>)
    requires toks != [] && forall t :: t in more <==> t in terms || t in toks
    ensures HasAll(d, terms) && ClauseIn(d, toks) <==> HasAll(d, more) && (|toks| == 1 || ClauseIn(d, toks))
  {
    if HasAll(d, terms) && ClauseIn(d, toks) {
      forall i | 0 <= i < |more|
        ensures more[i] in d.tokens
      {
        assert more[i] in more;
        if more[i] in toks {
          var j :| 0 <= j < |toks| && toks[j] == more[i];
          ClauseHasTokens(d, toks, j);
        }
      }
    }
    if HasAll(d, more) {
      forall i | 0 <= i < |terms|
        ensures terms[i] in d.tokens
      {
        assert terms[i] in more;
      }
      assert toks[0] in more;
      if |toks| == 1 {
        SingleClause(d, toks[0]);
        assert toks == [toks[0]];
      }
    }
  }

  lemma PosMeansStep(corpus: seq<Doc>, clauses: seq<Clause>, c: Clause, terms: seq<Term>, more: seq<Term>,
                     pcs: seq<seq<Term>>, pcs': seq<seq<Term>>)
    requires PosMeans(corpus, clauses, terms, pcs) && c.tokens != []
    requires c.neg ==> more == terms && pcs' == pcs
    requires !c.neg ==> forall t :: t in more <==> t in terms || t in c.tokens
    requires !c.neg ==> pcs' == if |c.tokens| > 1 then pcs + [c.tokens] else pcs
    ensures PosMeans(corpus, clauses + [c], more, pcs')
  {
    var now := clauses + [c];
    assert now[..|clauses|] == clauses;
    forall d | 0 <= d < |corpus|
      ensures PosMatch(corpus[d], now) <==> HasAll(corpus[d], more) && AllIn(corpus[d], pcs')
    {
      PosMatchStep(corpus[d], clauses, c);
      AllInStep(corpus[d], pcs, c.tokens);
      if !c.neg {
        ClauseByTerms(corpus[d], c.tokens, terms, more);
      }
    }
    forall t
      ensures t in more <==> t in PositiveTokens(now)
    {
      assert t in terms <==> t in PositiveTokens(clauses);
    }
  }

  lemma NegMeansStep(corpus: seq<Doc>, clauses: seq<Clause>, c: Clause, ncs: seq<seq<Term>>, ncs': seq<seq<Term>>)
    requires NegMeans(corpus, clauses, ncs)
    requires ncs' == (if c.neg && Findable(corpus, c.tokens) then ncs + [c.tokens] else ncs)
    ensures NegMeans(corpus, clauses + [c], ncs')
  {
    forall d | 0 <= d < |corpus|
      ensures NegMatch(corpus[d], clauses + [c]) <==> NoneIn(corpus[d], ncs')
    {
      PosMatchStep(corpus[d], clauses, c);
      AllInStep(corpus[d], ncs, c.tokens);
      if !Findable(corpus, c.tokens) {
        NotFindable(corpus, c.tokens, d);
      }
    }
  }

  ghost predicate Findable(corpus: seq<Doc>, toks: seq<Term>) {
    forall j :: 0 <= j < |toks| ==> Occurs(corpus, toks[j])
  }

  lemma NotFindable(corpus: seq<Doc>, toks: seq<Term>, d: nat)
    requires !Findable(corpus, toks) && d < |corpus|
    ensures !ClauseIn(corpus[d], toks)
  {
    var j :| 0 <= j < |toks| && !Occurs(corpus, toks[j]);
    if ClauseIn(corpus[d], toks) {
      ClauseHasTokens(corpus[d], toks, j);
    }
  }

  ghost predicate AllSpell(terms: seq<Term>, sqs: seq<seq<nat>>, tss: seq<seq<Term>>) {
    |sqs| == |tss| && forall i :: 0 <= i < |sqs| ==> sqs[i] != [] && Spells(terms, sqs[i], tss[i])
  }

  ghost predicate NegOk(np: NegPlan, toks: seq<Term>, corpus: seq<Doc>) {
    && Spells(TermsOf(np.uniq), np.sq, toks) && toks != []
    && (forall i :: 0 <= i < |np.uniq| ==> EntryFor(np.uniq[i], corpus) && np.uniq[i].e.term in toks)
  }

  ghost predicate NegsOk(negs: seq<NegPlan>, ncs: seq<seq<Term>>, corpus: seq<Doc>) {
    |negs| == |ncs| && forall i :: 0 <= i < |negs| ==> NegOk(negs[i], ncs[i], corpus)
  }

  /** What execution relies on: `pcs` and `ncs` are the phrases required and the clauses excluded. */
  ghost predicate PlanOk(pl: Plan, corpus: seq<Doc>, clauses: seq<Clause>, pcs: seq<seq<Term>>, ncs: seq<seq<Term>>) {
    && pl.pos != [] && NoRepeats(TermsOf(pl.pos))
    && (forall i :: 0 <= i < |pl.pos| ==> EntryFor(pl.pos[i], corpus))
    && AllSpell(TermsOf(pl.pos), pl.phrases, pcs) && NegsOk(pl.negs, ncs, corpus)
    && PosMeans(corpus, clauses, TermsOf(pl.pos), pcs) && NegMeans(corpus, clauses, ncs)
  }

  ghost predicate Tokenized(clauses: seq<Clause>) {
    forall i :: 0 <= i < |clauses| ==> clauses[i].tokens != []
  }

  lemma AllSpellStep(terms: seq<Term>, more: seq<Term>, sqs: seq<seq<nat>>, tss: seq<seq<Term>>, sq: seq<nat>, ts: seq<Term>)
    requires AllSpell(terms, sqs, tss) && terms <= more && Spells(more, sq, ts) && sq != []
    ensures AllSpell(more, sqs + [sq], tss + [ts]) && AllSpell(more, sqs, tss)
  {
    forall i | 0 <= i < |sqs|
      ensures Spells(more, sqs[i], tss[i])
    {
      SpellsMore(terms, more, sqs[i], tss[i]);
    }
  }

  lemma FirstTerm(toks: seq<Term>, sq: seq<nat>, uniq: seq<TermEntry>)
    requires Spells(TermsOf(uniq), sq, toks) && toks != []
    ensures uniq != [] && sq != []
  {
    assert sq[0] < |TermsOf(uniq)|;
  }

  /** The positive clauses: fails if one of their tokens does not occur. */
  method PlanPositive(ix: Index, bucket: Term -> nat, clauses: seq<Clause>, ghost corpus: seq<Doc>)
    returns (ok: bool, any: bool, pos: seq<TermEntry>, phrases: seq<seq<nat>>, ghost pcs: seq<seq<Term>>)
    requires IndexOk(ix, corpus, bucket) && Tokenized(clauses)
    ensures !ok ==> HasPositive(clauses) && forall d :: 0 <= d < |corpus| ==> !PosMatch(corpus[d], clauses)
    ensures ok ==> any == HasPositive(clauses) && (any ==> pos != [])
    ensures ok ==> PosMeans(corpus, clauses, TermsOf(pos), pcs) && AllSpell(TermsOf(pos), phrases, pcs)
    ensures ok ==> NoRepeats(TermsOf(pos)) && forall i :: 0 <= i < |pos| ==> EntryFor(pos[i], corpus)
  {
    hide IndexOk, EntryFor, Occurs, PosMatch, Spells, NoRepeats, PosMeans, AllSpell, ClauseIn;
    var idx: map<Term, nat> := map[];
    ok, any, pos, phrases, pcs := true, false, [], [], [];
    PosMeansNothing(corpus);
    for n := 0 to |clauses|
      invariant Interned(pos, idx, corpus) && AllSpell(TermsOf(pos), phrases, pcs)
      invariant any <==> exists i :: 0 <= i < n && !clauses[i].neg
      invariant any ==> pos != []
      invariant PosMeans(corpus, clauses[..n], TermsOf(pos), pcs)
    {
      var c := clauses[n];
      assert clauses[..n + 1] == clauses[..n] + [c];
      if c.neg {
        PosMeansStep(corpus, clauses[..n], c, TermsOf(pos), TermsOf(pos), pcs, pcs);
        continue;
      }
      any := true;
      ghost var terms, pcs0 := TermsOf(pos), pcs;
      var sq;
      ok, pos, idx, sq := InternClause(ix, bucket, c.tokens, pos, idx, corpus);
      if !ok {
        NothingMatches(corpus, clauses, n);
        return;
      }
      FirstTerm(c.tokens, sq, pos);
      AllSpellStep(terms, TermsOf(pos), phrases, pcs, sq, c.tokens);
      SpellsLength(TermsOf(pos), sq, c.tokens);
      if |sq| > 1 {
        phrases := phrases + [sq];
        pcs := pcs + [c.tokens];
      }
      PosMeansStep(corpus, clauses[..n], c, terms, TermsOf(pos), pcs0, pcs);
    }
    assert clauses[..|clauses|] == clauses;
    InternedNoRepeats(pos, idx, corpus);
  }

  lemma SpellsLength(terms: seq<Term>, sq: seq<nat>, toks: seq<Term>)
    requires Spells(terms, sq, toks)
    ensures |sq| == |toks|
  {}

  lemma PosMeansNothing(corpus: seq<Doc>)
    ensures PosMeans(corpus, [], [], []) && AllSpell([], [], []) && NegMeans(corpus, [], [])
  {}

  lemma NothingMatches(corpus: seq<Doc>, clauses: seq<Clause>, n: nat)
    requires n < |clauses| && !clauses[n].neg && !Findable(corpus, clauses[n].tokens)
    ensures HasPositive(clauses) && forall d :: 0 <= d < |corpus| ==> !PosMatch(corpus[d], clauses)
  {
    forall d | 0 <= d < |corpus|
      ensures !PosMatch(corpus[d], clauses)
    {
      NotFindable(corpus, clauses[n].tokens, d);
    }
  }

  /** The negative clauses; one with a token that does not occur excludes nothing and is dropped. */
  method PlanNegative(ix: Index, bucket: Term -> nat, clauses: seq<Clause>, ghost corpus: seq<Doc>)
    returns (negs: seq<NegPlan>, ghost ncs: seq<seq<Term>>)
    requires IndexOk(ix, corpus, bucket) && Tokenized(clauses)
    ensures NegsOk(negs, ncs, corpus) && NegMeans(corpus, clauses, ncs)
  {
    hide IndexOk, EntryFor, Occurs, NegMeans, ClauseIn, Spells;
    negs, ncs := [], [];
    PosMeansNothing(corpus);
    for n := 0 to |clauses|
      invariant NegsOk(negs, ncs, corpus) && NegMeans(corpus, clauses[..n], ncs)
    {
      var c := clauses[n];
      assert clauses[..n + 1] == clauses[..n] + [c];
      ghost var ncs0 := ncs;
      if c.neg {
        var ok, uniq, idx, sq := InternClause(ix, bucket, c.tokens, [], map[], corpus);
        if ok {
          NegFrom(uniq, idx, sq, c.tokens, corpus);
          negs := negs + [NegPlan(uniq, sq)];
          ncs := ncs + [c.tokens];
        }
      }
      NegMeansStep(corpus, clauses[..n], c, ncs0, ncs);
    }
    assert clauses[..|clauses|] == clauses;
  }

  lemma NegFrom(uniq: seq<TermEntry>, idx: map<Term, nat>, sq: seq<nat>, toks: seq<Term>, corpus: seq<Doc>)
    requires Interned(uniq, idx, corpus) && Spells(TermsOf(uniq), sq, toks) && toks != []
    requires forall t :: t in TermsOf(uniq) <==> t in TermsOf([]) || t in toks
    ensures NegOk(NegPlan(uniq, sq), toks, corpus)
  {
    forall i | 0 <= i < |uniq|
      ensures uniq[i].e.term in toks
    {
      assert TermsOf(uniq)[i] in TermsOf(uniq);
    }
  }

  /** A plan exists unless the query has no positive clause or a positive token does not occur. */
  method BuildPlan(ix: Index, bucket: Term -> nat, clauses: seq<Clause>, ghost corpus: seq<Doc>)
    returns (ok: bool, pl: Plan, ghost pcs: seq<seq<Term>>, ghost ncs: seq<seq<Term>>)
    requires IndexOk(ix, corpus, bucket) && Tokenized(clauses)
    ensures ok ==> HasPositive(clauses) && PlanOk(pl, corpus, clauses, pcs, ncs)
    ensures !ok ==> !HasPositive(clauses) || forall d :: 0 <= d < |corpus| ==> !DocMatches(corpus[d], clauses)
  {
    hide IndexOk, EntryFor, PosMatch, NegMatch, Spells, NoRepeats, PosMeans, NegMeans, NegsOk;
    pl := Plan([], [], []);
    ncs := [];
    var any, pos, phrases;
    ok, any, pos, phrases, pcs := PlanPositive(ix, bucket, clauses, corpus);
    if !ok {
      return;
    }
    if !any {
      ok := false;
      return;
    }
    var negs;
    negs, ncs := PlanNegative(ix, bucket, clauses, corpus);
    pl := Plan(pos, phrases, negs);
  }
}
