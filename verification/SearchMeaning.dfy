/** What an answer says, in terms of documents, scores and ids alone: which documents match, what they score, and that the
    best of them come first. */
module SearchMeaning {
  import opened SearchCorpus
  import opened SearchOrder
  import opened SearchPhrase
  import opened SearchTopK
  import opened SearchSpec

  /** The tokens stand side by side from position p on. */
  ghost predicate Stands(tokens: seq<Term>, toks: seq<Term>, p: nat) {
    p + |toks| <= |tokens| && forall j :: 0 <= j < |toks| ==> tokens[p + j] == toks[j]
  }

  /** There is a positive clause; the document has every positive clause and no negative one. */
  ghost predicate Wanted(d: Doc, clauses: seq<Clause>) {
    && (exists i :: 0 <= i < |clauses| && !clauses[i].neg)
    && (forall i :: 0 <= i < |clauses| ==> (clauses[i].neg <==> !exists p: nat :: Stands(d.tokens, clauses[i].tokens, p)))
  }

  // ----- scores -----

  /** In how many documents a term occurs. */
  ghost function DocumentFrequency(corpus: seq<Doc>, t: Term): nat {
    |set d | 0 <= d < |corpus| && t in corpus[d].tokens|
  }

  /** How often a term occurs in a document. */
  ghost function TermFrequency(d: Doc, t: Term): nat {
    |set p: nat | p < |d.tokens| && d.tokens[p] == t|
  }

  ghost function Added(f: Term -> real, terms: seq<Term>): real {
    if terms == [] then 0.0 else f(terms[0]) + Added(f, terms[1..])
  }

  /** idf tf (k1 + 1) / (tf + k1 (1 - b + b dl / avgdl)), with k1 = 1.2 and b = 0.75. */
  ghost function Formula(f: real, tf: real, dl: real, avgdl: real): real
    requires tf > 0.0 && dl >= 0.0 && avgdl > 0.0
  {
    LengthCounts(dl, avgdl);
    f * tf * (1.2 + 1.0) / (tf + 1.2 * (1.0 - 0.75 + 0.75 * dl / avgdl))
  }

  /** What a term adds to a document's score: nothing if it does not occur there. */
  ghost function Bm25(corpus: seq<Doc>, idf: (nat, nat) -> real, d: Doc, t: Term): real {
    if TermFrequency(d, t) == 0 || corpus == [] || TotalTokens(corpus) == 0 then 0.0
    else
      Formula(idf(|corpus|, DocumentFrequency(corpus, t)), TermFrequency(d, t) as real, |d.tokens| as real,
              TotalTokens(corpus) as real / |corpus| as real)
  }

  lemma LengthCounts(dl: real, avgdl: real)
    requires dl >= 0.0 && avgdl > 0.0
    ensures 0.75 * dl / avgdl >= 0.0
  {}

  /** The terms of the positive clauses, each once, in any order. */
  ghost predicate PositiveTerms(clauses: seq<Clause>, terms: seq<Term>) {
    && NoRepeats(terms)
    && forall t :: t in terms <==> exists i :: 0 <= i < |clauses| && !clauses[i].neg && t in clauses[i].tokens
  }

  ghost predicate Scores(corpus: seq<Doc>, clauses: seq<Clause>, idf: (nat, nat) -> real, d: Doc, s: real) {
    forall terms :: PositiveTerms(clauses, terms) ==> s == Added(t => Bm25(corpus, idf, d, t), terms)
  }

  // ----- answers -----

  ghost predicate HitFor(corpus: seq<Doc>, clauses: seq<Clause>, idf: (nat, nat) -> real, h: Hit) {
    && h.doc < |corpus| && Wanted(corpus[h.doc], clauses) && h.id == corpus[h.doc].id
    && Scores(corpus, clauses, idf, corpus[h.doc], h.score)
  }

  /** By falling score, equal scores by rising id. */
  predicate First(score: real, id: nat, score': real, id': nat) {
    score > score' || (score == score' && id < id')
  }

  /** The number of documents that match, and the best of them, the best one first: no other comes before any of them. */
  ghost predicate Meant(corpus: seq<Doc>, clauses: seq<Clause>, idf: (nat, nat) -> real, k: nat, a: Answer) {
    && a.total == |set d | 0 <= d < |corpus| && Wanted(corpus[d], clauses)|
    && |a.hits| == (if a.total < k then a.total else k)
    && (forall i :: 0 <= i < |a.hits| ==> HitFor(corpus, clauses, idf, a.hits[i]))
    && (forall i, j :: 0 <= i < j < |a.hits| ==> First(a.hits[i].score, a.hits[i].id, a.hits[j].score, a.hits[j].id))
    && (forall h, i :: HitFor(corpus, clauses, idf, h) && h !in a.hits && 0 <= i < |a.hits| ==>
         First(a.hits[i].score, a.hits[i].id, h.score, h.id))
  }

  // ----- the specification says the same -----

  lemma StandsMeans(tokens: seq<Term>, toks: seq<Term>, p: nat)
    ensures PhraseAt(tokens, toks, p) <==> Stands(tokens, toks, p)
  {
    if Stands(tokens, toks, p) {
      assert tokens[p..p + |toks|] == toks;
    }
    if PhraseAt(tokens, toks, p) {
      forall j | 0 <= j < |toks|
        ensures tokens[p + j] == toks[j]
      {
        assert tokens[p..p + |toks|][j] == toks[j];
      }
    }
  }

  lemma ClauseMeans(d: Doc, toks: seq<Term>)
    ensures ClauseIn(d, toks) <==> exists p: nat :: Stands(d.tokens, toks, p)
  {
    if p: nat :| PhraseAt(d.tokens, toks, p) {
      StandsMeans(d.tokens, toks, p);
    }
    if p: nat :| Stands(d.tokens, toks, p) {
      StandsMeans(d.tokens, toks, p);
    }
  }

  lemma WantedMeans(d: Doc, clauses: seq<Clause>)
    ensures Wanted(d, clauses) <==> HasPositive(clauses) && DocMatches(d, clauses)
  {
    hide ClauseIn, Stands;
    forall i | 0 <= i < |clauses|
      ensures ClauseIn(d, clauses[i].tokens) <==> exists p: nat :: Stands(d.tokens, clauses[i].tokens, p)
    {
      ClauseMeans(d, clauses[i].tokens);
    }
    if Wanted(d, clauses) {
      var i :| 0 <= i < |clauses| && !clauses[i].neg;
    }
  }

  /** A list without repetitions is as long as the set of its elements is large. */
  lemma {:induction false} ListedSet<T>(xs: seq<T>, s: set<T>)
    requires NoRepeats(xs) && forall x :: x in xs <==> x in s
    ensures |xs| == |s|
  {
    if xs == [] {
      assert s == {};
    } else {
      var n := |xs| - 1;
      assert xs == xs[..n] + [xs[n]];
      assert forall x :: x in xs[..n] <==> x in s - {xs[n]};
      ListedSet(xs[..n], s - {xs[n]});
    }
  }

  lemma TermFrequencyMeans(d: Doc, t: Term)
    ensures TermFrequency(d, t) == |Positions(d.tokens, t)|
  {
    var xs, s := Positions(d.tokens, t), set p: nat | p < |d.tokens| && d.tokens[p] == t;
    PositionsMeans(d.tokens, t);
    ListedSet(xs, s);
  }

  lemma {:induction false} DocumentFrequencyMeans(corpus: seq<Doc>, t: Term)
    ensures DocumentFrequency(corpus, t) == |Postings(corpus, 0, t)|
  {
    if corpus != [] {
      var n := |corpus| - 1;
      DocumentFrequencyMeans(corpus[..n], t);
      var was, all := set d | 0 <= d < n && t in corpus[..n][d].tokens, set d | 0 <= d < |corpus| && t in corpus[d].tokens;
      assert all == if t in corpus[n].tokens then was + {n} else was;
    }
  }

  lemma Bm25Means(corpus: seq<Doc>, idf: (nat, nat) -> real, d: Doc, t: Term)
    requires TotalTokens(corpus) > 0
    ensures TermScore(corpus, idf, d, t) == Bm25(corpus, idf, d, t)
  {
    hide TermFrequency, DocumentFrequency, Positions, Postings, TotalTokens, Formula, Weight, Norm;
    TermFrequencyMeans(d, t);
    DocumentFrequencyMeans(corpus, t);
    if corpus == [] {
      NoTokens(corpus);
    } else {
      SameWeight(idf(|corpus|, DocumentFrequency(corpus, t)), TermFrequency(d, t), |d.tokens|, TotalTokens(corpus), |corpus|);
    }
  }

  lemma NoTokens(corpus: seq<Doc>)
    requires corpus == []
    ensures TotalTokens(corpus) == 0
  {}

  lemma SameWeight(f: real, tf: nat, dl: nat, tokens: nat, n: nat)
    requires tokens > 0 && n > 0
    ensures tokens as real / n as real > 0.0
    ensures Weight(f, tf, Norm(dl, tokens, n)) ==
      if tf == 0 then 0.0 else Formula(f, tf as real, dl as real, tokens as real / n as real)
  {
    var avgdl := tokens as real / n as real;
    Positive(tokens as real, n as real);
    LengthCounts(dl as real, avgdl);
    if tf == 0 {
      WeightOfNone(f, Norm(dl, tokens, n));
    }
  }

  lemma WeightOfNone(f: real, norm: real)
    requires norm > 0.0
    ensures Weight(f, 0, norm) == 0.0
  {
    assert f * (0 as real) == 0.0;
  }

  // ----- how a term's weight behaves -----

  lemma Fractions(a: real, b: real, c: real, d: real)
    requires b > 0.0 && d > 0.0 && a * d <= c * b
    ensures a / b <= c / d
  {
    assert a / b == a * d / (b * d) && c / d == c * b / (b * d);
  }

  lemma Times(a: real, b: real, c: real)
    requires a >= 0.0 && b <= c
    ensures a * b <= a * c
  {}

  /** A term that occurs more often weighs no less. */
  lemma WeightGrows(f: real, tf: nat, tf': nat, norm: real)
    requires f >= 0.0 && norm > 0.0 && tf <= tf'
    ensures Weight(f, tf, norm) <= Weight(f, tf', norm)
  {
    var x, y, c := tf as real, tf' as real, f * 2.2;
    Times(c * norm, x, y);
    calc {
      (c * x) * (y + norm);
      c * x * y + c * norm * x;
    <=
      c * x * y + c * norm * y;
      (c * y) * (x + norm);
    }
    Fractions(c * x, x + norm, c * y, y + norm);
    assert f * x * 2.2 == c * x && f * y * 2.2 == c * y;
  }

  /** A term weighs no more in a longer document. */
  lemma WeightFalls(f: real, tf: nat, norm: real, norm': real)
    requires f >= 0.0 && 0.0 < norm <= norm'
    ensures Weight(f, tf, norm') <= Weight(f, tf, norm)
  {
    var x := tf as real;
    var c := f * x * 2.2;
    Times(f, 0.0, x);
    Times(c, x + norm, x + norm');
    Fractions(c, x + norm', c, x + norm);
  }

  lemma NormGrows(dl: nat, dl': nat, tokens: nat, n: nat)
    requires tokens > 0 && n > 0 && dl <= dl'
    ensures 0.0 < Norm(dl, tokens, n) <= Norm(dl', tokens, n)
  {
    var avgdl := tokens as real / n as real;
    Positive(tokens as real, n as real);
    Fractions(0.75 * dl as real, avgdl, 0.75 * dl' as real, avgdl);
    LengthCounts(dl as real, avgdl);
  }

  /** However often it occurs, a term weighs no more than 2.2 times its idf. */
  lemma WeightBounded(f: real, tf: nat, norm: real)
    requires f >= 0.0 && norm > 0.0
    ensures 0.0 <= Weight(f, tf, norm) <= 2.2 * f
  {
    var x := tf as real;
    var c := f * 2.2;
    Times(f, 0.0, x);
    Times(c, 0.0, norm);
    assert (c * x) * 1.0 <= c * (x + norm);
    Fractions(c * x, x + norm, c, 1.0);
    Fractions(0.0, 1.0, c * x, x + norm);
    assert f * x * 2.2 == c * x;
  }

  lemma Positive(a: real, b: real)
    requires a > 0.0 && b > 0.0
    ensures a / b > 0.0
  {}

  lemma {:induction false} AddedIsTotal(f: Term -> real, g: Term -> real, terms: seq<Term>)
    requires forall t :: f(t) == g(t)
    ensures Added(f, terms) == Total(g, terms)
    decreases |terms|
  {
    if terms != [] {
      AddedIsTotal(f, g, terms[1..]);
      TotalAt(g, terms, 0);
      assert terms[..0] + terms[1..] == terms[1..];
    }
  }

  /** The score of the specification is the score, and there is only one. */
  lemma ScoreMeans(corpus: seq<Doc>, clauses: seq<Clause>, idf: (nat, nat) -> real, d: Doc, s: real)
    requires TotalTokens(corpus) > 0
    ensures Scores(corpus, clauses, idf, d, s) <==> s == Score(corpus, clauses, idf, d)
  {
    hide Score, TotalTokens, Bm25, TermScore;
    forall terms | PositiveTerms(clauses, terms)
      ensures Added(t => Bm25(corpus, idf, d, t), terms) == Score(corpus, clauses, idf, d)
    {
      TermsScore(corpus, clauses, idf, d, terms);
    }
    SomeTerms(clauses);
  }

  lemma TermsScore(corpus: seq<Doc>, clauses: seq<Clause>, idf: (nat, nat) -> real, d: Doc, terms: seq<Term>)
    requires TotalTokens(corpus) > 0 && PositiveTerms(clauses, terms)
    ensures Added(t => Bm25(corpus, idf, d, t), terms) == Score(corpus, clauses, idf, d)
  {
    hide Score, TotalTokens, Bm25, TermScore;
    forall t
      ensures t in terms <==> t in PositiveTokens(clauses)
    {
      PositiveTokensMeans(clauses, t);
    }
    forall t
      ensures Bm25(corpus, idf, d, t) == TermScore(corpus, idf, d, t)
    {
      Bm25Means(corpus, idf, d, t);
    }
    AddedIsTotal(t => Bm25(corpus, idf, d, t), t => TermScore(corpus, idf, d, t), terms);
    ScoreInAnyOrder(corpus, clauses, idf, d, terms);
  }

  lemma SomeTerms(clauses: seq<Clause>)
    ensures PositiveTerms(clauses, Distinct(PositiveTokens(clauses)))
  {
    DistinctMeans(PositiveTokens(clauses));
    forall t
      ensures t in Distinct(PositiveTokens(clauses)) <==> exists i :: 0 <= i < |clauses| && !clauses[i].neg && t in clauses[i].tokens
    {
      PositiveTokensMeans(clauses, t);
    }
  }

  // ----- the ranking -----

  lemma {:induction false} RangeCount(corpus: seq<Doc>, clauses: seq<Clause>, idf: (nat, nat) -> real, hi: nat)
    requires hi <= |corpus|
    ensures |RangeHits(corpus, clauses, idf, 0, hi)| == |set d | 0 <= d < hi && DocMatches(corpus[d], clauses)|
    decreases hi
  {
    hide DocMatches, HitOf;
    if hi > 0 {
      RangeCount(corpus, clauses, idf, hi - 1);
      var was, all := set d | 0 <= d < hi - 1 && DocMatches(corpus[d], clauses), set d | 0 <= d < hi && DocMatches(corpus[d], clauses);
      assert all == if DocMatches(corpus[hi - 1], clauses) then was + {hi - 1} else was;
    }
  }

  lemma {:induction false} RangeHas(corpus: seq<Doc>, clauses: seq<Clause>, idf: (nat, nat) -> real, hi: nat, d: nat)
    requires d < hi && MatchesAt(corpus, clauses, d)
    ensures HitOf(corpus, clauses, idf, d) in RangeHits(corpus, clauses, idf, 0, hi)
    decreases hi
  {
    hide DocMatches, HitOf;
    if d < hi - 1 {
      RangeHas(corpus, clauses, idf, hi - 1, d);
    }
  }

  /** Documents come in the order of their numbers, so none is there twice. */
  lemma {:induction false} RangeRises(corpus: seq<Doc>, clauses: seq<Clause>, idf: (nat, nat) -> real, hi: nat)
    ensures forall i :: 0 <= i < |RangeHits(corpus, clauses, idf, 0, hi)| ==> RangeHits(corpus, clauses, idf, 0, hi)[i].doc < hi
    ensures NoRepeats(RangeHits(corpus, clauses, idf, 0, hi))
    decreases hi
  {
    hide DocMatches, Score;
    if hi > 0 {
      RangeRises(corpus, clauses, idf, hi - 1);
    }
  }

  /** One of two hits of different ids comes first, and it is the one with the higher score or the lower id. */
  lemma AheadMeans(a: Hit, b: Hit)
    requires a.id != b.id && !Ahead(b, a)
    ensures First(a.score, a.id, b.score, b.id)
  {}

  lemma SortedMeans(all: seq<Hit>, s: seq<Hit>, i: nat, j: nat)
    requires IdsTellApart(all) && NoRepeats(all) && s == Sort(Ahead, all) && i < j < |s|
    ensures First(s[i].score, s[i].id, s[j].score, s[j].id)
  {
    AheadIsTotal();
    SortPermutes(Ahead, all);
    SortInOrder(Ahead, all);
    hide Sort, Ahead;
    assert !Ahead(s[j], s[i]);
    if s[i] == s[j] {
      TwiceInMultiset(s, i, j);
    }
    InMultiset(s, s[i]);
    InMultiset(s, s[j]);
    InMultiset(all, s[i]);
    InMultiset(all, s[j]);
    NoRepeatsInMultiset(all, s[i]);
    var x :| 0 <= x < |all| && all[x] == s[i];
    var y :| 0 <= y < |all| && all[y] == s[j];
    assert all[x].id == all[y].id ==> all[x] == all[y];
    AheadMeans(s[i], s[j]);
  }

  lemma SortedHas(all: seq<Hit>, s: seq<Hit>, h: Hit) returns (j: nat)
    requires s == Sort(Ahead, all) && h in all
    ensures j < |s| && s[j] == h
  {
    SortKeepsElement(Ahead, all, h);
    j :| 0 <= j < |s| && s[j] == h;
  }

  lemma HitMeans(corpus: seq<Doc>, clauses: seq<Clause>, idf: (nat, nat) -> real, h: Hit)
    requires TotalTokens(corpus) > 0 && HasPositive(clauses)
    ensures HitFor(corpus, clauses, idf, h) <==> MatchesAt(corpus, clauses, h.doc) && h == HitOf(corpus, clauses, idf, h.doc)
  {
    hide Wanted, DocMatches, Scores, Score, TotalTokens;
    if h.doc < |corpus| {
      WantedMeans(corpus[h.doc], clauses);
      ScoreMeans(corpus, clauses, idf, corpus[h.doc], h.score);
    }
  }

  lemma {:induction false} TokensThere(corpus: seq<Doc>, d: nat)
    requires d < |corpus| && corpus[d].tokens != []
    ensures TotalTokens(corpus) > 0
  {
    if d < |corpus| - 1 {
      TokensThere(corpus[..|corpus| - 1], d);
    }
  }

  lemma WantedHasTokens(corpus: seq<Doc>, clauses: seq<Clause>, d: nat)
    requires d < |corpus| && Wanted(corpus[d], clauses) && forall i :: 0 <= i < |clauses| ==> clauses[i].tokens != []
    ensures TotalTokens(corpus) > 0
  {
    var i :| 0 <= i < |clauses| && !clauses[i].neg;
    assert exists p: nat :: Stands(corpus[d].tokens, clauses[i].tokens, p);
    TokensThere(corpus, d);
  }

  lemma NoneMeant(corpus: seq<Doc>, clauses: seq<Clause>, idf: (nat, nat) -> real, k: nat, a: Answer)
    requires Answers(corpus, clauses, idf, k, a)
    requires forall d :: 0 <= d < |corpus| ==> !Wanted(corpus[d], clauses)
    ensures Meant(corpus, clauses, idf, k, a)
  {
    hide Wanted, DocMatches, Scores, Score, Sort;
    forall d | 0 <= d < |corpus|
      ensures !(HasPositive(clauses) && DocMatches(corpus[d], clauses))
    {
      WantedMeans(corpus[d], clauses);
    }
    assert (set d | 0 <= d < |corpus| && Wanted(corpus[d], clauses)) == {};
    if HasPositive(clauses) {
      RangeCount(corpus, clauses, idf, |corpus|);
      assert (set d | 0 <= d < |corpus| && DocMatches(corpus[d], clauses)) == {};
    }
  }

  /** The answer of the specification is what was meant. */
  lemma AnswersMean(corpus: seq<Doc>, clauses: seq<Clause>, idf: (nat, nat) -> real, k: nat, a: Answer)
    requires Answers(corpus, clauses, idf, k, a) && DistinctIds(corpus) && forall i :: 0 <= i < |clauses| ==> clauses[i].tokens != []
    ensures Meant(corpus, clauses, idf, k, a)
  {
    hide Answers, Meant, Wanted;
    if d :| 0 <= d < |corpus| && Wanted(corpus[d], clauses) {
      WantedHasTokens(corpus, clauses, d);
      WantedMeans(corpus[d], clauses);
      SomeMeant(corpus, clauses, idf, k, a);
    } else {
      NoneMeant(corpus, clauses, idf, k, a);
    }
  }

  lemma SomeMeant(corpus: seq<Doc>, clauses: seq<Clause>, idf: (nat, nat) -> real, k: nat, a: Answer)
    requires Answers(corpus, clauses, idf, k, a) && DistinctIds(corpus) && HasPositive(clauses) && TotalTokens(corpus) > 0
    ensures Meant(corpus, clauses, idf, k, a)
  {
    hide Wanted, DocMatches, HitFor, HitOf, RangeHits, Sort, First, TotalTokens, DistinctIds, HasPositive;
    var all := RangeHits(corpus, clauses, idf, 0, |corpus|);
    var s := Sort(Ahead, all);
    HitsTellApart(corpus, clauses, idf, 0, |corpus|);
    RangeRises(corpus, clauses, idf, |corpus|);
    TotalMeant(corpus, clauses, idf);
    forall i, j | 0 <= i < j < |s|
      ensures First(s[i].score, s[i].id, s[j].score, s[j].id)
    {
      SortedMeans(all, s, i, j);
    }
    forall i | 0 <= i < |a.hits|
      ensures HitFor(corpus, clauses, idf, a.hits[i])
    {
      SortKeepsElement(Ahead, all, s[i]);
      var x :| 0 <= x < |all| && all[x] == s[i];
      HitsHave(corpus, clauses, idf, 0, |corpus|, x);
      HitMeans(corpus, clauses, idf, s[i]);
    }
    forall h, i | HitFor(corpus, clauses, idf, h) && h !in a.hits && 0 <= i < |a.hits|
      ensures First(a.hits[i].score, a.hits[i].id, h.score, h.id)
    {
      HitMeans(corpus, clauses, idf, h);
      RangeHas(corpus, clauses, idf, |corpus|, h.doc);
      var j := SortedHas(all, s, h);
      assert a.hits == s[..|a.hits|];
      assert j >= |a.hits|;
    }
  }

  lemma TotalMeant(corpus: seq<Doc>, clauses: seq<Clause>, idf: (nat, nat) -> real)
    requires HasPositive(clauses)
    ensures |RangeHits(corpus, clauses, idf, 0, |corpus|)| == |set d | 0 <= d < |corpus| && Wanted(corpus[d], clauses)|
  {
    hide Wanted, DocMatches, RangeHits;
    RangeCount(corpus, clauses, idf, |corpus|);
    forall d | 0 <= d < |corpus|
      ensures Wanted(corpus[d], clauses) <==> DocMatches(corpus[d], clauses)
    {
      WantedMeans(corpus[d], clauses);
    }
    assert (set d | 0 <= d < |corpus| && Wanted(corpus[d], clauses)) == set d | 0 <= d < |corpus| && DocMatches(corpus[d], clauses);
  }
}
