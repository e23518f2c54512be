/** What a query means: the documents it matches, their scores, and the ranked answer. */
module SearchSpec {
  import opened SearchCorpus
  import opened SearchOrder
  import opened SearchPhrase
  import opened SearchTopK

  datatype Clause = Clause(neg: bool, tokens: seq<Term>)

  datatype Answer = Answer(total: nat, hits: seq<Hit>)

  /** The tokens of the clause stand side by side somewhere in the document. */
  ghost predicate ClauseIn(d: Doc, toks: seq<Term>) {
    exists p: nat :: PhraseAt(d.tokens, toks, p)
  }

  ghost predicate PosMatch(d: Doc, clauses: seq<Clause>) {
    forall i :: 0 <= i < |clauses| && !clauses[i].neg ==> ClauseIn(d, clauses[i].tokens)
  }

  ghost predicate NegMatch(d: Doc, clauses: seq<Clause>) {
    forall i :: 0 <= i < |clauses| && clauses[i].neg ==> !ClauseIn(d, clauses[i].tokens)
  }

  predicate HasPositive(clauses: seq<Clause>) {
    exists i :: 0 <= i < |clauses| && !clauses[i].neg
  }

  ghost predicate DocMatches(d: Doc, clauses: seq<Clause>) {
    PosMatch(d, clauses) && NegMatch(d, clauses)
  }

  // ----- scores -----

  function TotalTokens(corpus: seq<Doc>): nat {
    if corpus == [] then 0 else TotalTokens(corpus[..|corpus| - 1]) + |corpus[|corpus| - 1].tokens|
  }

  /** The length normalisation, 1.2 (1 - 0.75 + 0.75 dl / avgdl). */
  function Norm(dl: nat, tokens: nat, n: nat): real {
    if tokens == 0 || n == 0 then 0.0 else 1.2 * (1.0 - 0.75 + 0.75 * dl as real / (tokens as real / n as real))
  }

  /** What a term that occurs tf times adds to a score. */
  function Weight(idf: real, tf: nat, norm: real): real {
    if tf as real + norm == 0.0 then 0.0 else idf * tf as real * 2.2 / (tf as real + norm)
  }

  function TermScore(corpus: seq<Doc>, idf: (nat, nat) -> real, d: Doc, t: Term): real {
    Weight(idf(|corpus|, |Postings(corpus, 0, t)|), |Positions(d.tokens, t)|,
           Norm(|d.tokens|, TotalTokens(corpus), |corpus|))
  }

  function Total<T>(f: T -> real, s: seq<T>): real {
    if s == [] then 0.0 else Total(f, s[..|s| - 1]) + f(s[|s| - 1])
  }

  function PositiveTokens(clauses: seq<Clause>): seq<Term> {
    if clauses == [] then []
    else
      var n := |clauses| - 1;
      PositiveTokens(clauses[..n]) + (if clauses[n].neg then [] else clauses[n].tokens)
  }

  /** The elements of a list without repetitions. */
  function Distinct<T(==)>(s: seq<T>): seq<T> {
    if s == [] then []
    else
      var r := Distinct(s[..|s| - 1]);
      if s[|s| - 1] in r then r else r + [s[|s| - 1]]
  }

  function Score(corpus: seq<Doc>, clauses: seq<Clause>, idf: (nat, nat) -> real, d: Doc): real {
    Total(t => TermScore(corpus, idf, d, t), Sort(Less, Distinct(PositiveTokens(clauses))))
  }

  // ----- the answer -----

  function HitOf(corpus: seq<Doc>, clauses: seq<Clause>, idf: (nat, nat) -> real, d: nat): Hit
    requires d < |corpus|
  {
    Hit(Score(corpus, clauses, idf, corpus[d]), corpus[d].id, d)
  }

  ghost predicate MatchesAt(corpus: seq<Doc>, clauses: seq<Clause>, d: nat) {
    d < |corpus| && DocMatches(corpus[d], clauses)
  }

  /** The hits among the documents numbered from `lo` to `hi`. */
  ghost function RangeHits(corpus: seq<Doc>, clauses: seq<Clause>, idf: (nat, nat) -> real, lo: nat, hi: nat): seq<Hit>
    decreases hi
  {
    if hi <= lo then []
    else
      RangeHits(corpus, clauses, idf, lo, hi - 1) +
      (if MatchesAt(corpus, clauses, hi - 1) then [HitOf(corpus, clauses, idf, hi - 1)] else [])
  }

  /** All hits, ranked, the first k of them; nothing for a query without a positive clause. */
  ghost predicate Answers(corpus: seq<Doc>, clauses: seq<Clause>, idf: (nat, nat) -> real, k: nat, a: Answer) {
    var all := if HasPositive(clauses) then RangeHits(corpus, clauses, idf, 0, |corpus|) else [];
    && a.total == |all|
    && a.hits <= Sort(Ahead, all) && |a.hits| == if |all| < k then |all| else k
  }

  // ----- sums do not depend on the order -----

  lemma {:induction false} TotalAt<T>(f: T -> real, s: seq<T>, i: nat)
    requires i < |s|
    ensures Total(f, s) == Total(f, s[..i] + s[i + 1..]) + f(s[i])
  {
    var n := |s| - 1;
    if i == n {
      assert s[..i] + s[i + 1..] == s[..n];
    } else {
      TotalAt(f, s[..n], i);
      var r := s[..i] + s[i + 1..];
      assert r[..|r| - 1] == s[..n][..i] + s[..n][i + 1..];
    }
  }

  lemma MultisetWithout<T>(t: seq<T>, i: nat)
    requires i < |t|
    ensures multiset(t[..i] + t[i + 1..]) == multiset(t) - multiset{t[i]}
  {
    assert t == t[..i] + [t[i]] + t[i + 1..];
  }

  lemma {:induction false} TotalPermuted<T>(f: T -> real, s: seq<T>, t: seq<T>)
    requires multiset(s) == multiset(t)
    ensures Total(f, s) == Total(f, t)
  {
    assert |multiset(s)| == |s| && |multiset(t)| == |t|;
    if s != [] {
      var n := |s| - 1;
      assert s == s[..n] + [s[n]];
      InMultiset(t, s[n]);
      var i :| 0 <= i < |t| && t[i] == s[n];
      MultisetWithout(t, i);
      assert multiset(s[..n]) == multiset(s) - multiset{s[n]};
      TotalAt(f, t, i);
      TotalPermuted(f, s[..n], t[..i] + t[i + 1..]);
    }
  }

  lemma {:induction false} DistinctMeans<T>(s: seq<T>)
    ensures NoRepeats(Distinct(s)) && forall x :: x in Distinct(s) <==> x in s
  {
    if s != [] {
      DistinctMeans(s[..|s| - 1]);
      assert s == s[..|s| - 1] + [s[|s| - 1]];
    }
  }

  lemma SameElements<T>(s: seq<T>, t: seq<T>)
    requires NoRepeats(s) && NoRepeats(t) && forall x :: x in s <==> x in t
    ensures multiset(s) == multiset(t)
  {
    forall x
      ensures multiset(s)[x] == multiset(t)[x]
    {
      NoRepeatsInMultiset(s, x);
      NoRepeatsInMultiset(t, x);
      InMultiset(s, x);
      InMultiset(t, x);
      assert x in s <==> x in t;
    }
  }

  /** Summing over the positive terms in any order gives the score. */
  lemma ScoreInAnyOrder(corpus: seq<Doc>, clauses: seq<Clause>, idf: (nat, nat) -> real, d: Doc, terms: seq<Term>)
    requires NoRepeats(terms) && forall t :: t in terms <==> t in PositiveTokens(clauses)
    ensures Total(t => TermScore(corpus, idf, d, t), terms) == Score(corpus, clauses, idf, d)
  {
    var ds := Distinct(PositiveTokens(clauses));
    DistinctMeans(PositiveTokens(clauses));
    SameElements(terms, ds);
    SortPermutes(Less, ds);
    TotalPermuted(t => TermScore(corpus, idf, d, t), terms, Sort(Less, ds));
  }

  // ----- ranges -----

  lemma {:induction false} HitsSkip(corpus: seq<Doc>, clauses: seq<Clause>, idf: (nat, nat) -> real, lo: nat, a: nat, b: nat)
    requires lo <= a <= b && forall x :: a <= x < b ==> !MatchesAt(corpus, clauses, x)
    ensures RangeHits(corpus, clauses, idf, lo, b) == RangeHits(corpus, clauses, idf, lo, a)
    decreases b
  {
    if a < b {
      HitsSkip(corpus, clauses, idf, lo, a, b - 1);
    }
  }

  lemma {:induction false} HitsConcat(corpus: seq<Doc>, clauses: seq<Clause>, idf: (nat, nat) -> real, lo: nat, a: nat, b: nat)
    requires lo <= a <= b
    ensures RangeHits(corpus, clauses, idf, lo, b) ==
      RangeHits(corpus, clauses, idf, lo, a) + RangeHits(corpus, clauses, idf, a, b)
    decreases b
  {
    if a < b {
      HitsConcat(corpus, clauses, idf, lo, a, b - 1);
    }
  }

  lemma {:induction false} HitsHave(corpus: seq<Doc>, clauses: seq<Clause>, idf: (nat, nat) -> real, lo: nat, hi: nat, i: nat)
    requires i < |RangeHits(corpus, clauses, idf, lo, hi)|
    ensures var h := RangeHits(corpus, clauses, idf, lo, hi)[i];
      MatchesAt(corpus, clauses, h.doc) && h == HitOf(corpus, clauses, idf, h.doc)
    decreases hi
  {
    var before := RangeHits(corpus, clauses, idf, lo, hi - 1);
    if i < |before| {
      HitsHave(corpus, clauses, idf, lo, hi - 1, i);
    }
  }

  ghost predicate DistinctIds(corpus: seq<Doc>) {
    forall i, j :: 0 <= i < j < |corpus| ==> corpus[i].id != corpus[j].id
  }

  lemma HitsTellApart(corpus: seq<Doc>, clauses: seq<Clause>, idf: (nat, nat) -> real, lo: nat, hi: nat)
    requires DistinctIds(corpus)
    ensures IdsTellApart(RangeHits(corpus, clauses, idf, lo, hi))
  {
    var all := RangeHits(corpus, clauses, idf, lo, hi);
    forall i, j | 0 <= i < |all| && 0 <= j < |all| && all[i].id == all[j].id
      ensures all[i] == all[j]
    {
      HitsHave(corpus, clauses, idf, lo, hi, i);
      HitsHave(corpus, clauses, idf, lo, hi, j);
    }
  }

  // ----- clauses and terms -----

  lemma SingleClause(d: Doc, t: Term)
    ensures ClauseIn(d, [t]) <==> t in d.tokens
  {
    if t in d.tokens {
      var p :| 0 <= p < |d.tokens| && d.tokens[p] == t;
      assert PhraseAt(d.tokens, [t], p);
    }
    if p: nat :| PhraseAt(d.tokens, [t], p) {
      assert d.tokens[p] == d.tokens[p..p + 1][0];
    }
  }

  lemma ClauseHasTokens(d: Doc, toks: seq<Term>, j: nat)
    requires ClauseIn(d, toks) && j < |toks|
    ensures toks[j] in d.tokens
  {
    var p: nat :| PhraseAt(d.tokens, toks, p);
    assert d.tokens[p..p + |toks|][j] == d.tokens[p + j];
  }

  lemma {:induction false} PositiveTokensMeans(clauses: seq<Clause>, t: Term)
    ensures t in PositiveTokens(clauses) <==>
      exists i :: 0 <= i < |clauses| && !clauses[i].neg && t in clauses[i].tokens
  {
    if clauses != [] {
      var n := |clauses| - 1;
      PositiveTokensMeans(clauses[..n], t);
      assert forall i :: 0 <= i < n ==> clauses[..n][i] == clauses[i];
    }
  }
}
