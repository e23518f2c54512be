/** Phrase matching over streamed position lists. */
module SearchPhrase {
  import opened SearchVarint
  import opened SearchCorpus
  import opened SearchCursor

  /** A position list being decoded: `left` gaps are still to come, `cur` is the latest position. */
  datatype Stream = Stream(data: seq<Byte>, p: nat, left: nat, cur: nat)

  /** The terms occur at p, p + 1, ... */
  ghost predicate StartsAt(xss: seq<seq<nat>>, p: int) {
    forall j :: 0 <= j < |xss| ==> OccursAt(xss[j], p + j)
  }

  predicate OccursAt(xs: seq<nat>, p: int) {
    exists k :: 0 <= k < |xs| && xs[k] == p
  }

  /** `s` stands at xs[k]. */
  ghost predicate StandsAt(s: Stream, xs: seq<nat>, k: nat) {
    && k < |xs| && s.cur == xs[k] && s.left == |xs| - k - 1
    && PutsFrom(s.data, s.p, Deltas(0, xs), k + 1)
  }

  /** All but the last `xs[k..]` lie before `want`. */
  ghost predicate Passed(xs: seq<nat>, k: nat, want: int) {
    forall i :: 0 <= i < k && i < |xs| ==> xs[i] < want
  }

  method Next(s: Stream, ghost xs: seq<nat>, ghost k: nat) returns (r: Stream)
    requires StandsAt(s, xs, k) && k + 1 < |xs| && Increasing(xs)
    ensures StandsAt(r, xs, k + 1)
  {
    NextPut(s.data, s.p, Deltas(0, xs), k + 1);
    DeltasAt(0, xs, k + 1);
    var v, p := Uvarint(s.data, s.p);
    r := s.(p := p, cur := s.cur + v, left := s.left - 1);
  }

  /** Moves a stream to its first position not before `want`, if there is one. */
  method Catch(s0: Stream, want: int, ghost xs: seq<nat>, ghost k0: nat) returns (ok: bool, s: Stream, ghost k: nat)
    requires StandsAt(s0, xs, k0) && Increasing(xs) && Passed(xs, k0, want)
    ensures ok ==> StandsAt(s, xs, k) && Passed(xs, k, want) && want <= s.cur
    ensures !ok ==> Passed(xs, |xs|, want)
  {
    s, k := s0, k0;
    while s.cur < want
      invariant StandsAt(s, xs, k) && Passed(xs, k, want)
      decreases s.left
    {
      if s.left == 0 {
        return false, s, k;
      }
      s := Next(s, xs, k);
      k := k + 1;
    }
    ok := true;
  }

  // ----- bounds on positions -----

  function Bound(xss: seq<seq<nat>>): nat {
    if xss == [] then 0
    else
      var n := |xss| - 1;
      var b, l := Bound(xss[..n]), Last(0, xss[n]);
      if b < l then l else b
  }

  lemma {:induction false} Bounded(xss: seq<seq<nat>>, j: nat, k: nat)
    requires j < |xss| && k < |xss[j]| && Increasing(xss[j])
    ensures xss[j][k] <= Bound(xss)
  {
    if j < |xss| - 1 {
      Bounded(xss[..|xss| - 1], j, k);
    } else {
      assert k < |xss[j]| - 1 ==> xss[j][k] < xss[j][|xss[j]| - 1];
    }
  }

  // ----- matching -----

  ghost predicate Lists(xss: seq<seq<nat>>) {
    forall j :: 0 <= j < |xss| ==> xss[j] != [] && Increasing(xss[j])
  }

  /** The streams stand where positions before `target` (shifted by the term's place) are behind them. */
  ghost predicate Streaming(st: seq<Stream>, xss: seq<seq<nat>>, ks: seq<nat>, target: int) {
    && |st| == |xss| == |ks|
    && (forall j :: 0 <= j < |xss| ==> StandsAt(st[j], xss[j], ks[j]))
    && (forall j :: 0 <= j < |xss| ==> Passed(xss[j], ks[j], target + j))
  }

  ghost predicate NoneBefore(xss: seq<seq<nat>>, target: int) {
    forall p :: StartsAt(xss, p) ==> target <= p
  }

  /** No match starts before the place that list j still allows. */
  lemma NoneBeforeNext(xss: seq<seq<nat>>, target: int, j: nat, k: nat)
    requires NoneBefore(xss, target) && j < |xss| && Passed(xss[j], k, target + j) && Increasing(xss[j])
    ensures k < |xss[j]| ==> NoneBefore(xss, xss[j][k] - j)
    ensures k >= |xss[j]| ==> forall p :: !StartsAt(xss, p)
  {
    forall p | StartsAt(xss, p)
      ensures k < |xss[j]| && xss[j][k] - j <= p
    {
      assert OccursAt(xss[j], p + j);
      var i :| 0 <= i < |xss[j]| && xss[j][i] == p + j;
    }
  }

  lemma StreamingSet(st: seq<Stream>, xss: seq<seq<nat>>, ks: seq<nat>, target: int, j: nat, s: Stream, k: nat)
    requires Streaming(st, xss, ks, target) && j < |xss| && StandsAt(s, xss[j], k) && Passed(xss[j], k, target + j)
    ensures Streaming(st[j := s], xss, ks[j := k], target) && k < |xss[j]| && s.cur == xss[j][k]
  {}

  lemma StreamingLater(st: seq<Stream>, xss: seq<seq<nat>>, ks: seq<nat>, target: int, later: int)
    requires Streaming(st, xss, ks, target) && target <= later
    ensures Streaming(st, xss, ks, later)
  {
    forall j | 0 <= j < |xss|
      ensures Passed(xss[j], ks[j], later + j)
    {
      assert Passed(xss[j], ks[j], target + j);
    }
  }

  /** One round: every stream catches up with `target`, or the first one that overshoots gives a new target. */
  method Round(st: array<Stream>, ghost xss: seq<seq<nat>>, ghost ks0: seq<nat>, target: nat)
    returns (dead: bool, next: nat, ghost ks: seq<nat>)
    requires st.Length == |xss| && Lists(xss) && Streaming(st[..], xss, ks0, target) && NoneBefore(xss, target)
    modifies st
    ensures dead ==> forall p :: !StartsAt(xss, p)
    ensures !dead ==> target <= next <= Bound(xss) || next == target
    ensures !dead ==> Streaming(st[..], xss, ks, next) && NoneBefore(xss, next)
    ensures !dead && next == target ==> StartsAt(xss, target)
  {
    hide NoneBefore, Bound, Increasing, StandsAt, Passed;
    ks := ks0;
    for j := 0 to st.Length
      invariant Streaming(st[..], xss, ks, target)
      invariant forall i :: 0 <= i < j ==> st[i].cur == target + i
    {
      ghost var was := st[..];
      var ok, s;
      ghost var k;
      ok, s, k := Catch(st[j], target + j, xss[j], ks[j]);
      if !ok {
        NoneBeforeNext(xss, target, j, |xss[j]|);
        return true, target, ks;
      }
      StreamingSet(was, xss, ks, target, j, s, k);
      st[j] := s;
      assert st[..] == was[j := s];
      ks := ks[j := k];
      if s.cur > target + j {
        NoneBeforeNext(xss, target, j, k);
        Bounded(xss, j, k);
        StreamingLater(st[..], xss, ks, target, s.cur - j);
        return false, s.cur - j, ks;
      }
    }
    MatchFound(st[..], xss, ks, target);
    dead, next := false, target;
  }

  lemma MatchFound(st: seq<Stream>, xss: seq<seq<nat>>, ks: seq<nat>, target: int)
    requires Streaming(st, xss, ks, target)
    requires forall j :: 0 <= j < |xss| ==> st[j].cur == target + j
    ensures StartsAt(xss, target)
  {
    forall j | 0 <= j < |xss|
      ensures OccursAt(xss[j], target + j)
    {
      assert StandsAt(st[j], xss[j], ks[j]);
    }
  }

  /** The cursors stand on postings with these position lists. */
  ghost predicate OnPostings(curs: seq<Cursor>, xss: seq<seq<nat>>)
    reads curs
  {
    && |xss| == |curs|
    && forall j :: 0 <= j < |curs| ==>
         curs[j].Valid() && curs[j].Index() < |curs[j].ps| && curs[j].ps[curs[j].Index()].positions == xss[j]
  }

  /** Starts the stream of a cursor's current document at its first position. */
  method Open(c: Cursor) returns (s: Stream)
    requires c.Valid() && c.Index() < |c.ps|
    modifies c`pp, c`pj
    ensures c.Valid() && c.Index() == old(c.Index())
    ensures StandsAt(s, c.ps[c.Index()].positions, 0)
  {
    ghost var xs := c.ps[c.Index()].positions;
    var p := c.PosStart();
    s := Stream(c.pos, p, c.Tf(), 0);
    assert Deltas(0, xs)[0..] == Deltas(0, xs);
    NextPut(s.data, s.p, Deltas(0, xs), 0);
    DeltasAt(0, xs, 0);
    var v, q := Uvarint(s.data, s.p);
    s := s.(p := q, cur := v, left := s.left - 1);
  }

  /** Opens one stream per cursor. */
  method OpenAll(curs: seq<Cursor>, st: array<Stream>, ghost xss: seq<seq<nat>>)
    requires OnPostings(curs, xss) && st.Length == |curs|
    modifies st, set c | c in curs :: c`pp, set c | c in curs :: c`pj
    ensures OnPostings(curs, xss)
    ensures forall c :: c in curs ==> c.Index() == old(c.Index())
    ensures forall j :: 0 <= j < |curs| ==> StandsAt(st[j], xss[j], 0)
  {
    hide Cursor.Valid, Cursor.Index, StandsAt;
    for j := 0 to |curs|
      invariant OnPostings(curs, xss)
      invariant forall c :: c in curs ==> c.Index() == old(c.Index())
      invariant forall i :: 0 <= i < j ==> StandsAt(st[i], xss[i], 0)
    {
      var c := curs[j];
      assert c in curs;
      var s := Open(c);
      st[j] := s;
    }
  }

  /** Whether the current document of the cursors has their terms at consecutive positions. A cursor may
      be listed more than once. */
  method PhraseMatch(curs: seq<Cursor>, st: array<Stream>, ghost xss: seq<seq<nat>>) returns (found: bool)
    requires OnPostings(curs, xss) && curs != [] && st.Length == |curs|
    modifies st, set c | c in curs :: c`pp, set c | c in curs :: c`pj
    ensures OnPostings(curs, xss)
    ensures forall c :: c in curs ==> c.Index() == old(c.Index())
    ensures found <==> exists p :: StartsAt(xss, p)
  {
    hide Cursor.Valid, Cursor.Index, Bound, Passed, StartsAt, Increasing;
    ListsOfPostings(curs, xss);
    OpenAll(curs, st, xss);
    var target := st[0].cur;
    ghost var ks := seq(|xss|, j => 0);
    StreamingFirst(st[..], xss, ks);
    Bounded(xss, 0, 0);
    while true
      invariant Streaming(st[..], xss, ks, target) && NoneBefore(xss, target)
      invariant target <= Bound(xss)
      modifies st
      decreases Bound(xss) - target
    {
      var dead, next;
      dead, next, ks := Round(st, xss, ks, target);
      if dead {
        return false;
      }
      if next == target {
        return true;
      }
      target := next;
    }
  }

  lemma ListsOfPostings(curs: seq<Cursor>, xss: seq<seq<nat>>)
    requires OnPostings(curs, xss)
    ensures Lists(xss)
  {}

  lemma StreamingFirst(st: seq<Stream>, xss: seq<seq<nat>>, ks: seq<nat>)
    requires |st| == |xss| == |ks| && xss != [] && Lists(xss)
    requires forall j :: 0 <= j < |xss| ==> ks[j] == 0 && StandsAt(st[j], xss[j], 0)
    ensures Streaming(st, xss, ks, st[0].cur) && NoneBefore(xss, st[0].cur) && st[0].cur == xss[0][0]
  {
    NoneBeforeFirst(xss);
  }

  lemma NoneBeforeFirst(xss: seq<seq<nat>>)
    requires xss != [] && Lists(xss)
    ensures NoneBefore(xss, xss[0][0])
  {
    forall p | StartsAt(xss, p)
      ensures xss[0][0] <= p
    {
      assert OccursAt(xss[0], p + 0);
    }
  }

  // ----- what a match means -----

  /** `toks` stands in `tokens` from p on. */
  predicate PhraseAt(tokens: seq<Term>, toks: seq<Term>, p: nat) {
    p + |toks| <= |tokens| && tokens[p..p + |toks|] == toks
  }

  predicate TokenAt(tokens: seq<Term>, t: Term, p: int) {
    0 <= p < |tokens| && tokens[p] == t
  }

  lemma PhraseAtMeans(tokens: seq<Term>, toks: seq<Term>, xss: seq<seq<nat>>)
    requires toks != [] && |xss| == |toks|
    requires forall j :: 0 <= j < |toks| ==> xss[j] == Positions(tokens, toks[j])
    ensures (exists p :: StartsAt(xss, p)) <==> exists p: nat :: PhraseAt(tokens, toks, p)
  {
    if p :| StartsAt(xss, p) {
      forall j | 0 <= j < |toks|
        ensures TokenAt(tokens, toks[j], p + j)
      {
        assert OccursAt(xss[j], p + j);
        var k :| 0 <= k < |xss[j]| && xss[j][k] == p + j;
        PositionsSound(tokens, toks[j]);
      }
      var n := |toks| - 1;
      assert TokenAt(tokens, toks[0], p + 0) && TokenAt(tokens, toks[n], p + n);
      assert forall j :: 0 <= j < |toks| ==> tokens[p..p + |toks|][j] == toks[j] by {
        assert forall j :: 0 <= j < |toks| ==> TokenAt(tokens, toks[j], p + j);
      }
      assert PhraseAt(tokens, toks, p);
    }
    if p: nat :| PhraseAt(tokens, toks, p) {
      forall j | 0 <= j < |toks|
        ensures OccursAt(xss[j], p + j)
      {
        assert tokens[p + j] == tokens[p..p + |toks|][j];
        PositionsMeans(tokens, toks[j]);
        assert p + j in xss[j];
      }
      assert StartsAt(xss, p);
    }
  }
}
