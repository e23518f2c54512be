/** The bounded heap of best hits, and what merging such heaps gives. */
module SearchTopK {
  import opened SearchOrder

  datatype Hit = Hit(score: real, id: nat, doc: nat)

  /** Whether `a` ranks below `b`: by score, equal scores by greater id. */
  predicate Worse(a: Hit, b: Hit) {
    if a.score != b.score then a.score < b.score else a.id > b.id
  }

  function Parent(i: nat): nat
    requires i > 0
  {
    (i - 1) / 2
  }

  // ----- heap order -----

  /** No element ranks below its parent: the worst hit is at the root. */
  ghost predicate Heap(h: seq<Hit>) {
    forall j :: 0 < j < |h| ==> !Worse(h[j], h[Parent(j)])
  }

  lemma {:induction false} RootIsWorst(h: seq<Hit>, j: nat)
    requires Heap(h) && j < |h|
    ensures !Worse(h[j], h[0])
  {
    if j > 0 {
      RootIsWorst(h, Parent(j));
    }
  }

  function Swap(h: seq<Hit>, i: nat, j: nat): (r: seq<Hit>)
    requires i < |h| && j < |h|
    ensures |r| == |h|
  {
    h[i := h[j]][j := h[i]]
  }

  lemma SwapPermutes(h: seq<Hit>, i: nat, j: nat)
    requires i < |h| && j < |h|
    ensures multiset(Swap(h, i, j)) == multiset(h)
  {
    var g := h[i := h[j]];
    assert multiset(g) == multiset(h) - multiset{h[i]} + multiset{h[j]};
    assert multiset(Swap(h, i, j)) == multiset(g) - multiset{g[j]} + multiset{h[i]};
  }

  /** Heap order except that element i may rank below its parent. */
  ghost predicate HeapBut(h: seq<Hit>, i: nat) {
    && (forall j :: 0 < j < |h| && j != i ==> !Worse(h[j], h[Parent(j)]))
    && (forall j :: 0 < j < |h| && Parent(j) == i && i > 0 ==> !Worse(h[j], h[Parent(i)]))
  }

  /** Heap order except that element i may rank above its children. */
  ghost predicate HeapAbove(h: seq<Hit>, i: nat) {
    && (forall j :: 0 < j < |h| && Parent(j) != i ==> !Worse(h[j], h[Parent(j)]))
    && (forall j :: 0 < j < |h| && Parent(j) == i && i > 0 ==> !Worse(h[j], h[Parent(i)]))
  }

  lemma UpStep(h: seq<Hit>, i: nat)
    requires 0 < i < |h| && HeapBut(h, i) && Worse(h[i], h[Parent(i)])
    ensures HeapBut(Swap(h, i, Parent(i)), Parent(i))
  {
    var p := Parent(i);
    var g := Swap(h, i, p);
    forall j | 0 < j < |g| && j != p
      ensures !Worse(g[j], g[Parent(j)])
    {
      assert !(j != i) || !Worse(h[j], h[Parent(j)]);
    }
    forall j | 0 < j < |g| && Parent(j) == p && p > 0
      ensures !Worse(g[j], g[Parent(p)])
    {
      assert !Worse(h[p], h[Parent(p)]);
      assert j == i || !Worse(h[j], h[Parent(j)]);
    }
  }

  lemma DownStep(h: seq<Hit>, i: nat, m: nat)
    requires i < |h| && HeapAbove(h, i)
    requires 0 < m < |h| && Parent(m) == i && Worse(h[m], h[i])
    requires WorstChild(h, i, m)
    ensures HeapAbove(Swap(h, i, m), m)
  {
    var g := Swap(h, i, m);
    forall j | 0 < j < |g| && Parent(j) != m
      ensures !Worse(g[j], g[Parent(j)])
    {
      assert Parent(j) == i || !Worse(h[j], h[Parent(j)]);
      assert j == i && i > 0 ==> !Worse(h[m], h[Parent(i)]);
    }
  }

  ghost predicate WorstChild(h: seq<Hit>, i: nat, m: nat)
    requires m < |h|
  {
    forall j :: 0 < j < |h| && Parent(j) == i ==> !Worse(h[j], h[m])
  }

  lemma WorseOfTwo(h: seq<Hit>, i: nat, m: nat)
    requires 2 * i + 1 < |h|
    requires m == if 2 * i + 2 < |h| && Worse(h[2 * i + 2], h[2 * i + 1]) then 2 * i + 2 else 2 * i + 1
    ensures Parent(m) == i && WorstChild(h, i, m)
  {}

  lemma Settled(h: seq<Hit>, i: nat, m: nat)
    requires HeapAbove(h, i) && i < |h|
    requires 2 * i + 1 >= |h| || (m < |h| && WorstChild(h, i, m) && !Worse(h[m], h[i]))
    ensures Heap(h)
  {
    forall j | 0 < j < |h|
      ensures !Worse(h[j], h[Parent(j)])
    {
      if Parent(j) == i && 2 * i + 1 < |h| {
        assert !Worse(h[j], h[m]);
      }
    }
  }

  lemma SettledUp(h: seq<Hit>, i: nat)
    requires i < |h| && HeapBut(h, i) && (i == 0 || !Worse(h[i], h[Parent(i)]))
    ensures Heap(h)
  {}

  method SiftUp(h0: seq<Hit>) returns (h: seq<Hit>)
    requires h0 != [] && HeapBut(h0, |h0| - 1)
    ensures Heap(h) && multiset(h) == multiset(h0) && |h| == |h0|
  {
    hide HeapBut, Heap, Worse, Swap;
    h := h0;
    var i := |h| - 1;
    while i > 0
      invariant 0 <= i < |h| == |h0| && HeapBut(h, i) && multiset(h) == multiset(h0)
    {
      var p := (i - 1) / 2;
      if !Worse(h[i], h[p]) {
        break;
      }
      UpStep(h, i);
      SwapPermutes(h, i, p);
      h := Swap(h, i, p);
      i := p;
    }
    SettledUp(h, i);
  }

  method SiftDown(h0: seq<Hit>) returns (h: seq<Hit>)
    requires h0 != [] && HeapAbove(h0, 0)
    ensures Heap(h) && multiset(h) == multiset(h0) && |h| == |h0|
  {
    hide HeapAbove, Heap, Worse, Swap, WorstChild;
    h := h0;
    var i := 0;
    var n := |h|;
    while true
      invariant 0 <= i < n == |h| == |h0| && HeapAbove(h, i) && multiset(h) == multiset(h0)
      decreases n - i
    {
      var l := 2 * i + 1;
      if l >= n {
        Settled(h, i, 0);
        break;
      }
      var m := l;
      if l + 1 < n && Worse(h[l + 1], h[l]) {
        m := l + 1;
      }
      WorseOfTwo(h, i, m);
      if !Worse(h[m], h[i]) {
        Settled(h, i, m);
        break;
      }
      DownStep(h, i, m);
      SwapPermutes(h, i, m);
      h := Swap(h, i, m);
      i := m;
    }
  }

  // ----- the best k -----

  /** `best` are k of the hits `all` (or all of them, if fewer), and no hit left out ranks above one kept. */
  ghost predicate IsTop(best: multiset<Hit>, all: multiset<Hit>, k: nat) {
    && best <= all && |best| == (if |all| < k then |all| else k)
    && forall x, y :: x in best && y in all - best ==> !Worse(x, y)
  }

  class TopK {
    const k: nat
    var h: seq<Hit>

    ghost predicate Valid(pushed: multiset<Hit>)
      reads this
    {
      k >= 1 && Heap(h) && IsTop(multiset(h), pushed, k)
    }

    constructor (limit: nat)
      requires limit >= 1
      ensures Valid(multiset{}) && k == limit
    {
      k, h := limit, [];
    }

    method Push(x: Hit, ghost pushed: multiset<Hit>)
      requires Valid(pushed)
      modifies this
      ensures Valid(pushed + multiset{x})
      ensures multiset(h) <= pushed + multiset{x} && |h| == if |pushed| + 1 < k then |pushed| + 1 else k
      ensures forall a, b :: a in multiset(h) && b in pushed + multiset{x} - multiset(h) ==>
        a.score > b.score || (a.score == b.score && a.id <= b.id)
    {
      PushInto(x, pushed);
      SizeOf(h);
      TopMeans(multiset(h), pushed + multiset{x}, k);
    }

    method PushInto(x: Hit, ghost pushed: multiset<Hit>)
      requires Valid(pushed)
      modifies this
      ensures Valid(pushed + multiset{x})
    {
      SizeOf(h);
      if |h| < k {
        AppendedHeap(h, x);
        KeepsAll(multiset(h), pushed, k, x);
        h := SiftUp(h + [x]);
        return;
      }
      if !Worse(h[0], x) {
        Rejects(h, pushed, k, x);
        return;
      }
      Replaces(h, pushed, k, x);
      h := SiftDown(h[0 := x]);
    }
  }

  /** What is kept scores no less than what is not, and equal scores go by lower id. */
  lemma TopMeans(best: multiset<Hit>, all: multiset<Hit>, k: nat)
    requires IsTop(best, all, k)
    ensures best <= all && |best| == if |all| < k then |all| else k
    ensures forall a, b :: a in best && b in all - best ==> a.score > b.score || (a.score == b.score && a.id <= b.id)
  {}

  lemma SizeOf(h: seq<Hit>)
    ensures |multiset(h)| == |h|
  {}

  lemma AppendedHeap(h: seq<Hit>, x: Hit)
    requires Heap(h)
    ensures HeapBut(h + [x], |h|) && multiset(h + [x]) == multiset(h) + multiset{x}
  {
    var g := h + [x];
    forall j | 0 < j < |g| && j != |h|
      ensures !Worse(g[j], g[Parent(j)])
    {
      assert g[j] == h[j] && g[Parent(j)] == h[Parent(j)];
    }
  }

  lemma KeepsAll(best: multiset<Hit>, all: multiset<Hit>, k: nat, x: Hit)
    requires IsTop(best, all, k) && |best| < k
    ensures IsTop(best + multiset{x}, all + multiset{x}, k)
  {
    SubsetOfSameSize(best, all);
  }

  lemma SubsetOfSameSize(a: multiset<Hit>, b: multiset<Hit>)
    requires a <= b && |a| == |b|
    ensures a == b
  {
    assert b == a + (b - a);
    assert |b - a| == 0;
  }

  lemma Rejects(h: seq<Hit>, all: multiset<Hit>, k: nat, x: Hit)
    requires h != [] && Heap(h) && IsTop(multiset(h), all, k) && |h| == k && !Worse(h[0], x)
    ensures IsTop(multiset(h), all + multiset{x}, k)
  {
    var best := multiset(h);
    SizeOf(h);
    assert all + multiset{x} - best == (all - best) + multiset{x};
    forall z, y | z in best && y in (all - best) + multiset{x}
      ensures !Worse(z, y)
    {
      var j := IndexOf(h, z);
      RootIsWorst(h, j);
      assert y == x || y in all - best;
    }
  }

  lemma IndexOf(h: seq<Hit>, z: Hit) returns (j: nat)
    requires z in multiset(h)
    ensures j < |h| && h[j] == z
  {
    InMultiset(h, z);
    j :| 0 <= j < |h| && h[j] == z;
  }

  lemma ReplacedRoot(h: seq<Hit>, x: Hit)
    requires h != [] && Heap(h)
    ensures HeapAbove(h[0 := x], 0)
  {}

  lemma Replaces(h: seq<Hit>, all: multiset<Hit>, k: nat, x: Hit)
    requires h != [] && Heap(h) && IsTop(multiset(h), all, k) && |h| == k && Worse(h[0], x)
    ensures HeapAbove(h[0 := x], 0)
    ensures IsTop(multiset(h[0 := x]), all + multiset{x}, k)
  {
    var best, root := multiset(h), h[0];
    var now := multiset(h[0 := x]);
    SizeOf(h);
    SizeOf(h[0 := x]);
    ReplacedRoot(h, x);
    assert root in best;
    assert now == best - multiset{root} + multiset{x};
    assert all + multiset{x} - now == (all - best) + multiset{root};
    forall z, y | z in now && y in (all - best) + multiset{root}
      ensures !Worse(z, y)
    {
      if z != x {
        assert z in best;
        var j := IndexOf(h, z);
        RootIsWorst(h, j);
      }
      assert y == root || y in all - best;
    }
  }

  // ----- joining ranges -----

  /** Pushing only the best of a part is as good as pushing the whole part. */
  lemma TopOfPart(best: multiset<Hit>, all: multiset<Hit>, part: multiset<Hit>, partBest: multiset<Hit>, k: nat)
    requires IsTop(partBest, part, k) && IsTop(best, all + partBest, k)
    ensures IsTop(best, all + part, k)
  {
    var lost := part - partBest;
    assert part == partBest + lost;
    assert |part| == |partBest| + |lost|;
    if |lost| > 0 {
      assert |partBest| == k && |best| == k;
    } else {
      assert lost == multiset{};
    }
    assert all + part - best == (all + partBest - best) + lost;
    forall x, y | x in best && y in (all + partBest - best) + lost
      ensures !Worse(x, y)
    {
      if y in lost {
        NotBeaten(best, all, partBest, x, y, k);
      }
    }
  }

  /** Some element of a full set is left out of another one that holds an outsider. */
  lemma LeftOut(best: multiset<Hit>, full: multiset<Hit>, x: Hit, k: nat) returns (z: Hit)
    requires |full| == k == |best| && x in best && x !in full
    ensures z in full && best[z] < full[z]
  {
    if full <= best {
      SubsetOfSameSize(full, best);
    }
    z :| full[z] > best[z];
  }

  lemma NotBeaten(best: multiset<Hit>, all: multiset<Hit>, full: multiset<Hit>, x: Hit, y: Hit, k: nat)
    requires IsTop(best, all + full, k) && x in best && |full| == k == |best|
    requires forall z :: z in full ==> !Worse(z, y)
    ensures !Worse(x, y)
  {
    if x !in full {
      var z := LeftOut(best, full, x, k);
      assert z in all + full - best;
    }
  }

  // ----- ranking -----

  /** Best hit first; the document number settles what score and id leave open. */
  predicate Ahead(a: Hit, b: Hit) {
    Worse(b, a) || (a.score == b.score && a.id == b.id && a.doc < b.doc)
  }

  lemma AheadIsTotal()
    ensures StrictTotal(Ahead)
  {}

  /** Equal ids mean equal hits. */
  ghost predicate IdsTellApart(all: seq<Hit>) {
    forall i, j :: 0 <= i < |all| && 0 <= j < |all| && all[i].id == all[j].id ==> all[i] == all[j]
  }

  ghost predicate Ranked(h: seq<Hit>) {
    forall i, j :: 0 <= i < j < |h| ==> !Worse(h[i], h[j])
  }

  lemma {:induction false} Listing(m: multiset<Hit>) returns (s: seq<Hit>)
    ensures multiset(s) == m
    decreases |m|
  {
    if m == multiset{} {
      s := [];
    } else {
      var x :| x in m;
      var r := Listing(m - multiset{x});
      s := [x] + r;
    }
  }

  lemma InAll(part: multiset<Hit>, all: seq<Hit>, x: Hit) returns (i: nat)
    requires part <= multiset(all) && x in part
    ensures i < |all| && all[i] == x
  {
    assert x in multiset(all);
    i := IndexOf(all, x);
  }

  lemma AheadInOrder(best: seq<Hit>, rest: seq<Hit>, all: seq<Hit>)
    requires multiset(best) <= multiset(all) && multiset(rest) <= multiset(all) && IdsTellApart(all)
    requires Ranked(best) && InOrder(Ahead, rest)
    requires forall x, y :: x in multiset(best) && y in multiset(rest) ==> !Worse(x, y)
    ensures InOrder(Ahead, best + rest)
  {
    var s := best + rest;
    forall i, j | 0 <= i < j < |s|
      ensures !Ahead(s[j], s[i])
    {
      if i < |best| {
        InMultiset(best, s[i]);
        var a := InAll(multiset(best), all, s[i]);
        var b: nat;
        if j < |best| {
          InMultiset(best, s[j]);
          b := InAll(multiset(best), all, s[j]);
        } else {
          InMultiset(rest, s[j]);
          assert rest[j - |best|] == s[j];
          b := InAll(multiset(rest), all, s[j]);
        }
      } else {
        assert !Ahead(rest[j - |best|], rest[i - |best|]);
      }
    }
  }

  /** Any arrangement by rank of the best k is the start of the full ranking. */
  lemma RankedTop(best: seq<Hit>, all: seq<Hit>, k: nat)
    requires IsTop(multiset(best), multiset(all), k) && IdsTellApart(all) && Ranked(best)
    ensures best <= Sort(Ahead, all)
    ensures |best| == if |all| < k then |all| else k
  {
    AheadIsTotal();
    SizeOf(best);
    SizeOf(all);
    var left := multiset(all) - multiset(best);
    var l := Listing(left);
    var rest := Sort(Ahead, l);
    SortPermutes(Ahead, l);
    SortInOrder(Ahead, l);
    AheadInOrder(best, rest, all);
    SortPermutes(Ahead, all);
    SortInOrder(Ahead, all);
    assert multiset(best + rest) == multiset(all);
    OrderUnique(Ahead, best + rest, Sort(Ahead, all));
    assert (best + rest)[..|best|] == best;
  }
}
