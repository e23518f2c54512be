/** Orders and sorting: byte-wise order of terms, and sorting by a given order. */
module SearchOrder {
  import opened SearchVarint
  import opened SearchCorpus

  ghost predicate StrictTotal<T(!new)>(less: (T, T) -> bool) {
    && (forall x :: !less(x, x))
    && (forall x, y, z :: less(x, y) && less(y, z) ==> less(x, z))
    && (forall x, y :: x == y || less(x, y) || less(y, x))
  }

  /** No element ranks before one that stands to its left. */
  predicate InOrder<T>(less: (T, T) -> bool, s: seq<T>) {
    forall i, j :: 0 <= i < j < |s| ==> !less(s[j], s[i])
  }

  function Insert<T>(less: (T, T) -> bool, x: T, s: seq<T>): seq<T> {
    if s == [] then [x]
    else if less(s[0], x) then [s[0]] + Insert(less, x, s[1..])
    else [x] + s
  }

  function Sort<T>(less: (T, T) -> bool, s: seq<T>): seq<T> {
    if s == [] then [] else Insert(less, s[0], Sort(less, s[1..]))
  }

  lemma {:induction false} InsertPermutes<T>(less: (T, T) -> bool, x: T, s: seq<T>)
    ensures multiset(Insert(less, x, s)) == multiset(s) + multiset{x}
  {
    if s != [] && less(s[0], x) {
      InsertPermutes(less, x, s[1..]);
      assert s == [s[0]] + s[1..];
    }
  }

  lemma {:induction false} SortPermutes<T>(less: (T, T) -> bool, s: seq<T>)
    ensures multiset(Sort(less, s)) == multiset(s)
    ensures |Sort(less, s)| == |s|
  {
    if s != [] {
      SortPermutes(less, s[1..]);
      InsertPermutes(less, s[0], Sort(less, s[1..]));
      assert s == [s[0]] + s[1..];
    }
    assert |multiset(Sort(less, s))| == |Sort(less, s)|;
  }

  lemma InMultiset<T>(s: seq<T>, x: T)
    ensures x in s <==> x in multiset(s)
  {}

  lemma SortKeepsElement<T>(less: (T, T) -> bool, s: seq<T>, x: T)
    ensures x in Sort(less, s) <==> x in s
  {
    SortPermutes(less, s);
    InMultiset(Sort(less, s), x);
    InMultiset(s, x);
  }

  lemma TwiceInMultiset<T>(s: seq<T>, i: nat, j: nat)
    requires i < j < |s| && s[i] == s[j]
    ensures multiset(s)[s[i]] >= 2
  {
    assert s == s[..i] + [s[i]] + s[i + 1..j] + [s[j]] + s[j + 1..];
  }

  predicate NoRepeats<T(==)>(s: seq<T>) {
    forall i, j :: 0 <= i < j < |s| ==> s[i] != s[j]
  }

  lemma {:induction false} NoRepeatsInMultiset<T>(s: seq<T>, x: T)
    requires forall i, j :: 0 <= i < j < |s| ==> s[i] != s[j]
    ensures multiset(s)[x] <= 1
  {
    if s != [] {
      var n := |s| - 1;
      NoRepeatsInMultiset(s[..n], x);
      assert s == s[..n] + [s[n]];
      InMultiset(s[..n], x);
    }
  }

  lemma {:induction false} InsertInOrder<T(!new)>(less: (T, T) -> bool, x: T, s: seq<T>)
    requires StrictTotal(less) && InOrder(less, s)
    ensures InOrder(less, Insert(less, x, s))
  {
    if s != [] {
      if less(s[0], x) {
        var t := Insert(less, x, s[1..]);
        InsertInOrder(less, x, s[1..]);
        InsertPermutes(less, x, s[1..]);
        forall j | 0 <= j < |t|
          ensures !less(t[j], s[0])
        {
          InMultiset(t, t[j]);
          InMultiset(s[1..], t[j]);
          if t[j] != x {
            assert t[j] in s[1..];
          }
        }
      } else {
        forall j | 0 <= j < |s|
          ensures !less(s[j], x)
        {
          assert j == 0 || !less(s[j], s[0]);
        }
      }
    }
  }

  lemma {:induction false} SortInOrder<T(!new)>(less: (T, T) -> bool, s: seq<T>)
    requires StrictTotal(less)
    ensures InOrder(less, Sort(less, s))
  {
    if s != [] {
      SortInOrder(less, s[1..]);
      InsertInOrder(less, s[0], Sort(less, s[1..]));
    }
  }

  lemma SameFirst<T(!new)>(less: (T, T) -> bool, s: seq<T>, t: seq<T>)
    requires StrictTotal(less) && InOrder(less, s) && InOrder(less, t)
    requires multiset(s) == multiset(t) && s != [] && t != []
    ensures s[0] == t[0]
  {
    InMultiset(t, s[0]);
    InMultiset(s, t[0]);
    assert s[0] in s && t[0] in t;
    var i :| 0 <= i < |t| && t[i] == s[0];
    var j :| 0 <= j < |s| && s[j] == t[0];
    assert i == 0 || !less(t[i], t[0]);
    assert j == 0 || !less(s[j], s[0]);
  }

  /** Two lists in order with the same elements are the same list. */
  lemma {:induction false} OrderUnique<T(!new)>(less: (T, T) -> bool, s: seq<T>, t: seq<T>)
    requires StrictTotal(less) && InOrder(less, s) && InOrder(less, t)
    requires multiset(s) == multiset(t)
    ensures s == t
  {
    hide StrictTotal;
    assert |multiset(s)| == |s| && |multiset(t)| == |t|;
    if s != [] {
      SameFirst(less, s, t);
      assert s == [s[0]] + s[1..] && t == [t[0]] + t[1..];
      assert multiset(s[1..]) == multiset(s) - multiset{s[0]};
      assert multiset(t[1..]) == multiset(t) - multiset{t[0]};
      OrderUnique(less, s[1..], t[1..]);
    }
  }

  // ----- terms -----

  /** Byte-wise order, a prefix first. */
  predicate BytesLess(a: seq<Byte>, b: seq<Byte>) {
    b != [] && (a == [] || a[0] < b[0] || (a[0] == b[0] && BytesLess(a[1..], b[1..])))
  }

  predicate Less(a: Term, b: Term) {
    BytesLess(a.bytes, b.bytes)
  }

  lemma {:induction false} BytesLessIrreflexive(a: seq<Byte>)
    ensures !BytesLess(a, a)
  {
    if a != [] {
      BytesLessIrreflexive(a[1..]);
    }
  }

  lemma {:induction false} BytesLessTransitive(a: seq<Byte>, b: seq<Byte>, c: seq<Byte>)
    requires BytesLess(a, b) && BytesLess(b, c)
    ensures BytesLess(a, c)
  {
    if a != [] && a[0] == b[0] && b[0] == c[0] {
      BytesLessTransitive(a[1..], b[1..], c[1..]);
    }
  }

  lemma {:induction false} BytesLessConnected(a: seq<Byte>, b: seq<Byte>)
    ensures a == b || BytesLess(a, b) || BytesLess(b, a)
  {
    if a != [] && b != [] && a[0] == b[0] {
      BytesLessConnected(a[1..], b[1..]);
      assert a == [a[0]] + a[1..] && b == [b[0]] + b[1..];
    }
  }

  /** The strings agree up to i, and there a ends or has the lesser byte. */
  ghost predicate LessAt(a: seq<Byte>, b: seq<Byte>, i: nat) {
    i <= |a| && i < |b| && a[..i] == b[..i] && (i == |a| || a[i] < b[i])
  }

  /** The place where two strings first differ decides, the end of one being less than any byte. */
  lemma {:induction false} BytesLessMeans(a: seq<Byte>, b: seq<Byte>)
    ensures BytesLess(a, b) <==> exists i: nat :: LessAt(a, b, i)
  {
    forall i: nat | LessAt(a, b, i) && i > 0
      ensures a[0] == b[0] && LessAt(a[1..], b[1..], i - 1)
    {
      assert a[..i][0] == a[0] && b[..i][0] == b[0];
      assert a[1..][..i - 1] == a[..i][1..] && b[1..][..i - 1] == b[..i][1..];
    }
    if b != [] && (a == [] || a[0] < b[0]) {
      assert LessAt(a, b, 0);
    } else if a != [] && b != [] && a[0] == b[0] {
      BytesLessMeans(a[1..], b[1..]);
      forall i: nat | LessAt(a[1..], b[1..], i)
        ensures LessAt(a, b, i + 1)
      {
        assert a[..i + 1] == [a[0]] + a[1..][..i] && b[..i + 1] == [b[0]] + b[1..][..i];
      }
    }
  }

  lemma LessAsymmetric(a: Term, b: Term)
    ensures !(Less(a, b) && Less(b, a))
  {
    if Less(a, b) && Less(b, a) {
      BytesLessTransitive(a.bytes, b.bytes, a.bytes);
      BytesLessIrreflexive(a.bytes);
    }
  }

  lemma LessIsTotal()
    ensures StrictTotal(Less)
  {
    forall a: Term
      ensures !Less(a, a)
    {
      BytesLessIrreflexive(a.bytes);
    }
    forall a: Term, b: Term, c: Term | Less(a, b) && Less(b, c)
      ensures Less(a, c)
    {
      BytesLessTransitive(a.bytes, b.bytes, c.bytes);
    }
    forall a: Term, b: Term
      ensures a == b || Less(a, b) || Less(b, a)
    {
      BytesLessConnected(a.bytes, b.bytes);
    }
  }
}
