/** Containers: lists in a ring buffer, and hashes that start as a flat list of pairs. */
module RedisObjects {
  import opened RedisSlots

  // ----- lists -----

  /** Position x of a ring of n places, for x no more than one round on. */
  function Wrap(x: nat, n: nat): nat {
    if x < n then x else x - n
  }

  /** The n elements of a ring from `head` on. */
  function Ring(b: seq<Bytes>, head: nat, n: nat): (xs: seq<Bytes>)
    requires n <= |b| && (head < |b| || n == 0)
    ensures |xs| == n && forall i :: 0 <= i < n ==> xs[i] == b[Wrap(head + i, |b|)]
  {
    seq(n, i requires 0 <= i < n => b[Wrap(head + i, |b|)])
  }

  lemma RingPush(b: seq<Bytes>, head: nat, n: nat, v: Bytes)
    requires n < |b| && head < |b|
    ensures Ring(b[Wrap(head + n, |b|) := v], head, n + 1) == Ring(b, head, n) + [v]
    ensures var h := if head == 0 then |b| - 1 else head - 1; Ring(b[h := v], h, n + 1) == [v] + Ring(b, head, n)
  {}

  lemma RingPop(b: seq<Bytes>, head: nat, n: nat)
    requires 0 < n <= |b| && head < |b|
    ensures Ring(b[Wrap(head + n - 1, |b|) := []], head, n - 1) == Ring(b, head, n)[..n - 1]
    ensures Ring(b[head := []], Wrap(head + 1, |b|), n - 1) == Ring(b, head, n)[1..]
  {}

  class ListObj {
    var buf: array<Bytes>
    var head: nat
    var n: nat
    var cost: int

    ghost predicate Valid()
      reads this
    {
      n <= buf.Length && (head < buf.Length || (buf.Length == 0 && head == 0))
    }

    ghost function Contents(): (xs: seq<Bytes>)
      requires Valid()
      reads this, buf
      ensures |xs| == n
    {
      Ring(buf[..], head, n)
    }

    /** A list object with these elements. */
    constructor (xs: seq<Bytes>, c: int)
      ensures Valid() && Contents() == xs && cost == c && fresh(buf)
    {
      buf, head, n, cost := new Bytes[|xs|](i requires 0 <= i < |xs| => xs[i]), 0, |xs|, c;
      new;
      assert buf[..] == xs;
    }

    method Elements() returns (xs: seq<Bytes>)
      requires Valid()
      ensures xs == Contents()
    {
      xs := [];
      for i := 0 to n
        invariant xs == Contents()[..i]
      {
        var v := At(i);
        xs := xs + [v];
      }
    }

    method Resize(size: nat)
      requires Valid() && n <= size && size > 0
      modifies this
      ensures Valid() && Contents() == old(Contents()) && buf.Length == size && fresh(buf) && n == old(n) && cost == old(cost)
    {
      var nb := new Bytes[size](i => []);
      for i := 0 to n
        invariant unchanged(this) && unchanged(buf)
        invariant forall j :: 0 <= j < i ==> nb[j] == buf[Wrap(head + j, buf.Length)]
      {
        nb[i] := buf[Wrap(head + i, buf.Length)];
      }
      buf, head := nb, 0;
    }

    method At(i: nat) returns (v: Bytes)
      requires Valid() && i < n
      ensures v == Contents()[i]
    {
      v := buf[Wrap(head + i, buf.Length)];
    }

    method Push(v: Bytes, front: bool)
      requires Valid()
      modifies this, buf
      ensures Valid() && (buf == old(buf) || fresh(buf)) && cost == old(cost)
      ensures Contents() == if front then [v] + old(Contents()) else old(Contents()) + [v]
    {
      hide Ring;
      if n == buf.Length {
        Resize(if buf.Length * 2 < 4 then 4 else buf.Length * 2);
      }
      PushInto(v, front);
    }

    /** Pushes when there is room. */
    method PushInto(v: Bytes, front: bool)
      requires Valid() && n < buf.Length
      modifies this`head, this`n, buf
      ensures Valid() && Contents() == if front then [v] + old(Contents()) else old(Contents()) + [v]
    {
      hide Ring;
      ghost var b := buf[..];
      RingPush(b, head, n, v);
      var i: nat := Wrap(head + n, buf.Length);
      if front {
        head := if head == 0 then buf.Length - 1 else head - 1;
        i := head;
      }
      buf[i] := v;
      assert buf[..] == b[i := v];
      n := n + 1;
    }

    method Pop(front: bool) returns (v: Bytes)
      requires Valid() && n > 0
      modifies this, buf
      ensures Valid() && (buf == old(buf) || fresh(buf)) && cost == old(cost)
      ensures v == old(Contents())[if front then 0 else old(n) - 1]
      ensures Contents() == if front then old(Contents())[1..] else old(Contents())[..old(n) - 1]
    {
      hide Ring;
      ghost var b := buf[..];
      RingPop(b, head, n);
      var i: nat;
      if front {
        i := head;
        head := Wrap(head + 1, buf.Length);
      } else {
        i := Wrap(head + n - 1, buf.Length);
      }
      v := buf[i];
      buf[i] := [];
      assert buf[..] == b[i := []];
      n := n - 1;
      if buf.Length > 16 && n < buf.Length / 4 {
        Resize(buf.Length / 2);
      }
    }
  }

  function ListCost(xs: seq<Bytes>): nat {
    if xs == [] then 0 else ListCost(xs[..|xs| - 1]) + 16 + |xs[|xs| - 1]|
  }

  lemma {:induction false} ListCostConcat(xs: seq<Bytes>, ys: seq<Bytes>)
    ensures ListCost(xs + ys) == ListCost(xs) + ListCost(ys)
  {
    if ys == [] {
      assert xs + ys == xs;
    } else {
      var n := |ys| - 1;
      assert (xs + ys)[..|xs| + n] == xs + ys[..n];
      ListCostConcat(xs, ys[..n]);
    }
  }

  function Reversed(xs: seq<Bytes>): (r: seq<Bytes>)
    ensures |r| == |xs| && forall i :: 0 <= i < |xs| ==> r[i] == xs[|xs| - 1 - i]
  {
    if xs == [] then [] else [xs[|xs| - 1]] + Reversed(xs[..|xs| - 1])
  }

  lemma {:induction false} ListCostReversed(xs: seq<Bytes>)
    ensures ListCost(Reversed(xs)) == ListCost(xs)
  {
    if xs != [] {
      var n := |xs| - 1;
      ListCostReversed(xs[..n]);
      ListCostConcat([xs[n]], Reversed(xs[..n]));
      assert ListCost([xs[n]]) == 16 + |xs[n]|;
    }
  }

  // ----- hashes -----

  ghost function FieldsCost(m: map<Bytes, Bytes>): nat
    decreases |m|
  {
    if m == map[] then 0
    else
      var f :| f in m;
      FieldsCost(m - {f}) + 32 + |f| + |m[f]|
  }

  /** The cost does not depend on the order in which fields are counted. */
  lemma {:induction false} FieldsCostWithout(m: map<Bytes, Bytes>, f: Bytes)
    requires f in m
    ensures FieldsCost(m) == FieldsCost(m - {f}) + 32 + |f| + |m[f]|
    decreases |m|
  {
    var g :| g in m && FieldsCost(m) == FieldsCost(m - {g}) + 32 + |g| + |m[g]|;
    if g != f {
      FieldsCostWithout(m - {g}, f);
      FieldsCostWithout(m - {f}, g);
      assert m - {g} - {f} == m - {f} - {g};
    }
  }

  lemma FieldsCostSet(m: map<Bytes, Bytes>, f: Bytes, v: Bytes)
    ensures f in m ==> FieldsCost(m[f := v]) == FieldsCost(m) + |v| - |m[f]|
    ensures f !in m ==> FieldsCost(m[f := v]) == FieldsCost(m) + 32 + |f| + |v|
  {
    FieldsCostWithout(m[f := v], f);
    assert m[f := v] - {f} == m - {f};
    if f in m {
      FieldsCostWithout(m, f);
    } else {
      assert m - {f} == m;
    }
  }

  datatype Pair = Pair(field: Bytes, value: Bytes)

  const MAX_FLAT := 16

  /** The flat pairs have distinct fields and are those of `m`. */
  ghost predicate Flat(kv: seq<Pair>, m: map<Bytes, Bytes>) {
    && (forall i, j :: 0 <= i < j < |kv| ==> kv[i].field != kv[j].field)
    && (forall i :: 0 <= i < |kv| ==> kv[i].field in m && m[kv[i].field] == kv[i].value)
    && (forall f :: f in m ==> exists i :: 0 <= i < |kv| && kv[i].field == f)
  }

  /** Where a field is among the flat pairs, or their number. */
  method Place(kv: seq<Pair>, f: Bytes, ghost m: map<Bytes, Bytes>) returns (i: nat)
    requires Flat(kv, m)
    ensures i <= |kv| && (i < |kv| <==> f in m) && (i < |kv| ==> kv[i].field == f && m[f] == kv[i].value)
  {
    i := 0;
    while i < |kv|
      invariant i <= |kv| && forall j :: 0 <= j < i ==> kv[j].field != f
    {
      if kv[i].field == f {
        return;
      }
      i := i + 1;
    }
  }

  lemma FlatHas(kv: seq<Pair>, m: map<Bytes, Bytes>, f: Bytes) returns (i: nat)
    requires Flat(kv, m) && f in m
    ensures i < |kv| && kv[i].field == f
  {
    i :| 0 <= i < |kv| && kv[i].field == f;
  }

  lemma FlatSet(kv: seq<Pair>, m: map<Bytes, Bytes>, i: nat, v: Bytes)
    requires Flat(kv, m) && i < |kv|
    ensures Flat(kv[i := Pair(kv[i].field, v)], m[kv[i].field := v])
  {
    var kv', m' := kv[i := Pair(kv[i].field, v)], m[kv[i].field := v];
    forall f | f in m'
      ensures exists j :: 0 <= j < |kv'| && kv'[j].field == f
    {
      var j := FlatHas(kv, m, f);
      assert kv'[j].field == f;
    }
  }

  lemma FlatAdd(kv: seq<Pair>, m: map<Bytes, Bytes>, f: Bytes, v: Bytes)
    requires Flat(kv, m) && f !in m
    ensures Flat(kv + [Pair(f, v)], m[f := v])
  {
    var kv', m' := kv + [Pair(f, v)], m[f := v];
    forall g | g in m'
      ensures exists j :: 0 <= j < |kv'| && kv'[j].field == g
    {
      if g == f {
        assert kv'[|kv|].field == g;
      } else {
        var j := FlatHas(kv, m, g);
        assert kv'[j].field == g;
      }
    }
  }

  /** The last pair takes the place of the one removed. */
  function WithoutAt(kv: seq<Pair>, i: nat): (r: seq<Pair>)
    requires i < |kv|
    ensures |r| == |kv| - 1
  {
    kv[i := kv[|kv| - 1]][..|kv| - 1]
  }

  lemma FlatDel(kv: seq<Pair>, m: map<Bytes, Bytes>, i: nat)
    requires Flat(kv, m) && i < |kv|
    ensures Flat(WithoutAt(kv, i), m - {kv[i].field})
  {
    var n := |kv| - 1;
    var kv', m' := WithoutAt(kv, i), m - {kv[i].field};
    forall f | f in m'
      ensures exists j :: 0 <= j < |kv'| && kv'[j].field == f
    {
      var j := FlatHas(kv, m, f);
      assert kv'[if j == n then i else j].field == f;
    }
  }

  lemma OneLess(m: map<Bytes, Bytes>, f: Bytes)
    ensures f in m ==> |m - {f}| == |m| - 1
    ensures f !in m ==> m - {f} == m
  {}

  method ToMap(kv: seq<Pair>, ghost m: map<Bytes, Bytes>) returns (r: map<Bytes, Bytes>)
    requires Flat(kv, m)
    ensures r == m
  {
    r := map[];
    for i := 0 to |kv|
      invariant forall j :: 0 <= j < i ==> kv[j].field in r
      invariant forall f :: f in r ==> f in m && r[f] == m[f]
    {
      r := r[kv[i].field := kv[i].value];
    }
    forall f | f in m
      ensures f in r
    {
      var i := FlatHas(kv, m, f);
    }
  }

  class HashObj {
    var kv: seq<Pair>
    var big: bool
    var m: map<Bytes, Bytes>
    var cost: int
    ghost var contents: map<Bytes, Bytes>

    ghost predicate Valid()
      reads this
    {
      if big then m == contents && kv == [] else Flat(kv, contents) && |kv| <= MAX_FLAT && |kv| == |contents|
    }

    constructor (c: int)
      ensures Valid() && contents == map[] && cost == c
    {
      kv, big, m, cost, contents := [], false, map[], c, map[];
    }

    method Fields() returns (r: map<Bytes, Bytes>)
      requires Valid()
      ensures r == contents
    {
      if big {
        return m;
      }
      r := ToMap(kv, contents);
    }

    method Get(f: Bytes) returns (v: Bytes, ok: bool)
      requires Valid()
      ensures ok <==> f in contents
      ensures ok ==> v == contents[f]
    {
      if big {
        if f in m {
          return m[f], true;
        }
        return [], false;
      }
      var i := Place(kv, f, contents);
      if i < |kv| {
        return kv[i].value, true;
      }
      return [], false;
    }

    /** Stores a field and gives back what was there. */
    method Set(f: Bytes, v: Bytes) returns (was: Bytes, ok: bool)
      requires Valid()
      modifies this
      ensures Valid() && contents == old(contents)[f := v] && cost == old(cost)
      ensures ok <==> f in old(contents)
      ensures ok ==> was == old(contents)[f]
    {
      hide Flat;
      ghost var c := contents;
      contents := c[f := v];
      if big {
        ok := f in m;
        was := if ok then m[f] else [];
        m := m[f := v];
        return;
      }
      var i := Place(kv, f, c);
      if i < |kv| {
        was, ok := kv[i].value, true;
        FlatSet(kv, c, i, v);
        kv := kv[i := Pair(kv[i].field, v)];
        return;
      }
      was, ok := [], false;
      if |kv| >= MAX_FLAT {
        m := ToMap(kv, c);
        kv, big := [], true;
        m := m[f := v];
        return;
      }
      FlatAdd(kv, c, f, v);
      kv := kv + [Pair(f, v)];
    }

    method Del(f: Bytes) returns (was: Bytes, ok: bool)
      requires Valid()
      modifies this
      ensures Valid() && contents == old(contents) - {f} && cost == old(cost)
      ensures ok <==> f in old(contents)
      ensures ok ==> was == old(contents)[f]
    {
      hide Flat, WithoutAt;
      ghost var c := contents;
      contents := c - {f};
      if big {
        ok := f in m;
        was := if ok then m[f] else [];
        m := m - {f};
        return;
      }
      was, ok := [], false;
      var i := Place(kv, f, c);
      OneLess(c, f);
      if i < |kv| {
        was, ok := kv[i].value, true;
        FlatDel(kv, c, i);
        kv := WithoutAt(kv, i);
      }
    }

    method Size() returns (n: nat)
      requires Valid()
      ensures n == |contents|
    {
      n := if big then |m| else |kv|;
    }
  }

  /** A hash object with these fields. */
  method HashOf(fields: map<Bytes, Bytes>, c: int) returns (h: HashObj)
    ensures fresh(h) && h.Valid() && h.contents == fields && h.cost == c
  {
    hide HashObj.Valid;
    h := new HashObj(c);
    var todo := fields.Keys;
    while todo != {}
      invariant fresh(h) && h.Valid() && h.cost == c && todo <= fields.Keys
      invariant h.contents == map f | f in fields && f !in todo :: fields[f]
      decreases |todo|
    {
      var f :| f in todo;
      var was, ok := h.Set(f, fields[f]);
      todo := todo - {f};
    }
  }
}
