/** Captured variables: open upvalues point into the stack, closed ones hold their value; either way a captured variable
    is one cell. */
module LoxUpvalues {

  /** `slot` is the stack slot while the upvalue is open, -1 afterwards; `next` is the next open upvalue, or -1. */
  datatype Upvalue<V> = Upvalue(slot: int, closed: V, next: int)

  // ----- the list of open upvalues -----

  /** The k-th of a list, or -1 behind its end. */
  function Nth(list: seq<nat>, k: nat): int {
    if k < |list| then list[k] else -1
  }

  /** `list` is what following `next` from `first` visits. */
  ghost predicate Linked<V>(ups: seq<Upvalue<V>>, first: int, list: seq<nat>) {
    && (forall i :: 0 <= i < |list| ==> list[i] < |ups|)
    && first == Nth(list, 0)
    && (forall i :: 0 <= i < |list| ==> ups[list[i]].next == Nth(list, i + 1))
  }

  /** Strictly descending by slot: at most one per slot. */
  ghost predicate Descending<V>(ups: seq<Upvalue<V>>, list: seq<nat>, height: nat) {
    && (forall i :: 0 <= i < |list| ==> list[i] < |ups| && 0 <= ups[list[i]].slot < height)
    && (forall i, j :: 0 <= i < j < |list| ==> ups[list[i]].slot > ups[list[j]].slot)
  }

  /** The upvalues not in the list are closed. */
  ghost predicate OthersClosed<V>(ups: seq<Upvalue<V>>, list: seq<nat>) {
    forall u :: 0 <= u < |ups| && ups[u].slot != -1 ==> u in list
  }

  ghost predicate ListOk<V>(ups: seq<Upvalue<V>>, first: int, list: seq<nat>, height: nat) {
    Linked(ups, first, list) && Descending(ups, list, height) && OthersClosed(ups, list)
  }

  // ----- cells -----

  /** Every live slot shows the contents of a cell of its own. */
  ghost predicate SlotsOk<V>(stack: seq<V>, env: seq<nat>, cells: seq<V>) {
    && |env| == |stack| && (forall i :: 0 <= i < |env| ==> env[i] < |cells| && stack[i] == cells[env[i]])
    && (forall i, j :: 0 <= i < j < |env| ==> env[i] != env[j])
  }

  /** An open upvalue stands for the cell of its slot; a closed one has the contents of a cell of its own. */
  ghost predicate Shows<V>(u: Upvalue<V>, cell: nat, env: seq<nat>, cells: seq<V>) {
    && cell < |cells| && u.slot >= -1
    && if u.slot >= 0 then u.slot < |env| && env[u.slot] == cell else cells[cell] == u.closed && cell !in env
  }

  ghost predicate CellsOk<V>(ups: seq<Upvalue<V>>, cellOf: seq<nat>, stack: seq<V>, env: seq<nat>, cells: seq<V>) {
    && SlotsOk(stack, env, cells) && |cellOf| == |ups|
    && (forall u :: 0 <= u < |ups| ==> Shows(ups[u], cellOf[u], env, cells))
    && (forall u, v :: 0 <= u < v < |ups| ==> cellOf[u] != cellOf[v])
  }

  lemma CellsPush<V>(ups: seq<Upvalue<V>>, cellOf: seq<nat>, stack: seq<V>, env: seq<nat>, cells: seq<V>, v: V)
    requires CellsOk(ups, cellOf, stack, env, cells)
    ensures CellsOk(ups, cellOf, stack + [v], env + [|cells|], cells + [v])
  {}

  lemma CellsPop<V>(ups: seq<Upvalue<V>>, cellOf: seq<nat>, stack: seq<V>, env: seq<nat>, cells: seq<V>)
    requires CellsOk(ups, cellOf, stack, env, cells) && stack != []
    requires forall u :: 0 <= u < |ups| ==> ups[u].slot < |stack| - 1
    ensures CellsOk(ups, cellOf, stack[..|stack| - 1], env[..|env| - 1], cells)
  {
    var n := |env| - 1;
    forall u | 0 <= u < |ups|
      ensures Shows(ups[u], cellOf[u], env[..n], cells)
    {
      assert Shows(ups[u], cellOf[u], env, cells);
    }
  }

  lemma CellsSetSlot<V>(ups: seq<Upvalue<V>>, cellOf: seq<nat>, stack: seq<V>, env: seq<nat>, cells: seq<V>, i: nat, v: V)
    requires CellsOk(ups, cellOf, stack, env, cells) && i < |stack|
    ensures CellsOk(ups, cellOf, stack[i := v], env, cells[env[i] := v])
  {
    assert env[i] in env;
    forall u | 0 <= u < |ups|
      ensures Shows(ups[u], cellOf[u], env, cells[env[i] := v])
    {
      assert Shows(ups[u], cellOf[u], env, cells);
    }
  }

  lemma CellsSetClosed<V>(ups: seq<Upvalue<V>>, cellOf: seq<nat>, stack: seq<V>, env: seq<nat>, cells: seq<V>, u: nat, v: V)
    requires CellsOk(ups, cellOf, stack, env, cells) && u < |ups| && ups[u].slot == -1
    ensures CellsOk(ups[u := ups[u].(closed := v)], cellOf, stack, env, cells[cellOf[u] := v])
  {
    assert Shows(ups[u], cellOf[u], env, cells);
    assert forall i :: 0 <= i < |env| ==> env[i] in env;
    var ups', cells' := ups[u := ups[u].(closed := v)], cells[cellOf[u] := v];
    forall w | 0 <= w < |ups|
      ensures Shows(ups'[w], cellOf[w], env, cells')
    {
      assert Shows(ups[w], cellOf[w], env, cells);
    }
  }

  /** The same with the slots from `bound` on about to go: upvalues closed already may still share their cells. */
  ghost predicate Closing<V>(ups: seq<Upvalue<V>>, cellOf: seq<nat>, stack: seq<V>, env: seq<nat>, cells: seq<V>, bound: nat) {
    && SlotsOk(stack, env, cells) && |cellOf| == |ups| && bound <= |env|
    && (forall u :: 0 <= u < |ups| ==> ShowsBelow(ups[u], cellOf[u], env, cells, bound))
    && (forall u, v :: 0 <= u < v < |ups| ==> cellOf[u] != cellOf[v])
  }

  ghost predicate ShowsBelow<V>(u: Upvalue<V>, cell: nat, env: seq<nat>, cells: seq<V>, bound: nat)
    requires bound <= |env|
  {
    && cell < |cells| && u.slot >= -1
    && if u.slot >= 0 then u.slot < |env| && env[u.slot] == cell else cells[cell] == u.closed && cell !in env[..bound]
  }

  lemma StartClosing<V>(ups: seq<Upvalue<V>>, cellOf: seq<nat>, stack: seq<V>, env: seq<nat>, cells: seq<V>, bound: nat)
    requires CellsOk(ups, cellOf, stack, env, cells) && bound <= |stack|
    ensures Closing(ups, cellOf, stack, env, cells, bound)
  {
    forall u | 0 <= u < |ups|
      ensures ShowsBelow(ups[u], cellOf[u], env, cells, bound)
    {
      assert Shows(ups[u], cellOf[u], env, cells);
    }
  }

  lemma CloseOne<V>(ups: seq<Upvalue<V>>, cellOf: seq<nat>, stack: seq<V>, env: seq<nat>, cells: seq<V>, bound: nat, u: nat)
    requires Closing(ups, cellOf, stack, env, cells, bound) && u < |ups| && bound <= ups[u].slot < |stack|
    ensures Closing(ups[u := Upvalue(-1, stack[ups[u].slot], ups[u].next)], cellOf, stack, env, cells, bound)
  {
    var ups' := ups[u := Upvalue(-1, stack[ups[u].slot], ups[u].next)];
    assert ShowsBelow(ups[u], cellOf[u], env, cells, bound);
    forall w | 0 <= w < |ups|
      ensures ShowsBelow(ups'[w], cellOf[w], env, cells, bound)
    {
      assert ShowsBelow(ups[w], cellOf[w], env, cells, bound);
    }
  }

  lemma EndClosing<V>(ups: seq<Upvalue<V>>, cellOf: seq<nat>, stack: seq<V>, env: seq<nat>, cells: seq<V>, bound: nat)
    requires Closing(ups, cellOf, stack, env, cells, bound) && forall u :: 0 <= u < |ups| ==> ups[u].slot < bound
    ensures CellsOk(ups, cellOf, stack[..bound], env[..bound], cells)
  {
    forall u | 0 <= u < |ups|
      ensures Shows(ups[u], cellOf[u], env[..bound], cells)
    {
      assert ShowsBelow(ups[u], cellOf[u], env, cells, bound);
    }
  }

  /** A new open upvalue for a slot that has none. */
  lemma CellsCapture<V>(ups: seq<Upvalue<V>>, cellOf: seq<nat>, stack: seq<V>, env: seq<nat>, cells: seq<V>, slot: nat, next: int)
    requires CellsOk(ups, cellOf, stack, env, cells) && slot < |stack| && forall u :: 0 <= u < |ups| ==> ups[u].slot != slot
    ensures CellsOk(ups + [Upvalue(slot, stack[slot], next)], cellOf + [env[slot]], stack, env, cells)
  {
    assert env[slot] in env;
    forall u | 0 <= u < |ups|
      ensures cellOf[u] != env[slot]
    {
      assert Shows(ups[u], cellOf[u], env, cells);
    }
  }

  lemma CellsRelinked<V>(ups: seq<Upvalue<V>>, ups': seq<Upvalue<V>>, cellOf: seq<nat>, stack: seq<V>, env: seq<nat>, cells: seq<V>)
    requires CellsOk(ups, cellOf, stack, env, cells) && |ups'| == |ups|
    requires forall u :: 0 <= u < |ups| ==> ups'[u].slot == ups[u].slot && ups'[u].closed == ups[u].closed
    ensures CellsOk(ups', cellOf, stack, env, cells)
  {
    forall u | 0 <= u < |ups|
      ensures Shows(ups'[u], cellOf[u], env, cells)
    {
      assert Shows(ups[u], cellOf[u], env, cells);
    }
  }

  // ----- changes of the list -----

  /** The first upvalue leaves the list. */
  lemma ListDrop<V>(ups: seq<Upvalue<V>>, first: int, list: seq<nat>, height: nat, v: V)
    requires ListOk(ups, first, list, height) && list != []
    ensures ListOk(ups[list[0] := Upvalue(-1, v, ups[list[0]].next)], ups[list[0]].next, list[1..], height)
  {
    var u := list[0];
    var ups', list' := ups[u := Upvalue(-1, v, ups[u].next)], list[1..];
    forall i | 0 <= i < |list'|
      ensures list'[i] != u && list'[i] == list[i + 1]
    {
      assert ups[list[0]].slot > ups[list[i + 1]].slot;
    }
    forall w | 0 <= w < |ups'| && ups'[w].slot != -1
      ensures w in list'
    {
      assert w in list;
    }
  }

  /** A new upvalue goes between places k - 1 and k of the list. */
  function Relinked<V>(ups: seq<Upvalue<V>>, list: seq<nat>, k: nat): seq<Upvalue<V>>
    requires k <= |list| && forall i :: 0 <= i < |list| ==> list[i] < |ups|
  {
    if k == 0 then ups else ups[list[k - 1] := ups[list[k - 1]].(next := |ups|)]
  }

  lemma RelinkedMeans<V>(ups: seq<Upvalue<V>>, list: seq<nat>, k: nat)
    requires k <= |list| && forall i :: 0 <= i < |list| ==> list[i] < |ups|
    ensures var r := Relinked(ups, list, k);
      && |r| == |ups| && (k > 0 ==> r[list[k - 1]].next == |ups|)
      && (forall u :: 0 <= u < |ups| ==> r[u].slot == ups[u].slot && r[u].closed == ups[u].closed)
      && (forall u :: 0 <= u < |ups| && (k == 0 || u != list[k - 1]) ==> r[u].next == ups[u].next)
  {}

  function Spliced(list: seq<nat>, k: nat, x: nat): seq<nat>
    requires k <= |list|
  {
    list[..k] + [x] + list[k..]
  }

  lemma SplicedMeans(list: seq<nat>, k: nat, x: nat)
    requires k <= |list|
    ensures var m := Spliced(list, k, x);
      |m| == |list| + 1 && forall i :: 0 <= i < |m| ==> m[i] == if i < k then list[i] else if i == k then x else list[i - 1]
  {}

  lemma ListInsert<V>(ups: seq<Upvalue<V>>, first: int, list: seq<nat>, height: nat, k: nat, slot: nat, v: V)
    requires ListOk(ups, first, list, height) && k <= |list| && slot < height
    requires (forall i :: 0 <= i < k ==> ups[list[i]].slot > slot) && (k < |list| ==> ups[list[k]].slot < slot)
    ensures ListOk(Relinked(ups, list, k) + [Upvalue(slot, v, Nth(list, k))], if k == 0 then |ups| else first,
                   Spliced(list, k, |ups|), height)
  {
    hide Linked, Descending, OthersClosed;
    InList(ups, first, list, height);
    RelinkedMeans(ups, list, k);
    var ups' := Relinked(ups, list, k) + [Upvalue(slot, v, Nth(list, k))];
    assert forall u :: 0 <= u < |ups| ==> ups'[u] == Relinked(ups, list, k)[u];
    NoRepeats(ups, list, height);
    LinkedInsert(ups, first, list, k, slot, v);
    DescendingInsert(ups, ups', list, height, k, slot);
    OthersInsert(ups, ups', list, k);
  }

  lemma OthersInsert<V>(ups: seq<Upvalue<V>>, ups': seq<Upvalue<V>>, list: seq<nat>, k: nat)
    requires OthersClosed(ups, list) && k <= |list| && |ups'| == |ups| + 1
    requires forall u :: 0 <= u < |ups| ==> ups'[u].slot == ups[u].slot
    ensures OthersClosed(ups', Spliced(list, k, |ups|))
  {
    SplicedMeans(list, k, |ups|);
    var m := Spliced(list, k, |ups|);
    forall u | 0 <= u < |ups'| && ups'[u].slot != -1
      ensures u in m
    {
      if u < |ups| {
        assert u in list;
        var i :| 0 <= i < |list| && list[i] == u;
        assert m[if i < k then i else i + 1] == u;
      } else {
        assert m[k] == u;
      }
    }
  }

  lemma DescendingInsert<V>(ups: seq<Upvalue<V>>, ups': seq<Upvalue<V>>, list: seq<nat>, height: nat, k: nat, slot: nat)
    requires Descending(ups, list, height) && k <= |list| && slot < height
    requires (forall i :: 0 <= i < k ==> ups[list[i]].slot > slot) && (k < |list| ==> ups[list[k]].slot < slot)
    requires |ups'| == |ups| + 1 && ups'[|ups|].slot == slot && forall u :: 0 <= u < |ups| ==> ups'[u].slot == ups[u].slot
    ensures Descending(ups', Spliced(list, k, |ups|), height)
  {
    SplicedMeans(list, k, |ups|);
  }

  lemma NoRepeats<V>(ups: seq<Upvalue<V>>, list: seq<nat>, height: nat)
    requires Descending(ups, list, height)
    ensures forall i, j :: 0 <= i < j < |list| ==> list[i] != list[j]
  {}

  lemma LinkedInsert<V>(ups: seq<Upvalue<V>>, first: int, list: seq<nat>, k: nat, slot: nat, v: V)
    requires Linked(ups, first, list) && k <= |list| && forall i, j :: 0 <= i < j < |list| ==> list[i] != list[j]
    ensures Linked(Relinked(ups, list, k) + [Upvalue(slot, v, Nth(list, k))], if k == 0 then |ups| else first,
                   Spliced(list, k, |ups|))
  {
    hide Relinked, Linked;
    FirstOf(ups, first, list);
    RelinkedLength(ups, list, k);
    var ups', m := Relinked(ups, list, k) + [Upvalue(slot, v, Nth(list, k))], Spliced(list, k, |ups|);
    forall i | 0 <= i < |m|
      ensures m[i] < |ups'| && ups'[m[i]].next == Nth(m, i + 1)
    {
      if i == k {
        assert m[i] == |ups|;
      } else {
        NextInserted(ups, first, list, k, if i < k then i else i - 1);
      }
    }
    IsLinked(ups', if k == 0 then |ups| else first, m);
  }

  /** The link of the j-th upvalue after the insertion. */
  lemma NextInserted<V>(ups: seq<Upvalue<V>>, first: int, list: seq<nat>, k: nat, j: nat)
    requires Linked(ups, first, list) && k <= |list| && forall i, j :: 0 <= i < j < |list| ==> list[i] != list[j]
    requires j < |list| && |Relinked(ups, list, k)| == |ups|
    ensures list[j] < |ups| && Relinked(ups, list, k)[list[j]].next == if j == k - 1 then |ups| else Nth(list, j + 1)
  {
    NextOf(ups, first, list, j);
    assert k > 0 && j < k - 1 ==> list[j] != list[k - 1];
    assert k > 0 && j > k - 1 ==> list[k - 1] != list[j];
  }

  lemma RelinkedLength<V>(ups: seq<Upvalue<V>>, list: seq<nat>, k: nat)
    requires k <= |list| && forall i :: 0 <= i < |list| ==> list[i] < |ups|
    ensures |Relinked(ups, list, k)| == |ups|
  {}

  lemma FirstOf<V>(ups: seq<Upvalue<V>>, first: int, list: seq<nat>)
    requires Linked(ups, first, list)
    ensures first == Nth(list, 0) && forall i :: 0 <= i < |list| ==> list[i] < |ups|
  {}

  lemma NextOf<V>(ups: seq<Upvalue<V>>, first: int, list: seq<nat>, j: nat)
    requires Linked(ups, first, list) && j < |list|
    ensures list[j] < |ups| && ups[list[j]].next == Nth(list, j + 1)
  {}

  lemma IsLinked<V>(ups: seq<Upvalue<V>>, first: int, list: seq<nat>)
    requires first == Nth(list, 0) && forall i :: 0 <= i < |list| ==> list[i] < |ups| && ups[list[i]].next == Nth(list, i + 1)
    ensures Linked(ups, first, list)
  {
  }

  class Machine<V> {
    var stack: seq<V>
    var ups: seq<Upvalue<V>>
    var open: int
    ghost var list: seq<nat>
    ghost var env: seq<nat>
    ghost var cells: seq<V>
    ghost var cellOf: seq<nat>

    /** `cells` is what the variables hold: `env` gives the cell of each live slot, `cellOf` that of each upvalue. */
    ghost predicate Valid()
      reads this
    {
      ListOk(ups, open, list, |stack|) && CellsOk(ups, cellOf, stack, env, cells)
    }

    constructor ()
      ensures Valid() && stack == [] && cells == [] && cellOf == [] && env == [] && ups == []
    {
      stack, ups, open, list, env, cells, cellOf := [], [], -1, [], [], [], [];
      EmptyMachine<V>();
      hide ListOk, CellsOk;
    }

    /** A new variable gets a new cell. */
    method Push(v: V)
      requires Valid()
      modifies this
      ensures Valid() && stack == old(stack) + [v] && cells == old(cells) + [v] && env == old(env) + [|old(cells)|]
      ensures cellOf == old(cellOf) && ups == old(ups) && list == old(list)
    {
      hide CellsOk;
      CellsPush(ups, cellOf, stack, env, cells, v);
      stack, cells, env := stack + [v], cells + [v], env + [|cells|];
    }

    /** Drops a variable that was not captured. */
    method Pop()
      requires Valid() && stack != [] && |env| == |stack| && forall u :: 0 <= u < |ups| ==> ups[u].slot != |stack| - 1
      modifies this
      ensures Valid() && stack == old(stack)[..|old(stack)| - 1] && env == old(env)[..|old(env)| - 1] && cells == old(cells)
      ensures cellOf == old(cellOf) && ups == old(ups) && list == old(list)
    {
      hide Shows, Linked;
      var n := |stack| - 1;
      SlotsBelow(ups, open, list, |stack|);
      CellsPop(ups, cellOf, stack, env, cells);
      stack, env := stack[..n], env[..n];
    }

    /** Assignment to a local variable. */
    method SetLocal(i: nat, v: V)
      requires Valid() && i < |stack| == |env|
      modifies this
      ensures Valid() && cells == old(cells[env[i] := v]) && env == old(env) && stack == old(stack)[i := v]
      ensures cellOf == old(cellOf) && ups == old(ups) && list == old(list)
    {
      CellsSetSlot(ups, cellOf, stack, env, cells, i, v);
      hide CellsOk, ListOk;
      stack, cells := stack[i := v], cells[env[i] := v];
    }

    /** Reading through an upvalue gives the contents of its cell. */
    method Load(u: nat) returns (v: V)
      requires Valid() && u < |ups| == |cellOf|
      ensures cellOf[u] < |cells| && v == cells[cellOf[u]]
    {
      assert Shows(ups[u], cellOf[u], env, cells);
      if ups[u].slot >= 0 {
        return stack[ups[u].slot];
      }
      return ups[u].closed;
    }

    /** Writing through an upvalue changes its cell and no other. */
    method Store(u: nat, v: V)
      requires Valid() && u < |ups| == |cellOf|
      modifies this
      ensures Valid() && cells == old(cells[cellOf[u] := v]) && env == old(env) && cellOf == old(cellOf) && list == old(list)
      ensures |stack| == |old(stack)| && |ups| == |old(ups)| && forall w :: 0 <= w < |ups| ==> ups[w].slot == old(ups)[w].slot
    {
      hide ListOk, CellsOk;
      CellShown(ups, cellOf, stack, env, cells, u);
      if ups[u].slot >= 0 {
        SetLocal(ups[u].slot, v);
      } else {
        CellsSetClosed(ups, cellOf, stack, env, cells, u, v);
        ListKeeps(ups, open, list, |stack|, u, v);
        cells := cells[cellOf[u] := v];
        ups := ups[u := ups[u].(closed := v)];
      }
    }

    /** The upvalue of a slot: the open one if there is one, otherwise a new one in its place in the list. */
    method Capture(slot: nat) returns (u: nat)
      requires Valid() && slot < |stack| == |env|
      modifies this
      ensures Valid() && u < |cellOf| && cellOf[u] == old(env[slot]) && u in list
      ensures stack == old(stack) && cells == old(cells) && env == old(env) && old(cellOf) <= cellOf
      ensures u < |ups| && |old(ups)| <= |ups| && (forall w :: 0 <= w < |old(ups)| ==> ups[w].slot == old(ups)[w].slot)
      ensures forall w :: |old(ups)| <= w < |ups| ==> ups[w].slot == slot
      ensures slot in old(set w | 0 <= w < |ups| :: ups[w].slot) ==> cellOf == old(cellOf)
    {
      hide Shows, SlotsOk, Linked, Descending, OthersClosed, CellsOk;
      ghost var k := 0;
      var prev, cur := -1, open;
      FirstOf(ups, open, list);
      InList(ups, open, list, |stack|);
      while cur != -1 && ups[cur].slot > slot
        invariant unchanged(this) && 0 <= k <= |list| && cur == Nth(list, k)
        invariant prev == (if k > 0 then list[k - 1] else -1)
        invariant forall i :: 0 <= i < k ==> ups[list[i]].slot > slot
        decreases |list| - k
      {
        NextOf(ups, open, list, k);
        prev := cur;
        cur := ups[cur].next;
        k := k + 1;
      }
      CellsLength(ups, cellOf, stack, env, cells);
      if cur != -1 && ups[cur].slot == slot {
        OpenCell(ups, cellOf, stack, env, cells, cur);
        return cur;
      }
      NotCaptured(ups, open, list, |stack|, k, slot);
      u := Insert(slot, prev, cur, k);
    }

    method Insert(slot: nat, prev: int, cur: int, ghost k: nat) returns (u: nat)
      requires Valid() && slot < |stack| == |env| && k <= |list|
      requires cur == Nth(list, k) && prev == (if k > 0 then list[k - 1] else -1)
      requires (forall i :: 0 <= i < k ==> ups[list[i]].slot > slot) && (k < |list| ==> ups[list[k]].slot < slot)
      requires forall w :: 0 <= w < |ups| ==> ups[w].slot != slot
      modifies this
      ensures Valid() && u == |old(ups)| && cellOf == old(cellOf) + [old(env[slot])] && u in list
      ensures |ups| == u + 1 && ups[u].slot == slot && (forall w :: 0 <= w < u ==> ups[w].slot == old(ups)[w].slot)
      ensures stack == old(stack) && cells == old(cells) && env == old(env)
    {
      hide Shows, SlotsOk, Linked, Descending, OthersClosed, CellsOk;
      u := |ups|;
      InList(ups, open, list, |stack|);
      RelinkedMeans(ups, list, k);
      SplicedMeans(list, k, u);
      ListInsert(ups, open, list, |stack|, k, slot, stack[slot]);
      CellsRelinked(ups, Relinked(ups, list, k), cellOf, stack, env, cells);
      CellsCapture(Relinked(ups, list, k), cellOf, stack, env, cells, slot, cur);
      if prev == -1 {
        open := u;
      } else {
        ups := ups[prev := ups[prev].(next := u)];
      }
      ups := ups + [Upvalue(slot, stack[slot], cur)];
      list := Spliced(list, k, u);
      cellOf := cellOf + [env[slot]];
      assert list[k] == u;
    }

    /** Leaves the slots from `bound` on: exactly the upvalues open there are closed, with the values the slots have. */
    method CloseFrom(bound: nat)
      requires Valid() && bound <= |stack| == |env|
      modifies this
      ensures Valid() && stack == old(stack)[..bound] && env == old(env)[..bound] && cells == old(cells) && cellOf == old(cellOf)
      ensures |ups| == |old(ups)| && forall u :: 0 <= u < |ups| ==>
        ups[u].slot == if old(ups)[u].slot >= bound then -1 else old(ups)[u].slot
    {
      hide Closing, CellsOk, Linked, Descending, OthersClosed;
      ListFacts(ups, open, list, |stack|);
      StartClosing(ups, cellOf, stack, env, cells, bound);
      while open != -1 && ups[open].slot >= bound
        invariant ListOk(ups, open, list, |stack|) && Closing(ups, cellOf, stack, env, cells, bound)
        invariant -1 <= open < |ups|
        invariant stack == old(stack) && env == old(env) && cells == old(cells) && cellOf == old(cellOf) && |ups| == |old(ups)|
        invariant forall u :: 0 <= u < |ups| ==>
          ups[u].slot == old(ups)[u].slot || (ups[u].slot == -1 && old(ups)[u].slot >= bound)
        decreases |list|
      {
        ListFacts(ups, open, list, |stack|);
        CloseTop(bound);
        ListFacts(ups, open, list, |stack|);
      }
      NoneAbove(ups, open, list, |stack|, bound);
      EndClosing(ups, cellOf, stack, env, cells, bound);
      stack, env := stack[..bound], env[..bound];
    }

    method CloseTop(bound: nat)
      requires ListOk(ups, open, list, |stack|) && Closing(ups, cellOf, stack, env, cells, bound)
      requires 0 <= open < |ups| && ups[open].slot >= bound
      modifies `ups, `open, `list
      ensures ListOk(ups, open, list, |stack|) && Closing(ups, cellOf, stack, env, cells, bound) && |list| < |old(list)|
      ensures |ups| == |old(ups)| && ups == old(ups)[old(open) := ups[old(open)]] && ups[old(open)].slot == -1
    {
      hide Closing;
      var u := open;
      CloseOne(ups, cellOf, stack, env, cells, bound, u);
      ListDrop(ups, open, list, |stack|, stack[ups[u].slot]);
      open := ups[u].next;
      ups := ups[u := Upvalue(-1, stack[ups[u].slot], ups[u].next)];
      list := list[1..];
    }
  }

  lemma CellShown<V>(ups: seq<Upvalue<V>>, cellOf: seq<nat>, stack: seq<V>, env: seq<nat>, cells: seq<V>, u: nat)
    requires CellsOk(ups, cellOf, stack, env, cells) && u < |ups|
    ensures |cellOf| == |ups| && |env| == |stack| && Shows(ups[u], cellOf[u], env, cells)
  {}

  lemma ListKeeps<V>(ups: seq<Upvalue<V>>, first: int, list: seq<nat>, height: nat, u: nat, v: V)
    requires ListOk(ups, first, list, height) && u < |ups|
    ensures ListOk(ups[u := ups[u].(closed := v)], first, list, height)
  {}

  lemma CellsLength<V>(ups: seq<Upvalue<V>>, cellOf: seq<nat>, stack: seq<V>, env: seq<nat>, cells: seq<V>)
    requires CellsOk(ups, cellOf, stack, env, cells)
    ensures |cellOf| == |ups| && |env| == |stack|
  {}

  lemma EmptyMachine<V>()
    ensures ListOk<V>([], -1, [], 0) && CellsOk<V>([], [], [], [], [])
  {}

  lemma OpenCell<V>(ups: seq<Upvalue<V>>, cellOf: seq<nat>, stack: seq<V>, env: seq<nat>, cells: seq<V>, u: nat)
    requires CellsOk(ups, cellOf, stack, env, cells) && u < |ups| && ups[u].slot >= 0
    ensures ups[u].slot < |env| && cellOf[u] == env[ups[u].slot]
  {
    assert Shows(ups[u], cellOf[u], env, cells);
  }

  lemma ListFacts<V>(ups: seq<Upvalue<V>>, first: int, list: seq<nat>, height: nat)
    requires ListOk(ups, first, list, height)
    ensures -1 <= first < |ups| && (first == -1 <==> list == []) && (first != -1 ==> 0 <= ups[first].slot < height)
  {}

  lemma SlotsBelow<V>(ups: seq<Upvalue<V>>, first: int, list: seq<nat>, height: nat)
    requires ListOk(ups, first, list, height)
    ensures forall u :: 0 <= u < |ups| ==> ups[u].slot < height
  {
    forall u | 0 <= u < |ups|
      ensures ups[u].slot < height
    {
      if ups[u].slot != -1 {
        assert u in list;
      }
    }
  }

  lemma InList<V>(ups: seq<Upvalue<V>>, first: int, list: seq<nat>, height: nat)
    requires ListOk(ups, first, list, height)
    ensures forall i :: 0 <= i < |list| ==> list[i] < |ups|
  {}

  lemma NotCaptured<V>(ups: seq<Upvalue<V>>, first: int, list: seq<nat>, height: nat, k: nat, slot: nat)
    requires ListOk(ups, first, list, height) && k <= |list|
    requires (forall i :: 0 <= i < k ==> ups[list[i]].slot > slot) && (k < |list| ==> ups[list[k]].slot < slot)
    ensures forall u :: 0 <= u < |ups| ==> ups[u].slot != slot
  {
    forall u | 0 <= u < |ups|
      ensures ups[u].slot != slot
    {
      if ups[u].slot != -1 {
        assert u in list;
        var i :| 0 <= i < |list| && list[i] == u;
        assert i > k ==> ups[list[k]].slot > ups[list[i]].slot;
      }
    }
  }

  lemma NoneAbove<V>(ups: seq<Upvalue<V>>, first: int, list: seq<nat>, height: nat, bound: nat)
    requires ListOk(ups, first, list, height) && (first == -1 || (0 <= first < |ups| && ups[first].slot < bound))
    ensures ListOk(ups, first, list, bound) && forall u :: 0 <= u < |ups| ==> ups[u].slot < bound
  {
    forall i | 0 <= i < |list|
      ensures ups[list[i]].slot < bound
    {
      assert i == 0 || ups[list[0]].slot > ups[list[i]].slot;
    }
    forall u | 0 <= u < |ups|
      ensures ups[u].slot < bound
    {
      if ups[u].slot != -1 {
        assert u in list;
        var i :| 0 <= i < |list| && list[i] == u;
      }
    }
  }
}
