/** Instances with hidden classes, and the inline caches at property accesses. */
module LoxObjects {

  /** The keys of the fields, in the order of their slots; shapes with one more key; for many keys an index. */
  datatype Shape = Shape(keys: seq<nat>, trans: map<nat, nat>, index: map<nat, nat>)

  datatype Instance<V> = Instance(cls: nat, shape: nat, fields: seq<V>)

  /** What a place in the code remembers; -1 stands for nothing. */
  datatype Cache<M> = Cache(shape: int, newShape: int, idx: nat, cls: nat, meth: Found<M>)

  datatype Found<M> = NoMethod | IsMethod(m: M)

  datatype Named<M> = Named(name: nat, m: M)

  datatype Kind = Getting | Setting | Invoking

  /** A place in the code that accesses the property `name`. */
  datatype Site = Site(kind: Kind, name: nat)

  datatype Property<V, M> = Field(v: V) | Method(m: M) | Missing

  const INDEXED := 12

  // ----- shapes -----

  ghost predicate NoRepeats(keys: seq<nat>) {
    forall i, j :: 0 <= i < j < |keys| ==> keys[i] != keys[j]
  }

  ghost predicate IndexOf(keys: seq<nat>, name: nat, i: int) {
    if i >= 0 then i < |keys| && keys[i] == name else name !in keys
  }

  ghost predicate Indexed(s: Shape) {
    && (forall i :: 0 <= i < |s.keys| ==> s.keys[i] in s.index && s.index[s.keys[i]] == i)
    && (forall n :: n in s.index ==> s.index[n] < |s.keys| && s.keys[s.index[n]] == n)
  }

  ghost predicate ShapeOk(shapes: seq<Shape>, s: Shape) {
    && NoRepeats(s.keys) && (|s.keys| > INDEXED ==> Indexed(s))
    && (forall n :: n in s.trans ==> Extends(shapes, s.keys, n, s.trans[n]))
  }

  /** Shape t has one key more. */
  ghost predicate Extends(shapes: seq<Shape>, keys: seq<nat>, n: nat, t: int) {
    n !in keys && 0 <= t < |shapes| && shapes[t].keys == keys + [n]
  }

  ghost predicate ShapesOk(shapes: seq<Shape>) {
    shapes != [] && shapes[0].keys == [] && forall i :: 0 <= i < |shapes| ==> ShapeOk(shapes, shapes[i])
  }

  /** Shapes never change their keys. */
  ghost predicate Grown(shapes: seq<Shape>, shapes': seq<Shape>) {
    |shapes| <= |shapes'| && forall i :: 0 <= i < |shapes| ==> shapes'[i].keys == shapes[i].keys
  }

  /** The slot of a name: by the index if there is one, otherwise by looking at each key. */
  method Lookup(s: Shape, name: nat) returns (i: int)
    requires NoRepeats(s.keys) && (|s.keys| > INDEXED ==> Indexed(s))
    ensures IndexOf(s.keys, name, i) && i >= -1
  {
    if |s.keys| > INDEXED {
      if name in s.index {
        return s.index[name];
      }
      return -1;
    }
    i := 0;
    while i < |s.keys|
      invariant 0 <= i <= |s.keys| && forall j :: 0 <= j < i ==> s.keys[j] != name
    {
      if s.keys[i] == name {
        return;
      }
      i := i + 1;
    }
    i := -1;
  }

  method BuildIndex(keys: seq<nat>) returns (index: map<nat, nat>)
    requires NoRepeats(keys)
    ensures Indexed(Shape(keys, map[], index))
  {
    index := map[];
    for i := 0 to |keys|
      invariant forall j :: 0 <= j < i ==> keys[j] in index && index[keys[j]] == j
      invariant forall n :: n in index ==> index[n] < i && keys[index[n]] == n
    {
      index := index[keys[i] := i];
    }
  }

  /** The shape with one more key, made only once for each shape and key. */
  method AddKey(shapes: seq<Shape>, s: nat, name: nat) returns (shapes': seq<Shape>, t: nat)
    requires ShapesOk(shapes) && s < |shapes| && name !in shapes[s].keys
    ensures ShapesOk(shapes') && Grown(shapes, shapes') && Extends(shapes', shapes[s].keys, name, t)
  {
    assert ShapeOk(shapes, shapes[s]);
    if name in shapes[s].trans {
      return shapes, shapes[s].trans[name];
    }
    var keys := shapes[s].keys + [name];
    var index: map<nat, nat> := map[];
    if |keys| > INDEXED {
      index := BuildIndex(keys);
    }
    t := |shapes|;
    shapes' := shapes[s := shapes[s].(trans := shapes[s].trans[name := t])] + [Shape(keys, map[], index)];
    Added(shapes, s, name, index);
  }

  lemma Added(shapes: seq<Shape>, s: nat, name: nat, index: map<nat, nat>)
    requires ShapesOk(shapes) && s < |shapes| && name !in shapes[s].keys
    requires var keys := shapes[s].keys + [name]; |keys| > INDEXED ==> Indexed(Shape(keys, map[], index))
    ensures var keys, t := shapes[s].keys + [name], |shapes|;
      var shapes' := shapes[s := shapes[s].(trans := shapes[s].trans[name := t])] + [Shape(keys, map[], index)];
      ShapesOk(shapes') && Grown(shapes, shapes') && Extends(shapes', shapes[s].keys, name, t)
  {
    var keys, t := shapes[s].keys + [name], |shapes|;
    var shapes' := shapes[s := shapes[s].(trans := shapes[s].trans[name := t])] + [Shape(keys, map[], index)];
    assert Grown(shapes, shapes');
    forall i | 0 <= i < |shapes'|
      ensures ShapeOk(shapes', shapes'[i])
    {
      if i < t {
        assert ShapeOk(shapes, shapes[i]);
        forall n | n in shapes'[i].trans
          ensures Extends(shapes', shapes'[i].keys, n, shapes'[i].trans[n])
        {
          assert n in shapes[i].trans ==> Extends(shapes, shapes[i].keys, n, shapes[i].trans[n]);
        }
      } else {
        assert ShapeOk(shapes, shapes[s]);
      }
    }
  }

  // ----- objects -----

  ghost predicate InstanceOk<V, M>(shapes: seq<Shape>, classes: seq<map<nat, M>>, x: Instance<V>) {
    x.cls < |classes| && x.shape < |shapes| && |x.fields| == |shapes[x.shape].keys|
  }

  /** The fields of an object by name. */
  ghost function Fields<V>(keys: seq<nat>, vs: seq<V>): map<nat, V>
    requires |keys| == |vs|
    decreases |keys|
  {
    if keys == [] then map[] else Fields(keys[..|keys| - 1], vs[..|vs| - 1])[keys[|keys| - 1] := vs[|vs| - 1]]
  }

  lemma {:induction false} FieldAt<V>(keys: seq<nat>, vs: seq<V>, name: nat)
    requires |keys| == |vs| && NoRepeats(keys)
    ensures name in Fields(keys, vs) <==> name in keys
    ensures forall i :: 0 <= i < |keys| && keys[i] == name ==> Fields(keys, vs)[name] == vs[i]
  {
    if keys != [] {
      var n := |keys| - 1;
      FieldAt(keys[..n], vs[..n], name);
      assert keys == keys[..n] + [keys[n]];
    }
  }

  lemma {:induction false} FieldSet<V>(keys: seq<nat>, vs: seq<V>, i: nat, v: V)
    requires |keys| == |vs| && NoRepeats(keys) && i < |keys|
    ensures Fields(keys, vs[i := v]) == Fields(keys, vs)[keys[i] := v]
  {
    var n := |keys| - 1;
    if i == n {
      assert vs[i := v][..n] == vs[..n];
    } else {
      assert vs[i := v][..n] == vs[..n][i := v];
      FieldSet(keys[..n], vs[..n], i, v);
    }
  }

  lemma FieldAdd<V>(keys: seq<nat>, vs: seq<V>, name: nat, v: V)
    requires |keys| == |vs|
    ensures Fields(keys + [name], vs + [v]) == Fields(keys, vs)[name := v]
  {
    assert (keys + [name])[..|keys|] == keys && (vs + [v])[..|vs|] == vs;
  }

  /** The property of an object without any cache: a field if there is one, else a method of its class. */
  ghost function Uncached<V, M>(shapes: seq<Shape>, classes: seq<map<nat, M>>, x: Instance<V>, name: nat): Property<V, M>
    requires InstanceOk(shapes, classes, x)
  {
    var fs := Fields(shapes[x.shape].keys, x.fields);
    if name in fs then Field(fs[name])
    else if name in classes[x.cls] then Method(classes[x.cls][name])
    else Missing
  }

  /** A field of the object if it has one of that name, else a method of its class, else nothing. */
  ghost predicate PropertyIs<V, M>(keys: seq<nat>, fields: seq<V>, methods: map<nat, M>, name: nat, r: Property<V, M>) {
    && (forall j :: 0 <= j < |keys| && j < |fields| && keys[j] == name ==> r == Field(fields[j]))
    && (name !in keys && name in methods ==> r == Method(methods[name]))
    && (name !in keys && name !in methods ==> r == Missing)
  }

  lemma UncachedMeans<V, M>(shapes: seq<Shape>, classes: seq<map<nat, M>>, x: Instance<V>, name: nat)
    requires InstanceOk(shapes, classes, x) && NoRepeats(shapes[x.shape].keys)
    ensures PropertyIs(shapes[x.shape].keys, x.fields, classes[x.cls], name, Uncached(shapes, classes, x, name))
  {
    FieldAt(shapes[x.shape].keys, x.fields, name);
  }

  // ----- caches -----

  ghost predicate HasSlot(shapes: seq<Shape>, s: int, i: nat, name: nat) {
    0 <= s < |shapes| && i < |shapes[s].keys| && shapes[s].keys[i] == name
  }

  /** What a filled cache knows is true of every object of its shape, and of its class. */
  ghost predicate CacheOk<M>(shapes: seq<Shape>, classes: seq<map<nat, M>>, site: Site, c: Cache<M>) {
    c.shape >= 0 ==>
      match site.kind
      case Getting => HasSlot(shapes, c.shape, c.idx, site.name)
      case Setting =>
        if c.newShape < 0 then HasSlot(shapes, c.shape, c.idx, site.name)
        else c.shape < |shapes| && Extends(shapes, shapes[c.shape].keys, site.name, c.newShape)
      case Invoking =>
        && c.shape < |shapes| && site.name !in shapes[c.shape].keys
        && c.cls < |classes| && site.name in classes[c.cls] && c.meth == IsMethod(classes[c.cls][site.name])
  }

  lemma CacheStays<M>(shapes: seq<Shape>, shapes': seq<Shape>, classes: seq<map<nat, M>>, classes': seq<map<nat, M>>, site: Site,
                      c: Cache<M>)
    requires CacheOk(shapes, classes, site, c) && Grown(shapes, shapes') && classes <= classes'
    ensures CacheOk(shapes', classes', site, c)
  {}

  ghost predicate CachesOk<M>(shapes: seq<Shape>, classes: seq<map<nat, M>>, sites: seq<Site>, caches: seq<Cache<M>>) {
    |caches| == |sites| && forall k :: 0 <= k < |sites| ==> CacheOk(shapes, classes, sites[k], caches[k])
  }

  ghost predicate InstancesOk<V, M>(shapes: seq<Shape>, classes: seq<map<nat, M>>, insts: seq<Instance<V>>) {
    forall i :: 0 <= i < |insts| ==> InstanceOk(shapes, classes, insts[i])
  }

  lemma Stay<V, M>(shapes: seq<Shape>, shapes': seq<Shape>, classes: seq<map<nat, M>>, classes': seq<map<nat, M>>, sites: seq<Site>,
                   caches: seq<Cache<M>>, insts: seq<Instance<V>>)
    requires Grown(shapes, shapes') && classes <= classes'
    requires CachesOk(shapes, classes, sites, caches) && InstancesOk(shapes, classes, insts)
    ensures CachesOk(shapes', classes', sites, caches) && InstancesOk(shapes', classes', insts)
  {
    forall k | 0 <= k < |sites|
      ensures CacheOk(shapes', classes', sites[k], caches[k])
    {
      CacheStays(shapes, shapes', classes, classes', sites[k], caches[k]);
    }
  }

  /** No object of the class exists, and no cache knows a method of it. */
  ghost predicate Unused<V, M>(insts: seq<Instance<V>>, sites: seq<Site>, caches: seq<Cache<M>>, c: nat) {
    && (forall i :: 0 <= i < |insts| ==> insts[i].cls != c)
    && (forall k :: 0 <= k < |sites| && k < |caches| && sites[k].kind == Invoking && caches[k].shape >= 0 ==> caches[k].cls != c)
  }

  lemma NewUnused<V, M>(shapes: seq<Shape>, classes: seq<map<nat, M>>, sites: seq<Site>, caches: seq<Cache<M>>, insts: seq<Instance<V>>)
    requires CachesOk(shapes, classes, sites, caches) && InstancesOk(shapes, classes, insts)
    ensures Unused(insts, sites, caches, |classes|)
  {
    forall k | 0 <= k < |sites| && sites[k].kind == Invoking && caches[k].shape >= 0
      ensures caches[k].cls != |classes|
    {
      assert CacheOk(shapes, classes, sites[k], caches[k]);
    }
    forall i | 0 <= i < |insts|
      ensures insts[i].cls != |classes|
    {
      assert InstanceOk(shapes, classes, insts[i]);
    }
  }

  lemma UnusedStay<V, M>(shapes: seq<Shape>, classes: seq<map<nat, M>>, sites: seq<Site>, caches: seq<Cache<M>>, insts: seq<Instance<V>>,
                         c: nat, ms: map<nat, M>)
    requires CachesOk(shapes, classes, sites, caches) && InstancesOk(shapes, classes, insts) && c < |classes|
    requires Unused(insts, sites, caches, c)
    ensures CachesOk(shapes, classes[c := ms], sites, caches) && InstancesOk(shapes, classes[c := ms], insts)
  {
    forall k | 0 <= k < |sites|
      ensures CacheOk(shapes, classes[c := ms], sites[k], caches[k])
    {
      assert CacheOk(shapes, classes, sites[k], caches[k]);
    }
    forall i | 0 <= i < |insts|
      ensures InstanceOk(shapes, classes[c := ms], insts[i])
    {
      assert InstanceOk(shapes, classes, insts[i]);
    }
  }

  /** Methods added one after the other, later ones in place of earlier ones. */
  function WithMethods<M>(ms: map<nat, M>, own: seq<Named<M>>): map<nat, M> {
    if own == [] then ms else With(WithMethods(ms, own[..|own| - 1]), own[|own| - 1].name, own[|own| - 1].m)
  }

  function With<M>(ms: map<nat, M>, name: nat, m: M): map<nat, M> {
    ms[name := m]
  }

  /** No later method has the name of the j-th. */
  ghost predicate LastNamed<M>(own: seq<Named<M>>, j: nat) {
    j < |own| && forall k :: j < k < |own| ==> own[k].name != own[j].name
  }

  ghost predicate NotNamed<M>(own: seq<Named<M>>, n: nat) {
    forall j :: 0 <= j < |own| ==> own[j].name != n
  }

  /** A declared class: each name among its own methods is the last method of that name, any other name what the superclass
      has for it. */
  ghost predicate Declared<M>(ms: map<nat, M>, above: map<nat, M>, own: seq<Named<M>>) {
    && (forall j: nat :: LastNamed(own, j) ==> own[j].name in ms && ms[own[j].name] == own[j].m)
    && (forall n: nat :: NotNamed(own, n) ==> (n in ms <==> n in above) && (n in above ==> ms[n] == above[n]))
  }

  lemma {:induction false} WithMethodsMeans<M>(above: map<nat, M>, own: seq<Named<M>>)
    ensures Declared(WithMethods(above, own), above, own)
    decreases |own|
  {
    hide LastNamed, NotNamed;
    if own == [] {
      NoneNamed<M>();
    } else {
      WithMethodsMeans(above, own[..|own| - 1]);
      OneMore(WithMethods(above, own[..|own| - 1]), above, own);
    }
  }

  lemma NoneNamed<M>()
    ensures forall j: nat :: !LastNamed<M>([], j)
  {}

  lemma OneMore<M>(ms: map<nat, M>, above: map<nat, M>, own: seq<Named<M>>)
    requires own != [] && Declared(ms, above, own[..|own| - 1])
    ensures Declared(With(ms, own[|own| - 1].name, own[|own| - 1].m), above, own)
  {
    var n := |own| - 1;
    var name, less, all := own[n].name, own[..n], With(ms, own[n].name, own[n].m);
    forall j: nat | LastNamed(own, j)
      ensures own[j].name in all && all[own[j].name] == own[j].m
    {
      if j < n {
        assert LastNamed(less, j) && less[j] == own[j] && own[n].name != own[j].name;
      }
    }
    forall x: nat | NotNamed(own, x)
      ensures (x in all <==> x in above) && (x in above ==> all[x] == above[x])
    {
      assert NotNamed(less, x) && own[n].name != x;
    }
  }

  class Heap<V, M(==)> {
    var names: seq<string>
    var shapes: seq<Shape>
    var classes: seq<map<nat, M>>
    var insts: seq<Instance<V>>
    var sites: seq<Site>
    var caches: seq<Cache<M>>

    ghost predicate Valid()
      reads this
    {
      && ShapesOk(shapes) && CachesOk(shapes, classes, sites, caches) && InstancesOk(shapes, classes, insts)
      && forall i, j :: 0 <= i < j < |names| ==> names[i] != names[j]
    }

    constructor ()
      ensures Valid() && insts == [] && classes == [] && sites == []
    {
      names, shapes, classes, insts, sites, caches := [], [Shape([], map[], map[])], [], [], [], [];
    }

    /** One number for each string: names are equal exactly if their numbers are. */
    method Intern(s: string) returns (n: nat)
      requires Valid()
      modifies `names
      ensures Valid() && n < |names| && names[n] == s && old(names) <= names
    {
      hide ShapesOk, CachesOk, InstancesOk;
      n := 0;
      while n < |names|
        invariant 0 <= n <= |names| && forall i :: 0 <= i < n ==> names[i] != s
      {
        if names[n] == s {
          return;
        }
        n := n + 1;
      }
      names := names + [s];
    }

    /** Emitting a property access makes an empty cache for it. */
    method NewSite(kind: Kind, name: nat)
      requires Valid()
      modifies `sites, `caches
      ensures Valid() && sites == old(sites) + [Site(kind, name)]
    {
      hide ShapesOk, InstancesOk;
      sites, caches := sites + [Site(kind, name)], caches + [Cache(-1, -1, 0, 0, NoMethod)];
    }

    /** A new class, without methods: there can be no object of it, and no cache knows it. */
    method NewClass() returns (c: nat)
      requires Valid()
      modifies `classes
      ensures Valid() && c == |old(classes)| && classes == old(classes) + [map[]] && Unused(insts, sites, caches, c)
    {
      hide ShapesOk;
      c := |classes|;
      GrownSelf(shapes);
      Stay(shapes, shapes, classes, classes + [map[]], sites, caches, insts);
      NewUnused(shapes, classes, sites, caches, insts);
      classes := classes + [map[]];
    }

    /** The methods of the superclass are copied. */
    method Inherit(c: nat, super: nat)
      requires Valid() && c < |classes| && super < |classes| && Unused(insts, sites, caches, c)
      modifies `classes
      ensures Valid() && classes == old(classes)[c := old(classes)[c] + old(classes)[super]]
    {
      hide ShapesOk;
      Alter(c, classes[c] + classes[super]);
    }

    /** A method of the class itself, in place of one that was inherited. */
    method AddMethod(c: nat, name: nat, m: M)
      requires Valid() && c < |classes| && Unused(insts, sites, caches, c)
      modifies `classes
      ensures Valid() && |classes| == |old(classes)| && forall d :: 0 <= d < |classes| && d != c ==> classes[d] == old(classes)[d]
      ensures name in classes[c] && classes[c][name] == m
      ensures forall n :: n != name ==>
        (n in classes[c] <==> n in old(classes)[c]) && (n in classes[c] ==> classes[c][n] == old(classes)[c][n])
    {
      hide ShapesOk;
      Alter(c, With(classes[c], name, m));
    }

    /** A class that nothing knows yet may change. */
    method Alter(c: nat, ms: map<nat, M>)
      requires Valid() && c < |classes| && Unused(insts, sites, caches, c)
      modifies `classes
      ensures Valid() && classes == old(classes)[c := ms]
    {
      hide ShapesOk, CachesOk, InstancesOk, Unused;
      UnusedStay(shapes, classes, sites, caches, insts, c, ms);
      classes := classes[c := ms];
    }

    /** A class declaration, instruction by instruction. The code between the first and the last of them only reads
        variables and makes closures, so nothing is done to the heap in between. */
    method DeclareClass(super: int, own: seq<Named<M>>) returns (c: nat)
      requires Valid() && -1 <= super < |classes|
      modifies `classes
      ensures Valid() && c == |old(classes)| && old(classes) <= classes && |classes| == c + 1
      ensures Declared(classes[c], if super < 0 then map[] else old(classes)[super], own)
    {
      hide ShapesOk, CachesOk, InstancesOk, Unused;
      c := NewClass();
      if super >= 0 {
        Inherit(c, super);
        assert classes[c] == old(classes)[super];
      }
      ghost var start := classes[c];
      for i := 0 to |own|
        invariant Valid() && |classes| == c + 1 && old(classes) <= classes && Unused(insts, sites, caches, c)
        invariant classes[c] == WithMethods(start, own[..i])
      {
        assert own[..i + 1][..i] == own[..i];
        ghost var before := classes[c];
        AddMethod(c, own[i].name, own[i].m);
        assert classes[c] == With(before, own[i].name, own[i].m);
      }
      assert own[..|own|] == own;
      WithMethodsMeans(start, own);
    }

    method NewInstance(c: nat) returns (i: nat)
      requires Valid() && c < |classes|
      modifies `insts
      ensures Valid() && i == |old(insts)| && insts == old(insts) + [Instance(c, 0, [])]
      ensures Fields(shapes[0].keys, insts[i].fields) == map[]
    {
      hide CachesOk;
      i := |insts|;
      insts := insts + [Instance(c, 0, [])];
    }

    /** Reading a property: the result is the one without cache. */
    method Get(i: nat, k: nat) returns (r: Property<V, M>)
      requires Valid() && i < |insts| && k < |sites| && sites[k].kind == Getting
      modifies `caches
      ensures Valid() && InstanceOk(shapes, classes, insts[i]) && r == Uncached(shapes, classes, insts[i], sites[k].name)
      ensures PropertyIs(shapes[insts[i].shape].keys, insts[i].fields, classes[insts[i].cls], sites[k].name, r)
    {
      hide InstancesOk;
      var x, c, name := insts[i], caches[k], sites[k].name;
      OneInstance(shapes, classes, insts, i);
      assert ShapeOk(shapes, shapes[x.shape]);
      FieldAt(shapes[x.shape].keys, x.fields, name);
      UncachedMeans(shapes, classes, x, name);
      assert CacheOk(shapes, classes, sites[k], c);
      if x.shape == c.shape {
        return Field(x.fields[c.idx]);
      }
      var j := Lookup(shapes[x.shape], name);
      if j >= 0 {
        caches := caches[k := c.(shape := x.shape, idx := j)];
        return Field(x.fields[j]);
      }
      return if name in classes[x.cls] then Method(classes[x.cls][name]) else Missing;
    }

    /** Looking up what to call: a field of that name, else a method. */
    method Invoke(i: nat, k: nat) returns (r: Property<V, M>)
      requires Valid() && i < |insts| && k < |sites| && sites[k].kind == Invoking
      modifies `caches
      ensures Valid() && InstanceOk(shapes, classes, insts[i]) && r == Uncached(shapes, classes, insts[i], sites[k].name)
      ensures PropertyIs(shapes[insts[i].shape].keys, insts[i].fields, classes[insts[i].cls], sites[k].name, r)
    {
      hide InstancesOk;
      var x, c, name := insts[i], caches[k], sites[k].name;
      OneInstance(shapes, classes, insts, i);
      assert ShapeOk(shapes, shapes[x.shape]);
      FieldAt(shapes[x.shape].keys, x.fields, name);
      UncachedMeans(shapes, classes, x, name);
      assert CacheOk(shapes, classes, sites[k], c);
      if x.shape == c.shape && x.cls == c.cls {
        return Method(c.meth.m);
      }
      var j := Lookup(shapes[x.shape], name);
      if j >= 0 {
        return Field(x.fields[j]);
      }
      if name !in classes[x.cls] {
        return Missing;
      }
      var m := classes[x.cls][name];
      caches := caches[k := c.(shape := x.shape, cls := x.cls, meth := IsMethod(m))];
      return Method(m);
    }

    /** Writing a field: the object gets it, whatever the cache says; no other object changes. */
    method Set(i: nat, k: nat, v: V)
      requires Valid() && i < |insts| && k < |sites| && sites[k].kind == Setting
      modifies `caches, `insts, `shapes
      ensures Valid() && Grown(old(shapes), shapes) && |insts| == |old(insts)|
      ensures forall j :: 0 <= j < |insts| && j != i ==> insts[j] == old(insts)[j]
      ensures InstanceOk(old(shapes), classes, old(insts)[i]) && InstanceOk(shapes, classes, insts[i])
      ensures insts[i].cls == old(insts)[i].cls
      ensures Fields(shapes[insts[i].shape].keys, insts[i].fields) ==
        Fields(old(shapes)[old(insts)[i].shape].keys, old(insts)[i].fields)[sites[k].name := v]
    {
      hide InstancesOk, Fields;
      var x, c, name := insts[i], caches[k], sites[k].name;
      OneInstance(shapes, classes, insts, i);
      GrownSelf(shapes);
      assert ShapeOk(shapes, shapes[x.shape]);
      assert CacheOk(shapes, classes, sites[k], c);
      var keys := shapes[x.shape].keys;
      if x.shape == c.shape && c.newShape < 0 {
        FieldSet(keys, x.fields, c.idx, v);
        Replace(i, x.(fields := x.fields[c.idx := v]));
        return;
      }
      if x.shape == c.shape {
        FieldAdd(keys, x.fields, name, v);
        Replace(i, x.(fields := x.fields + [v], shape := c.newShape));
        return;
      }
      var j := Lookup(shapes[x.shape], name);
      if j >= 0 {
        FieldSet(keys, x.fields, j, v);
        Replace(i, x.(fields := x.fields[j := v]));
        caches := caches[k := c.(shape := x.shape, idx := j, newShape := -1)];
        return;
      }
      SetNew(i, k, v);
    }

    method Replace(i: nat, x: Instance<V>)
      requires Valid() && i < |insts| && InstanceOk(shapes, classes, x)
      modifies `insts
      ensures Valid() && insts == old(insts)[i := x]
    {
      hide ShapesOk, CachesOk;
      insts := insts[i := x];
    }

    /** A field the object did not have. */
    method SetNew(i: nat, k: nat, v: V)
      requires Valid() && i < |insts| && k < |sites| && sites[k].kind == Setting && InstanceOk(shapes, classes, insts[i])
      requires sites[k].name !in shapes[insts[i].shape].keys
      modifies `caches, `insts, `shapes
      ensures Valid() && Grown(old(shapes), shapes) && |insts| == |old(insts)| && insts == old(insts)[i := insts[i]]
      ensures InstanceOk(shapes, classes, insts[i]) && insts[i].cls == old(insts)[i].cls
      ensures Fields(shapes[insts[i].shape].keys, insts[i].fields) ==
        Fields(old(shapes)[old(insts)[i].shape].keys, old(insts)[i].fields)[sites[k].name := v]
    {
      hide InstancesOk, Fields, ShapesOk, CacheOk;
      var x, name := insts[i], sites[k].name;
      FieldAdd(shapes[x.shape].keys, x.fields, name, v);
      var shapes', t := AddKey(shapes, x.shape, name);
      Stay(shapes, shapes', classes, classes, sites, caches, insts);
      shapes := shapes';
      Replace(i, x.(fields := x.fields + [v], shape := t));
      SettingCache(shapes, classes, sites[k], x.shape, |x.fields|, t);
      var c := caches[k];
      caches := caches[k := c.(shape := x.shape, idx := |x.fields|, newShape := t)];
    }
  }

  lemma SettingCache<M>(shapes: seq<Shape>, classes: seq<map<nat, M>>, site: Site, s: nat, idx: nat, t: nat)
    requires site.kind == Setting && s < |shapes| && Extends(shapes, shapes[s].keys, site.name, t)
    ensures forall c: Cache<M> :: CacheOk(shapes, classes, site, c.(shape := s, idx := idx, newShape := t))
  {}

  lemma GrownSelf(shapes: seq<Shape>)
    ensures Grown(shapes, shapes)
  {}

  lemma OneInstance<V, M>(shapes: seq<Shape>, classes: seq<map<nat, M>>, insts: seq<Instance<V>>, i: nat)
    requires InstancesOk(shapes, classes, insts) && i < |insts|
    ensures InstanceOk(shapes, classes, insts[i])
  {}
}
