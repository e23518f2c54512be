/** Memory for items: size classes, the arena shared by all shards, and each shard's free lists and bump regions. */
module RedisAlloc {
  const MAX_SMALL := 65536
  const BIG := 255
  const ARENA_CHUNK := 67108864
  const BLOCK := 65536
  const PAGE := 4096

  // ----- size classes -----

  /** Ascending multiples of 16 from 32 to the largest small size, few enough for the per-class tables. */
  ghost predicate ClassTable(sizes: seq<nat>) {
    && 0 < |sizes| <= 80 && sizes[0] == 32 && sizes[|sizes| - 1] == MAX_SMALL
    && (forall i, j :: 0 <= i < j < |sizes| ==> sizes[i] < sizes[j])
    && (forall i :: 0 <= i < |sizes| ==> sizes[i] % 16 == 0 && 32 <= sizes[i] <= MAX_SMALL)
  }

  ghost predicate Sizes(sizes: seq<nat>, s: nat) {
    && sizes != [] && sizes[0] == 32 && sizes[|sizes| - 1] == s
    && (forall i, j :: 0 <= i < j < |sizes| ==> sizes[i] < sizes[j])
    && (forall i :: 0 <= i < |sizes| ==> sizes[i] % 16 == 0 && 32 <= sizes[i])
  }

  method BuildClasses() returns (sizes: seq<nat>)
    ensures ClassTable(sizes)
  {
    sizes := [32];
    var s: nat := 32;
    while s < 256
      invariant Sizes(sizes, s) && s <= 256 && |sizes| * 16 == s - 16
    {
      s := s + 16;
      sizes := sizes + [s];
    }
    ghost var w: nat, k: nat := 1, 0;
    while s < MAX_SMALL
      invariant Sizes(sizes, s) && 256 <= s <= MAX_SMALL && |sizes| >= 15
      invariant Octave(w, k) && 256 * w <= s < 512 * w && 32 * w * (|sizes| - 15 - 8 * k) <= s - 256 * w
    {
      ghost var c := |sizes| - 15;
      s, w, k := Enlarge(s, w, k, c);
      sizes := sizes + [s];
    }
    Largest(w, k, |sizes| - 15);
  }

  /** w is 2 to the k. */
  ghost predicate Octave(w: nat, k: nat) {
    (k == 0 && w == 1) || (k == 1 && w == 2) || (k == 2 && w == 4) || (k == 3 && w == 8) || (k == 4 && w == 16) ||
    (k == 5 && w == 32) || (k == 6 && w == 64) || (k == 7 && w == 128) || (k == 8 && w == 256)
  }

  /** The next size: an eighth more, rounded up to 16. At most eight sizes fall between one power of two and the next. */
  method Enlarge(s: nat, ghost w: nat, ghost k: nat, ghost c: nat) returns (u: nat, ghost w': nat, ghost k': nat)
    requires s % 16 == 0 && 256 <= s < MAX_SMALL && Octave(w, k) && 256 * w <= s < 512 * w
    requires 32 * w * (c - 8 * k) <= s - 256 * w
    ensures s < u <= MAX_SMALL && u % 16 == 0
    ensures Octave(w', k') && 256 * w' <= u < 512 * w' && 32 * w' * (c + 1 - 8 * k') <= u - 256 * w'
  {
    u := s + s / 8;
    u := (u + 15) / 16 * 16;
    if u > MAX_SMALL {
      u := MAX_SMALL;
    }
    w', k' := if u >= 512 * w then 2 * w else w, if u >= 512 * w then k + 1 else k;
    FewPerOctave(s, w, k, c, u);
  }

  lemma FewPerOctave(s: nat, w: nat, k: nat, c: nat, u: nat)
    requires 256 <= s < MAX_SMALL && Octave(w, k) && 256 * w <= s < 512 * w
    requires 32 * w * (c - 8 * k) <= s - 256 * w
    requires s < u <= s + s / 8 + 15 && (u == MAX_SMALL || s + s / 8 <= u < MAX_SMALL)
    ensures 256 * w <= u && (u < 512 * w ==> 32 * w * (c + 1 - 8 * k) <= u - 256 * w)
    ensures u >= 512 * w ==> Octave(2 * w, k + 1) && u < 1024 * w && 64 * w * (c + 1 - 8 * (k + 1)) <= u - 512 * w
  {
  }

  lemma Largest(w: nat, k: nat, c: nat)
    requires Octave(w, k) && 256 * w <= MAX_SMALL < 512 * w && 32 * w * (c - 8 * k) <= MAX_SMALL - 256 * w
    ensures c <= 64
  {}

  /** Class c is the smallest that holds n bytes. */
  ghost predicate Smallest(sizes: seq<nat>, n: nat, c: nat) {
    c < |sizes| && n <= sizes[c] && forall d :: 0 <= d < c ==> sizes[d] < n
  }

  ghost predicate LookupTable(sizes: seq<nat>, lookup: seq<nat>) {
    |lookup| == MAX_SMALL / 16 + 1 && forall i :: 0 <= i < |lookup| ==> Smallest(sizes, i * 16, lookup[i])
  }

  method BuildLookup(sizes: seq<nat>) returns (lookup: seq<nat>)
    requires ClassTable(sizes)
    ensures LookupTable(sizes, lookup)
  {
    lookup := [];
    var ci := 0;
    for i := 0 to MAX_SMALL / 16 + 1
      invariant |lookup| == i && forall j :: 0 <= j < i ==> Smallest(sizes, j * 16, lookup[j])
      invariant ci < |sizes| && forall d :: 0 <= d < ci ==> sizes[d] < i * 16
    {
      while sizes[ci] < i * 16
        invariant ci < |sizes| && forall d :: 0 <= d < ci ==> sizes[d] < i * 16
        decreases |sizes| - ci
      {
        ci := ci + 1;
      }
      lookup := lookup + [ci];
    }
  }

  function ClassOf(lookup: seq<nat>, n: nat): nat
    requires |lookup| == MAX_SMALL / 16 + 1 && n <= MAX_SMALL
  {
    lookup[(n + 15) / 16]
  }

  /** Rounding the request up to 16 does not change which class is the smallest. */
  lemma ClassOfMeans(sizes: seq<nat>, lookup: seq<nat>, n: nat)
    requires ClassTable(sizes) && LookupTable(sizes, lookup) && n <= MAX_SMALL
    ensures Smallest(sizes, n, ClassOf(lookup, n))
  {
    var i := (n + 15) / 16;
    var c := lookup[i];
    assert Smallest(sizes, i * 16, c);
    forall d | 0 <= d < c
      ensures sizes[d] < n
    {
      assert sizes[d] < i * 16 && sizes[d] % 16 == 0;
    }
  }

  function RoundPage(n: nat): nat {
    (n + PAGE - 1) / PAGE * PAGE
  }

  // ----- address ranges -----

  datatype Region = Region(p: nat, len: nat)

  predicate Apart(a: Region, b: Region) {
    a.p + a.len <= b.p || b.p + b.len <= a.p
  }

  predicate Within(a: Region, b: Region) {
    b.p <= a.p && a.p + a.len <= b.p + b.len
  }

  ghost predicate AllApart(rs: set<Region>) {
    forall a, b :: a in rs && b in rs && a != b ==> Apart(a, b)
  }

  ghost predicate ApartFrom(r: Region, rs: set<Region>) {
    forall a :: a in rs ==> Apart(a, r)
  }

  ghost predicate InSome(r: Region, rs: set<Region>) {
    exists c :: c in rs && Within(r, c)
  }

  lemma {:induction false} SomewhereFree(rs: set<Region>) returns (p: nat)
    ensures p > 0 && forall r :: r in rs ==> r.p + r.len <= p
  {
    if rs == {} {
      p := 1;
    } else {
      var r :| r in rs;
      var q := SomewhereFree(rs - {r});
      p := if r.p + r.len < q then q else r.p + r.len;
      forall a | a in rs
        ensures a.p + a.len <= p
      {
        assert a == r || a in rs - {r};
      }
    }
  }

  /** The operating system's view: what is mapped. Mappings do not overlap and none is at address 0. */
  class Os {
    var mapped: set<Region>

    ghost predicate Valid()
      reads this
    {
      AllApart(mapped) && forall r :: r in mapped ==> r.p > 0
    }

    constructor ()
      ensures Valid() && mapped == {}
    {
      mapped := {};
    }

    /** Maps n bytes at any place where nothing is mapped. */
    method Mmap(n: nat) returns (p: nat)
      requires Valid()
      modifies this
      ensures Valid() && mapped == old(mapped) + {Region(p, n)} && p > 0
      ensures ApartFrom(Region(p, n), old(mapped))
    {
      ghost var q := SomewhereFree(mapped);
      assert q > 0 && forall r :: r in mapped ==> Apart(r, Region(q, n));
      p :| p > 0 && forall r :: r in mapped ==> Apart(r, Region(p, n));
      mapped := mapped + {Region(p, n)};
    }

    /** Unmaps a mapping; the length must be the one it was mapped with. */
    method Munmap(p: nat, n: nat)
      requires Valid() && Region(p, n) in mapped
      modifies this
      ensures Valid() && mapped == old(mapped) - {Region(p, n)}
    {
      mapped := mapped - {Region(p, n)};
    }
  }

  /** The source of blocks for all shards. */
  class Arena {
    const os: Os
    var chunks: set<Region>
    var cur: nat
    var end: nat
    ghost var given: set<Region>  // blocks handed out since the last reset

    ghost predicate Valid()
      reads this, os
    {
      && os.Valid() && chunks <= os.mapped && AllApart(given) && cur <= end
      && (forall b :: b in given ==> InSome(b, chunks) && b.p > 0)
      && (cur < end ==> cur > 0 && InSome(Region(cur, end - cur), chunks) && ApartFrom(Region(cur, end - cur), given))
    }

    constructor (o: Os)
      requires o.Valid()
      ensures Valid() && os == o && given == {} && chunks == {}
    {
      os, chunks, cur, end, given := o, {}, 0, 0, {};
    }

    method Block(n: nat) returns (p: nat)
      requires Valid() && n > 0
      modifies this, os
      ensures Valid() && given == old(given) + {Region(p, n)} && ApartFrom(Region(p, n), old(given)) && p > 0
      ensures chunks >= old(chunks) && os.mapped == old(os.mapped) + (chunks - old(chunks))
      ensures forall c :: c in chunks - old(chunks) ==> c !in old(os.mapped)
    {
      if cur + n > end {
        var size := if ARENA_CHUNK < n then n else ARENA_CHUNK;
        var at := os.Mmap(size);
        FreshChunk(chunks, old(os.mapped), given, Region(at, size));
        chunks := chunks + {Region(at, size)};
        cur, end := at, at + size;
        assert Within(Region(cur, end - cur), Region(at, size));
      }
      p := cur;
      Carve(given, chunks, cur, end, n);
      cur := cur + n;
      given := given + {Region(p, n)};
    }

    /** Unmaps everything the arena ever handed out. */
    method Reset()
      requires Valid()
      modifies this, os
      ensures Valid() && chunks == {} && given == {} && os.mapped == old(os.mapped) - old(chunks)
    {
      while chunks != {}
        invariant os.Valid() && chunks <= os.mapped && chunks <= old(chunks)
        invariant os.mapped == old(os.mapped) - (old(chunks) - chunks)
        decreases chunks
      {
        var c :| c in chunks;
        os.Munmap(c.p, c.len);
        chunks := chunks - {c};
      }
      cur, end, given := 0, 0, {};
    }
  }

  /** A new mapping overlaps no block carved from earlier chunks. */
  lemma FreshChunk(chunks: set<Region>, mapped: set<Region>, given: set<Region>, c: Region)
    requires chunks <= mapped && ApartFrom(c, mapped) && c.len > 0
    requires forall b :: b in given ==> InSome(b, chunks)
    ensures ApartFrom(c, given) && c !in mapped
    ensures forall b :: b in given ==> InSome(b, chunks + {c})
    ensures InSome(c, chunks + {c})
  {
    forall b | b in given
      ensures Apart(b, c) && InSome(b, chunks + {c})
    {
      var d :| d in chunks && Within(b, d);
      assert Apart(d, c);
    }
    assert Within(c, c);
  }

  lemma Carve(given: set<Region>, chunks: set<Region>, cur: nat, end: nat, n: nat)
    requires n > 0 && cur + n <= end && AllApart(given) && InSome(Region(cur, end - cur), chunks)
    requires ApartFrom(Region(cur, end - cur), given)
    ensures ApartFrom(Region(cur, n), given) && AllApart(given + {Region(cur, n)}) && InSome(Region(cur, n), chunks)
    ensures cur + n < end ==> InSome(Region(cur + n, end - cur - n), chunks)
    ensures ApartFrom(Region(cur + n, end - cur - n), given + {Region(cur, n)})
  {
    var c :| c in chunks && Within(Region(cur, end - cur), c);
    assert Within(Region(cur, n), c) && Within(Region(cur + n, end - cur - n), c);
    forall a | a in given
      ensures Apart(a, Region(cur, n)) && Apart(a, Region(cur + n, end - cur - n))
    {
      assert Apart(a, Region(cur, end - cur));
    }
  }

  // ----- a shard's memory -----

  datatype Bump = Bump(cur: nat, end: nat)

  /** What a piece of a block is used for: a live item, a node of a free list, or what is left to carve from. */
  datatype Role = Live | Spare(cls: nat) | Rest(cls: nat)

  /** Every piece lies in a block of this shard, and no two pieces overlap. */
  ghost predicate Pieces(owner: map<Region, Role>, blocks: set<Region>) {
    && AllApart(owner.Keys) && AllApart(blocks)
    && (forall r :: r in owner ==> r.len > 0 && r.p > 0 && InSome(r, blocks))
  }

  ghost predicate Spares(sizes: seq<nat>, free: seq<seq<nat>>, owner: map<Region, Role>) {
    && |free| == |sizes|
    && (forall c, i :: 0 <= c < |sizes| && 0 <= i < |free[c]| ==> HasRole(owner, Region(free[c][i], sizes[c]), Spare(c)))
    && (forall c, i, j :: 0 <= c < |sizes| && 0 <= i < j < |free[c]| ==> free[c][i] != free[c][j])
  }

  ghost predicate Rests(sizes: seq<nat>, bumps: seq<Bump>, owner: map<Region, Role>) {
    && |bumps| == |sizes|
    && (forall c :: 0 <= c < |sizes| ==> bumps[c].cur <= bumps[c].end)
    && (forall c :: 0 <= c < |sizes| && bumps[c].cur < bumps[c].end ==>
         HasRole(owner, Region(bumps[c].cur, bumps[c].end - bumps[c].cur), Rest(c)))
  }

  ghost predicate HasRole(owner: map<Region, Role>, r: Region, role: Role) {
    r in owner && owner[r] == role
  }

  /** Popping a node off a free list makes it live. */
  lemma TakeSpare(sizes: seq<nat>, free: seq<seq<nat>>, bumps: seq<Bump>, owner: map<Region, Role>, blocks: set<Region>, c: nat)
    requires Pieces(owner, blocks) && Spares(sizes, free, owner) && Rests(sizes, bumps, owner)
    requires c < |sizes| && free[c] != []
    ensures var n, r := |free[c]| - 1, Region(free[c][|free[c]| - 1], sizes[c]);
      && HasRole(owner, r, Spare(c)) && Pieces(owner[r := Live], blocks)
      && Spares(sizes, free[c := free[c][..n]], owner[r := Live]) && Rests(sizes, bumps, owner[r := Live])
  {
    var n, r := |free[c]| - 1, Region(free[c][|free[c]| - 1], sizes[c]);
    var free', owner' := free[c := free[c][..n]], owner[r := Live];
    assert owner'.Keys == owner.Keys;
    forall d, i | 0 <= d < |sizes| && 0 <= i < |free'[d]|
      ensures HasRole(owner', Region(free'[d][i], sizes[d]), Spare(d))
    {
      assert free'[d][i] == free[d][i];
      assert HasRole(owner, Region(free[d][i], sizes[d]), Spare(d));
    }
    forall d | 0 <= d < |sizes| && bumps[d].cur < bumps[d].end
      ensures HasRole(owner', Region(bumps[d].cur, bumps[d].end - bumps[d].cur), Rest(d))
    {
      assert HasRole(owner, Region(bumps[d].cur, bumps[d].end - bumps[d].cur), Rest(d));
    }
  }

  /** Pushing a live piece onto the free list of its class. */
  lemma GiveBack(sizes: seq<nat>, free: seq<seq<nat>>, bumps: seq<Bump>, owner: map<Region, Role>, blocks: set<Region>,
                 c: nat, p: nat)
    requires Pieces(owner, blocks) && Spares(sizes, free, owner) && Rests(sizes, bumps, owner)
    requires c < |sizes| && HasRole(owner, Region(p, sizes[c]), Live)
    ensures var owner' := owner[Region(p, sizes[c]) := Spare(c)];
      Pieces(owner', blocks) && Spares(sizes, free[c := free[c] + [p]], owner') && Rests(sizes, bumps, owner')
  {
    var r := Region(p, sizes[c]);
    var free', owner' := free[c := free[c] + [p]], owner[r := Spare(c)];
    assert owner'.Keys == owner.Keys;
    forall d, i | 0 <= d < |sizes| && 0 <= i < |free'[d]|
      ensures HasRole(owner', Region(free'[d][i], sizes[d]), Spare(d))
      ensures d == c && i < |free[c]| ==> free[c][i] != p
    {
      if d != c || i < |free[c]| {
        assert free'[d][i] == free[d][i];
        assert HasRole(owner, Region(free[d][i], sizes[d]), Spare(d));
      }
    }
    forall d | 0 <= d < |sizes| && bumps[d].cur < bumps[d].end
      ensures HasRole(owner', Region(bumps[d].cur, bumps[d].end - bumps[d].cur), Rest(d))
    {
      assert HasRole(owner, Region(bumps[d].cur, bumps[d].end - bumps[d].cur), Rest(d));
    }
  }

  lemma AddPiece(owner: map<Region, Role>, blocks: set<Region>, x: Region, role: Role)
    requires Pieces(owner, blocks) && x.len > 0 && x.p > 0 && InSome(x, blocks) && ApartFrom(x, owner.Keys)
    ensures x !in owner && Pieces(owner[x := role], blocks)
  {
    assert owner[x := role].Keys == owner.Keys + {x};
  }

  lemma DropPiece(owner: map<Region, Role>, blocks: set<Region>, x: Region)
    requires Pieces(owner, blocks)
    ensures Pieces(owner - {x}, blocks)
  {
    assert (owner - {x}).Keys == owner.Keys - {x};
  }

  lemma AddBlock(owner: map<Region, Role>, blocks: set<Region>, b: Region)
    requires Pieces(owner, blocks) && b.len > 0 && ApartFrom(b, blocks)
    ensures Pieces(owner, blocks + {b}) && ApartFrom(b, owner.Keys) && InSome(b, blocks + {b})
  {
    forall r | r in owner
      ensures Apart(r, b) && InSome(r, blocks + {b})
    {
      var k :| k in blocks && Within(r, k);
      assert Apart(k, b) && k in blocks + {b};
    }
    assert Within(b, b) && b in blocks + {b};
  }

  /** The owners when what is left of bump region c is given up for a new block. */
  ghost function Renewed(owner: map<Region, Role>, b: Bump, c: nat, block: Region): map<Region, Role> {
    (owner - {Region(b.cur, Left(b))})[block := Rest(c)]
  }

  lemma RenewedPieces(owner: map<Region, Role>, blocks: set<Region>, b: Bump, c: nat, block: Region)
    requires Pieces(owner, blocks) && block.len > 0 && block.p > 0 && ApartFrom(block, blocks)
    ensures Pieces(Renewed(owner, b, c, block), blocks + {block}) && block !in owner
  {
    hide Pieces;
    AddBlock(owner, blocks, block);
    DropPiece(owner, blocks + {block}, Region(b.cur, Left(b)));
    AddPiece(owner, blocks + {block}, block, Rest(c));
    AddPiece(owner - {Region(b.cur, Left(b))}, blocks + {block}, block, Rest(c));
  }

  /** Without what was left of the old block, with a new block in its place. */
  lemma Renew(sizes: seq<nat>, free: seq<seq<nat>>, bumps: seq<Bump>, owner: map<Region, Role>, blocks: set<Region>,
              c: nat, block: Region)
    requires Pieces(owner, blocks) && Spares(sizes, free, owner) && Rests(sizes, bumps, owner)
    requires c < |sizes| && block.len > 0 && block.p > 0 && ApartFrom(block, blocks)
    ensures var owner' := Renewed(owner, bumps[c], c, block);
      && Pieces(owner', blocks + {block}) && Spares(sizes, free, owner')
      && Rests(sizes, bumps[c := Bump(block.p, block.p + block.len)], owner') && LiveIn(owner') == LiveIn(owner)
  {
    hide Pieces, Spares, Rests, LiveIn, Renewed, HasRole;
    RestsLength(sizes, bumps, owner, free);
    var gone := Region(bumps[c].cur, Left(bumps[c]));
    NoEmptyPieces(owner, blocks);
    RenewedPieces(owner, blocks, bumps[c], c, block);
    OldRest(sizes, bumps, owner, c);
    KeptRoles(owner, bumps[c], c, block);
    KeepSpares(sizes, free, owner, Renewed(owner, bumps[c], c, block), gone, c);
    KeepRests(sizes, bumps, owner, Renewed(owner, bumps[c], c, block), gone, c, Bump(block.p, block.p + block.len));
  }

  lemma NoEmptyPieces(owner: map<Region, Role>, blocks: set<Region>)
    requires Pieces(owner, blocks)
    ensures forall r :: r in owner ==> r.len > 0
  {}

  /** Every role but that of one region is kept. */
  ghost predicate Keeps(owner: map<Region, Role>, owner': map<Region, Role>, gone: Region) {
    forall r :: r in owner && r != gone ==> HasRole(owner', r, owner[r])
  }

  lemma KeepSpares(sizes: seq<nat>, free: seq<seq<nat>>, owner: map<Region, Role>, owner': map<Region, Role>, gone: Region, c: nat)
    requires Spares(sizes, free, owner) && Keeps(owner, owner', gone) && (gone in owner ==> owner[gone] == Rest(c))
    ensures Spares(sizes, free, owner')
  {
    forall d, i | 0 <= d < |sizes| && 0 <= i < |free[d]|
      ensures HasRole(owner', Region(free[d][i], sizes[d]), Spare(d))
    {
      assert HasRole(owner, Region(free[d][i], sizes[d]), Spare(d));
    }
  }

  lemma KeepRests(sizes: seq<nat>, bumps: seq<Bump>, owner: map<Region, Role>, owner': map<Region, Role>, gone: Region,
                  c: nat, b: Bump)
    requires Rests(sizes, bumps, owner) && Keeps(owner, owner', gone) && (gone in owner ==> owner[gone] == Rest(c))
    requires c < |sizes| && b.cur <= b.end && (b.cur < b.end ==> HasRole(owner', Region(b.cur, b.end - b.cur), Rest(c)))
    ensures Rests(sizes, bumps[c := b], owner')
  {
    var bumps' := bumps[c := b];
    forall d | 0 <= d < |sizes| && bumps'[d].cur < bumps'[d].end
      ensures HasRole(owner', Region(bumps'[d].cur, bumps'[d].end - bumps'[d].cur), Rest(d))
    {
      if d != c {
        assert HasRole(owner, Region(bumps[d].cur, bumps[d].end - bumps[d].cur), Rest(d));
      }
    }
  }

  lemma KeptRoles(owner: map<Region, Role>, b: Bump, c: nat, block: Region)
    requires block !in owner
    requires var r := Region(b.cur, Left(b)); r in owner ==> owner[r] == Rest(c)
    ensures Keeps(owner, Renewed(owner, b, c, block), Region(b.cur, Left(b)))
    ensures HasRole(Renewed(owner, b, c, block), block, Rest(c))
    ensures LiveIn(Renewed(owner, b, c, block)) == LiveIn(owner)
  {}

  ghost function LiveIn(owner: map<Region, Role>): set<Region> {
    set r | r in owner && owner[r] == Live
  }

  function Left(b: Bump): nat {
    if b.cur < b.end then b.end - b.cur else 0
  }

  lemma OldRest(sizes: seq<nat>, bumps: seq<Bump>, owner: map<Region, Role>, c: nat)
    requires Rests(sizes, bumps, owner) && c < |sizes|
    requires forall r :: r in owner ==> r.len > 0
    ensures var r := Region(bumps[c].cur, Left(bumps[c])); r in owner ==> owner[r] == Rest(c)
  {
    if bumps[c].cur < bumps[c].end {
      assert HasRole(owner, Region(bumps[c].cur, bumps[c].end - bumps[c].cur), Rest(c));
    }
  }

  /** The owners after n bytes are carved from the front of bump region c. */
  ghost function Carved(owner: map<Region, Role>, b: Bump, c: nat, n: nat): map<Region, Role> {
    var o := (owner - {Region(b.cur, Left(b))})[Region(b.cur, n) := Live];
    if b.cur + n < b.end then o[Region(b.cur + n, b.end - b.cur - n) := Rest(c)] else o
  }

  lemma CarvedPieces(owner: map<Region, Role>, blocks: set<Region>, b: Bump, c: nat, n: nat)
    requires Pieces(owner, blocks) && n > 0 && b.cur + n <= b.end && HasRole(owner, Region(b.cur, b.end - b.cur), Rest(c))
    ensures Pieces(Carved(owner, b, c, n), blocks)
  {
    hide Pieces;
    var whole, head, tail := Region(b.cur, b.end - b.cur), Region(b.cur, n), Region(b.cur + n, b.end - b.cur - n);
    var o := owner - {whole};
    HalvesFit(owner, blocks, whole, n);
    DropPiece(owner, blocks, whole);
    AddPiece(o, blocks, head, Live);
    if tail.len > 0 {
      assert Apart(head, tail);
      AddPiece(o[head := Live], blocks, tail, Rest(c));
    }
  }

  lemma CarvedRoles(owner: map<Region, Role>, blocks: set<Region>, b: Bump, c: nat, n: nat)
    requires Pieces(owner, blocks) && n > 0 && b.cur + n <= b.end && HasRole(owner, Region(b.cur, b.end - b.cur), Rest(c))
    ensures Region(b.cur, n) !in LiveIn(owner)
    ensures LiveIn(Carved(owner, b, c, n)) == LiveIn(owner) + {Region(b.cur, n)}
  {
    hide Pieces, LiveIn;
    var whole, head, tail := Region(b.cur, b.end - b.cur), Region(b.cur, n), Region(b.cur + n, b.end - b.cur - n);
    HalvesFit(owner, blocks, whole, n);
    var o := owner - {whole};
    NotOwned(owner, head, whole);
    LiveDrop(owner, whole);
    LiveSet(o, head, Live);
    if tail.len > 0 {
      NotOwned(owner, tail, whole);
      LiveSet(o[head := Live], tail, Rest(c));
    }
  }

  lemma CarvedKeeps(owner: map<Region, Role>, blocks: set<Region>, b: Bump, c: nat, n: nat)
    requires Pieces(owner, blocks) && n > 0 && b.cur + n <= b.end && HasRole(owner, Region(b.cur, b.end - b.cur), Rest(c))
    ensures Keeps(owner, Carved(owner, b, c, n), Region(b.cur, b.end - b.cur))
    ensures b.cur + n < b.end ==> HasRole(Carved(owner, b, c, n), Region(b.cur + n, b.end - b.cur - n), Rest(c))
  {
    hide Pieces;
    var whole, head, tail := Region(b.cur, b.end - b.cur), Region(b.cur, n), Region(b.cur + n, b.end - b.cur - n);
    HalvesFit(owner, blocks, whole, n);
    NotOwned(owner, head, whole);
    if tail.len > 0 {
      NotOwned(owner, tail, whole);
    }
  }

  lemma LiveDrop(owner: map<Region, Role>, r: Region)
    requires r in owner && owner[r] != Live
    ensures LiveIn(owner - {r}) == LiveIn(owner)
  {}

  lemma LiveSet(owner: map<Region, Role>, r: Region, role: Role)
    requires r !in owner
    ensures r !in LiveIn(owner) && LiveIn(owner[r := role]) == if role == Live then LiveIn(owner) + {r} else LiveIn(owner)
  {}

  lemma NotOwned(owner: map<Region, Role>, r: Region, whole: Region)
    requires ApartFrom(r, owner.Keys - {whole}) && r.len > 0
    ensures r !in owner || r == whole
  {
    assert !Apart(r, r);
  }

  lemma HalvesFit(owner: map<Region, Role>, blocks: set<Region>, whole: Region, n: nat)
    requires Pieces(owner, blocks) && whole in owner && 0 < n <= whole.len
    ensures var head, tail := Region(whole.p, n), Region(whole.p + n, whole.len - n);
      && InSome(head, blocks) && InSome(tail, blocks) && head.p > 0
      && ApartFrom(head, owner.Keys - {whole}) && ApartFrom(tail, owner.Keys - {whole})
  {
    var head, tail := Region(whole.p, n), Region(whole.p + n, whole.len - n);
    var k :| k in blocks && Within(whole, k);
    assert Within(head, k) && Within(tail, k);
    forall r | r in owner && r != whole
      ensures Apart(r, head) && Apart(r, tail)
    {
      assert Apart(r, whole);
    }
  }

  lemma TakeBump(sizes: seq<nat>, free: seq<seq<nat>>, bumps: seq<Bump>, owner: map<Region, Role>, blocks: set<Region>, c: nat)
    requires Pieces(owner, blocks) && Spares(sizes, free, owner) && Rests(sizes, bumps, owner)
    requires c < |sizes| && sizes[c] > 0 && bumps[c].cur + sizes[c] <= bumps[c].end
    ensures var b, n := bumps[c], sizes[c];
      var owner', bumps' := Carved(owner, b, c, n), bumps[c := Bump(b.cur + n, b.end)];
      && Pieces(owner', blocks) && Spares(sizes, free, owner') && Rests(sizes, bumps', owner')
      && Region(b.cur, n) !in LiveIn(owner) && LiveIn(owner') == LiveIn(owner) + {Region(b.cur, n)} && b.cur > 0
  {
    hide Pieces, Spares, Rests, LiveIn, Carved;
    RestsLength(sizes, bumps, owner, free);
    var b, n := bumps[c], sizes[c];
    var whole := Region(b.cur, b.end - b.cur);
    var owner', bumps' := Carved(owner, b, c, n), bumps[c := Bump(b.cur + n, b.end)];
    WholeRest(sizes, bumps, owner, c);
    PositiveStart(owner, blocks, whole);
    CarvedPieces(owner, blocks, b, c, n);
    CarvedRoles(owner, blocks, b, c, n);
    CarvedKeeps(owner, blocks, b, c, n);
    KeepSpares(sizes, free, owner, owner', whole, c);
    KeepRests(sizes, bumps, owner, owner', whole, c, Bump(b.cur + n, b.end));
  }

  lemma WholeRest(sizes: seq<nat>, bumps: seq<Bump>, owner: map<Region, Role>, c: nat)
    requires Rests(sizes, bumps, owner) && c < |sizes| && bumps[c].cur < bumps[c].end
    ensures HasRole(owner, Region(bumps[c].cur, bumps[c].end - bumps[c].cur), Rest(c))
  {}

  lemma PositiveStart(owner: map<Region, Role>, blocks: set<Region>, r: Region)
    requires Pieces(owner, blocks) && r in owner
    ensures r.p > 0
  {}

  const HEADER := 24

  /** A shard's share of memory, and the whole. */
  datatype World = Around(given: set<Region>, chunks: set<Region>, mapped: set<Region>, blocks: set<Region>, big: set<Region>)

  /** What belongs to others is as before. */
  ghost predicate Respects(a: World, b: World) {
    && a.given - a.blocks <= b.given - b.blocks
    && a.chunks <= b.chunks && b.chunks - a.chunks !! a.mapped - a.big
    && a.mapped - a.big <= b.mapped - b.big
  }

  lemma RespectsOn(a: World, b: World, c: World)
    requires Respects(a, b) && Respects(b, c)
    ensures Respects(a, c)
  {}

  /** A shard's allocator. */
  class Pool {
    const arena: Arena
    const sizes: seq<nat>
    const lookup: seq<nat>
    var free: seq<seq<nat>>
    var bumps: seq<Bump>
    ghost var owner: map<Region, Role>
    ghost var blocks: set<Region>
    ghost var big: set<Region>  // dedicated mappings of live items

    /** What this shard has does not overlap, and is its own to give back. */
    ghost predicate Valid()
      reads this, arena, arena.os
    {
      && arena.Valid() && ClassTable(sizes) && LookupTable(sizes, lookup)
      && Pieces(owner, blocks) && Spares(sizes, free, owner) && Rests(sizes, bumps, owner)
      && blocks <= arena.given && big <= arena.os.mapped && big !! arena.chunks
    }

    ghost function LiveSet(): set<Region>
      reads this
    {
      LiveIn(owner)
    }

    constructor (a: Arena, s: seq<nat>, l: seq<nat>)
      requires a.Valid() && ClassTable(s) && LookupTable(s, l)
      ensures Valid() && arena == a && sizes == s && lookup == l && LiveSet() == {} && big == {} && blocks == {}
    {
      arena, sizes, lookup := a, s, l;
      free, bumps := seq(|s|, i => []), seq(|s|, i => Bump(0, 0));
      owner, blocks, big := map[], {}, {};
    }

    /** At least one item's worth of a block for class c. */
    method Refill(c: nat)
      requires Valid() && c < |sizes| && bumps[c].cur + sizes[c] > bumps[c].end
      modifies this, arena, arena.os
      ensures Valid() && free == old(free) && LiveSet() == old(LiveSet()) && big == old(big)
      ensures bumps[c].cur + sizes[c] <= bumps[c].end
      ensures Respects(old(World()), World())
    {
      hide Pieces, Spares, Rests, LookupTable, Arena.Valid, LiveIn, Renewed;
      var n := if BLOCK < sizes[c] * 8 then sizes[c] * 8 else BLOCK;
      ghost var was := arena.given;
      RestsLength(sizes, bumps, owner, free);
      var p := arena.Block(n);
      ApartFromSome(Region(p, n), was, blocks);
      Renew(sizes, free, bumps, owner, blocks, c, Region(p, n));
      owner, blocks := Renewed(owner, bumps[c], c, Region(p, n)), blocks + {Region(p, n)};
      bumps := bumps[c := Bump(p, p + n)];
    }

    /** The mapped region of a live item. */
    function Extent(p: nat, cls: nat, total: nat): Region {
      if cls < |sizes| then Region(p, sizes[cls]) else Region(p, RoundPage(total))
    }

    /** Memory for an item of `total` bytes: a piece of the smallest class that holds it, or a mapping of its own. */
    method Alloc(total: nat) returns (p: nat, cls: nat)
      requires Valid()
      modifies this, arena, arena.os
      ensures Valid() && p > 0
      ensures total > MAX_SMALL ==> cls == BIG && LiveSet() == old(LiveSet()) && Extent(p, cls, total) !in old(big)
      ensures total > MAX_SMALL ==> big == old(big) + {Extent(p, cls, total)}
      ensures total <= MAX_SMALL ==> Smallest(sizes, total, cls) && big == old(big) && Extent(p, cls, total) !in old(LiveSet())
      ensures total <= MAX_SMALL ==> LiveSet() == old(LiveSet()) + {Extent(p, cls, total)}
      ensures Respects(old(World()), World())
    {
      hide Pieces, Spares, Rests, LookupTable, Arena.Valid, LiveIn, Renewed, Carved, HasRole;
      if total > MAX_SMALL {
        var n := RoundPage(total);
        RoundPageMeans(total);
        ghost var was := arena.os.mapped;
        MappedOutside(arena);
        p := arena.os.Mmap(n);
        ApartFromSome(Region(p, n), was, {});
        ArenaStays(arena);
        big := big + {Region(p, n)};
        return p, BIG;
      }
      LookupLength(sizes, lookup);
      cls := ClassOf(lookup, total);
      ClassOfMeans(sizes, lookup, total);
      RestsLength(sizes, bumps, owner, free);
      if free[cls] != [] {
        var n := |free[cls]| - 1;
        p := free[cls][n];
        TakeSpare(sizes, free, bumps, owner, blocks, cls);
        free := free[cls := free[cls][..n]];
        BecomesLive(owner, blocks, Region(p, sizes[cls]), cls);
        owner := owner[Region(p, sizes[cls]) := Live];
        return;
      }
      if bumps[cls].cur + sizes[cls] > bumps[cls].end {
        Refill(cls);
        RestsLength(sizes, bumps, owner, free);
      }
      p := bumps[cls].cur;
      TakeBump(sizes, free, bumps, owner, blocks, cls);
      owner := Carved(owner, bumps[cls], cls, sizes[cls]);
      bumps := bumps[cls := Bump(p + sizes[cls], bumps[cls].end)];
    }

    ghost function World(): World
      reads this, arena, arena.os
    {
      Around(arena.given, arena.chunks, arena.os.mapped, blocks, big)
    }

    /** Drops all pieces of blocks; the arena takes the blocks back. */
    method Forget()
      requires Valid()
      modifies this
      ensures Valid() && LiveSet() == {} && blocks == {} && big == old(big)
    {
      hide Pieces, Spares, Rests, LookupTable, Arena.Valid;
      NothingOwned(sizes);
      free, bumps := seq(|sizes|, i => []), seq(|sizes|, i => Bump(0, 0));
      owner, blocks := map[], {};
    }

    /** Gives the memory of an item back; `total` is what the item's header says its size is. */
    method Free(p: nat, cls: nat, total: nat)
      requires Valid() && (cls < |sizes| || cls == BIG)
      requires cls < |sizes| ==> Extent(p, cls, total) in LiveSet()
      requires cls == BIG ==> Extent(p, cls, total) in big
      modifies this, arena.os
      ensures Valid() && Respects(old(World()), World()) && blocks == old(blocks)
      ensures arena.os.mapped == old(arena.os.mapped) - (old(big) - big)
      ensures cls < |sizes| ==> LiveSet() == old(LiveSet()) - {Extent(p, cls, total)} && big == old(big)
      ensures cls == BIG ==> LiveSet() == old(LiveSet()) && big == old(big) - {Extent(p, cls, total)}
    {
      hide Pieces, Spares, Rests, LookupTable, Arena.Valid, HasRole;
      if cls == BIG {
        MappedOutside(arena);
        arena.os.Munmap(p, RoundPage(total));
        big := big - {Region(p, RoundPage(total))};
        ArenaStays(arena);
        return;
      }
      RestsLength(sizes, bumps, owner, free);
      IsLive(owner, Region(p, sizes[cls]));
      GiveBack(sizes, free, bumps, owner, blocks, cls, p);
      free := free[cls := free[cls] + [p]];
      owner := owner[Region(p, sizes[cls]) := Spare(cls)];
    }
  }

  lemma NothingOwned(sizes: seq<nat>)
    ensures Pieces(map[], {}) && Spares(sizes, seq(|sizes|, i => []), map[]) && Rests(sizes, seq(|sizes|, i => Bump(0, 0)), map[])
  {}

  lemma LookupLength(sizes: seq<nat>, lookup: seq<nat>)
    requires LookupTable(sizes, lookup)
    ensures |lookup| == MAX_SMALL / 16 + 1
  {}

  lemma IsLive(owner: map<Region, Role>, r: Region)
    requires r in LiveIn(owner)
    ensures HasRole(owner, r, Live)
  {}

  lemma BecomesLive(owner: map<Region, Role>, blocks: set<Region>, r: Region, c: nat)
    requires HasRole(owner, r, Spare(c)) && Pieces(owner, blocks)
    ensures LiveIn(owner[r := Live]) == LiveIn(owner) + {r} && r !in LiveIn(owner) && r.p > 0
  {}

  lemma RoundPageMeans(n: nat)
    ensures n <= RoundPage(n) < n + PAGE
  {}

  /** The arena does not depend on mappings that are not its own. */
  lemma MappedOutside(arena: Arena)
    requires arena.Valid()
    ensures arena.os.Valid() && arena.chunks <= arena.os.mapped
  {}

  twostate lemma ArenaStays(arena: Arena)
    requires old(arena.Valid()) && unchanged(arena) && arena.os.Valid() && arena.chunks <= arena.os.mapped
    ensures arena.Valid()
  {}

  lemma RestsLength(sizes: seq<nat>, bumps: seq<Bump>, owner: map<Region, Role>, free: seq<seq<nat>>)
    requires Rests(sizes, bumps, owner) && Spares(sizes, free, owner)
    ensures |bumps| == |sizes| == |free| && forall c :: 0 <= c < |sizes| ==> bumps[c].cur <= bumps[c].end
  {}

  lemma ApartFromSome(r: Region, all: set<Region>, some: set<Region>)
    requires ApartFrom(r, all) && some <= all && r.len > 0
    ensures ApartFrom(r, some) && r !in all
  {
    assert !Apart(r, r);
  }
}
