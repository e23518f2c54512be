/** Unsigned LEB128 integers: the byte format of every postings and positions list
    of the search index. */
module SearchVarint {

  type Byte = b: int | 0 <= b < 256

  /** `s` is what `b` holds from offset `i` on. */
  predicate At(b: seq<Byte>, i: nat, s: seq<Byte>) {
    i + |s| <= |b| && b[i..i + |s|] == s
  }

  // ----- one integer -----

  /** Seven bits a byte, low bits first; every byte but the last has its top bit set. */
  function Put(v: nat): seq<Byte> {
    if v >= 0x80 then [v % 0x80 + 0x80] + Put(v / 0x80) else [v]
  }

  /** A byte below 0x80 is found at or after `i`. */
  predicate HasVarint(b: seq<Byte>, i: nat)
    decreases |b| - i
  {
    i < |b| && (b[i] < 0x80 || HasVarint(b, i + 1))
  }

  /** The integer at offset `i` and the offset behind it. */
  function Decode(b: seq<Byte>, i: nat): (r: (nat, nat))
    requires HasVarint(b, i)
    ensures i < r.1 <= |b|
    decreases |b| - i
  {
    if b[i] < 0x80 then (b[i], i + 1)
    else var (v, j) := Decode(b, i + 1); (b[i] - 0x80 + 0x80 * v, j)
  }

  lemma {:induction false} DecodePut(b: seq<Byte>, i: nat, v: nat)
    requires At(b, i, Put(v))
    ensures HasVarint(b, i) && Decode(b, i) == (v, i + |Put(v)|)
    decreases v
  {
    assert b[i] == Put(v)[0];
    if v >= 0x80 {
      assert Put(v)[1..] == Put(v / 0x80);
      assert b[i + 1..i + 1 + |Put(v / 0x80)|] == b[i..i + |Put(v)|][1..];
      DecodePut(b, i + 1, v / 0x80);
    }
  }

  /** Seven bits shifted out, i times. */
  function Shifted(v: nat, i: nat): nat
    decreases i
  {
    if i == 0 then v else Shifted(v / 0x80, i - 1)
  }

  /** Byte i holds bits 7 i to 7 i + 6 and tells by its top bit whether there are more; as few bytes as hold the number. */
  lemma {:induction false} PutBytes(v: nat)
    ensures forall i :: 0 <= i < |Put(v)| ==>
      Put(v)[i] % 0x80 == Shifted(v, i) % 0x80 && (Put(v)[i] >= 0x80 <==> i < |Put(v)| - 1)
    ensures Shifted(v, |Put(v)|) == 0 && (|Put(v)| > 1 ==> Shifted(v, |Put(v)| - 1) != 0)
  {
    if v >= 0x80 {
      PutBytes(v / 0x80);
      forall i | 0 <= i < |Put(v)|
        ensures Put(v)[i] % 0x80 == Shifted(v, i) % 0x80 && (Put(v)[i] >= 0x80 <==> i < |Put(v)| - 1)
      {
        if i > 0 {
          assert Put(v)[i] == Put(v / 0x80)[i - 1];
        }
      }
    } else {
      assert Shifted(v, 1) == Shifted(v / 0x80, 0);
    }
  }

  method PutUvarint(b: seq<Byte>, v: nat) returns (r: seq<Byte>)
    ensures r == b + Put(v)
  {
    r := b;
    var x := v;
    while x >= 0x80
      invariant r + Put(x) == b + Put(v)
    {
      r := r + [x % 0x80 + 0x80];
      x := x / 0x80;
    }
    r := r + [x];
  }

  /** Decoding with the bits so far and the weight of the next seven carried along. */
  function DecodeAcc(b: seq<Byte>, i: nat, v: nat, scale: nat): (nat, nat)
    requires HasVarint(b, i)
    decreases |b| - i
  {
    if b[i] < 0x80 then (v + b[i] * scale, i + 1)
    else DecodeAcc(b, i + 1, v + (b[i] - 0x80) * scale, scale * 0x80)
  }

  lemma {:induction false} DecodeAccMeans(b: seq<Byte>, i: nat, v: nat, scale: nat)
    requires HasVarint(b, i)
    ensures DecodeAcc(b, i, v, scale) == (v + Decode(b, i).0 * scale, Decode(b, i).1)
    decreases |b| - i
  {
    if b[i] >= 0x80 {
      DecodeAccMeans(b, i + 1, v + (b[i] - 0x80) * scale, scale * 0x80);
      ShiftSeven(scale, b[i] - 0x80, Decode(b, i + 1).0);
    }
  }

  lemma ShiftSeven(scale: int, low: int, high: int)
    ensures (low + 0x80 * high) * scale == low * scale + high * (scale * 0x80)
  {}

  /** One byte more. */
  lemma AccStep(b: seq<Byte>, j: nat, v: nat, scale: nat)
    requires HasVarint(b, j)
    ensures j < |b| && b[j] * scale >= 0
    ensures b[j] < 0x80 ==> DecodeAcc(b, j, v, scale) == (v + b[j] * scale, j + 1)
    ensures b[j] >= 0x80 ==> (b[j] - 0x80) * scale >= 0 && HasVarint(b, j + 1)
    ensures b[j] >= 0x80 ==> DecodeAcc(b, j, v, scale) == DecodeAcc(b, j + 1, v + (b[j] - 0x80) * scale, scale * 0x80)
  {
    NotNegative(b[j], scale);
    if b[j] >= 0x80 {
      NotNegative(b[j] - 0x80, scale);
    }
  }

  lemma NotNegative(x: nat, y: nat)
    ensures x * y >= 0
  {}

  method Uvarint(b: seq<Byte>, i: nat) returns (v: nat, j: nat)
    requires HasVarint(b, i)
    ensures (v, j) == Decode(b, i)
  {
    hide DecodeAcc, Decode, HasVarint;
    AccStep(b, i, 0, 1);
    DecodeAccMeans(b, i, 0, 1);
    if b[i] < 0x80 {
      return b[i], i + 1;
    }
    v := b[i] - 0x80;
    j := i + 1;
    var scale: nat := 0x80;
    AccStep(b, j, v, scale);
    while b[j] >= 0x80
      invariant i < j < |b| && HasVarint(b, j)
      invariant DecodeAcc(b, j, v, scale) == DecodeAcc(b, i, 0, 1)
      decreases |b| - j
    {
      AccStep(b, j, v, scale);
      v := v + (b[j] - 0x80) * scale;
      scale := scale * 0x80;
      j := j + 1;
      AccStep(b, j, v, scale);
    }
    AccStep(b, j, v, scale);
    v := v + b[j] * scale;
    j := j + 1;
  }

  // ----- lists of integers -----

  function Puts(vs: seq<nat>): seq<Byte> {
    if vs == [] then [] else Put(vs[0]) + Puts(vs[1..])
  }

  lemma {:induction false} PutsConcat(xs: seq<nat>, ys: seq<nat>)
    ensures Puts(xs + ys) == Puts(xs) + Puts(ys)
  {
    if xs == [] {
      assert xs + ys == ys;
    } else {
      assert (xs + ys)[1..] == xs[1..] + ys;
      PutsConcat(xs[1..], ys);
    }
  }

  lemma PutsSnoc(xs: seq<nat>, y: nat)
    ensures Puts(xs + [y]) == Puts(xs) + Put(y)
  {
    PutsConcat(xs, [y]);
    assert Puts([y]) == Put(y);
  }

  // ----- skipping -----

  /** Bytes that end an integer among the `k` bytes from `i` on. */
  function Terminators(b: seq<Byte>, i: nat, k: nat): (c: nat)
    requires i + k <= |b|
    ensures c <= k
  {
    if k == 0 then 0
    else Terminators(b, i, k - 1) + (if b[i + k - 1] < 0x80 then 1 else 0)
  }

  predicate HasVarints(b: seq<Byte>, i: nat, n: nat)
    decreases n
  {
    n == 0 || (HasVarint(b, i) && HasVarints(b, Decode(b, i).1, n - 1))
  }

  /** The offset reached by decoding `n` integers one by one. */
  function Skip(b: seq<Byte>, i: nat, n: nat): (j: nat)
    requires HasVarints(b, i, n)
    ensures j >= i
    decreases n
  {
    if n == 0 then i else Skip(b, Decode(b, i).1, n - 1)
  }

  /** Decoding the first integer passes a byte that does not end it. */
  lemma SkipStep(b: seq<Byte>, i: nat, n: nat)
    requires n > 0 && HasVarints(b, i, n)
    ensures i < |b|
    ensures b[i] < 0x80 ==> HasVarints(b, i + 1, n - 1) && Skip(b, i, n) == Skip(b, i + 1, n - 1)
    ensures b[i] >= 0x80 ==> HasVarints(b, i + 1, n) && Skip(b, i, n) == Skip(b, i + 1, n)
  {}

  /** As long as fewer than `n` integers end among them, `k` bytes can be passed at once. */
  lemma {:induction false} SkipBytes(b: seq<Byte>, i: nat, n: nat, k: nat)
    requires i + k <= |b| && HasVarints(b, i, n) && Terminators(b, i, k) < n
    ensures HasVarints(b, i + k, n - Terminators(b, i, k))
    ensures Skip(b, i, n) == Skip(b, i + k, n - Terminators(b, i, k))
  {
    if k > 0 {
      SkipBytes(b, i, n, k - 1);
      SkipStep(b, i + k - 1, n - Terminators(b, i, k - 1));
    }
  }

  // ----- eight bytes as a word -----

  /** The k bytes from i on as a number, the first one lowest. */
  function Word(b: seq<Byte>, i: nat, k: nat): (w: nat)
    requires i + k <= |b|
    ensures w <= AllOnes(k)
    decreases k
  {
    if k == 0 then 0 else b[i] + 256 * Word(b, i + 1, k - 1)
  }

  function AllOnes(k: nat): nat {
    if k == 0 then 0 else 255 + 256 * AllOnes(k - 1)
  }

  /** The top bit of each byte. */
  function TopBits(k: nat): nat {
    if k == 0 then 0 else 128 + 256 * TopBits(k - 1)
  }

  /** The bits that both numbers have. */
  function And(x: nat, y: nat): nat {
    if x == 0 || y == 0 then 0 else 2 * And(x / 2, y / 2) + (if x % 2 == 1 && y % 2 == 1 then 1 else 0)
  }

  /** How many bits are set. */
  function Ones(x: nat): nat {
    if x == 0 then 0 else Ones(x / 2) + x % 2
  }

  lemma {:induction false} AndEven(x: nat, q: nat)
    ensures And(x, 2 * q) == 2 * And(x / 2, q)
  {}

  lemma {:induction false} AndOdd(x: nat, t: nat)
    ensures And(x, 1 + 2 * t) == 2 * And(x / 2, t) + x % 2
  {}

  /** Below the top bit of the lowest byte there is nothing. */
  lemma AndByte(x: nat, t: nat)
    ensures And(x, 128 * (1 + 2 * t)) == 128 * (2 * And(x / 256, t) + x / 128 % 2)
  {
    hide And;
    var q := 1 + 2 * t;
    AndEven(x, 64 * q);
    AndEven(x / 2, 32 * q);
    AndEven(x / 4, 16 * q);
    AndEven(x / 8, 8 * q);
    AndEven(x / 16, 4 * q);
    AndEven(x / 32, 2 * q);
    AndEven(x / 64, q);
    AndOdd(x / 128, t);
  }

  lemma {:induction false} OnesDoubled(x: nat)
    ensures Ones(2 * x) == Ones(x)
  {}

  lemma {:induction false} OnesOdd(x: nat, c: nat)
    requires c <= 1
    ensures Ones(2 * x + c) == Ones(x) + c
  {}

  lemma OnesByte(x: nat)
    ensures Ones(128 * x) == Ones(x)
  {
    hide Ones;
    OnesDoubled(64 * x);
    OnesDoubled(32 * x);
    OnesDoubled(16 * x);
    OnesDoubled(8 * x);
    OnesDoubled(4 * x);
    OnesDoubled(2 * x);
    OnesDoubled(x);
  }

  lemma {:induction false} FirstTerminator(b: seq<Byte>, i: nat, k: nat)
    requires 0 < k && i + k <= |b|
    ensures Terminators(b, i, k) == Terminators(b, i + 1, k - 1) + (if b[i] < 0x80 then 1 else 0)
  {
    if k > 1 {
      FirstTerminator(b, i, k - 1);
    }
  }

  /** The clear top bits of the bytes are those that end an integer. */
  lemma {:induction false} ClearTops(b: seq<Byte>, i: nat, k: nat)
    requires i + k <= |b|
    ensures Ones(And(AllOnes(k) - Word(b, i, k), TopBits(k))) == Terminators(b, i, k)
    decreases k
  {
    hide And, Ones;
    if k == 0 {
      NoBits();
    } else {
      ClearTops(b, i + 1, k - 1);
      FirstTerminator(b, i, k);
      var rest := AllOnes(k - 1) - Word(b, i + 1, k - 1);
      var x := AllOnes(k) - Word(b, i, k);
      AndByte(x, TopBits(k - 1));
      var c := if b[i] < 0x80 then 1 else 0;
      LowByte(255 - b[i], rest);
      var y := And(rest, TopBits(k - 1));
      OnesByte(2 * y + c);
      OnesOdd(y, c);
    }
  }

  lemma LowByte(x: nat, rest: nat)
    requires x < 256
    ensures (x + 256 * rest) / 256 == rest && (x + 256 * rest) / 128 % 2 == if x >= 128 then 1 else 0
  {}

  lemma NoBits()
    ensures Ones(And(0, 0)) == 0
  {}

  lemma CountedTops(b: seq<Byte>, i: nat)
    requires i + 8 <= |b|
    ensures Word(b, i, 8) <= 0xFFFF_FFFF_FFFF_FFFF
    ensures Ones(And(0xFFFF_FFFF_FFFF_FFFF - Word(b, i, 8), 0x8080_8080_8080_8080)) == Terminators(b, i, 8)
  {
    hide And, Ones, Word, Terminators;
    ClearTops(b, i, 8);
    EightBytes();
  }

  lemma EightBytes()
    ensures AllOnes(8) == 0xFFFF_FFFF_FFFF_FFFF && TopBits(8) == 0x8080_8080_8080_8080
  {
    assert AllOnes(2) == 0xFFFF && TopBits(2) == 0x8080;
    assert AllOnes(4) == 0xFFFF_FFFF && TopBits(4) == 0x8080_8080;
    assert AllOnes(6) == 0xFFFF_FFFF_FFFF && TopBits(6) == 0x8080_8080_8080;
  }

  /** The word loop takes eight bytes at a time, counting the clear top bits of the word;
      the rest goes byte by byte. The result is that of `n` single decodes. */
  method SkipVarints(b: seq<Byte>, i0: nat, n0: nat) returns (i: nat)
    requires HasVarints(b, i0, n0)
    ensures i == Skip(b, i0, n0)
  {
    hide And, Ones, Word, Terminators;
    i := i0;
    var n := n0;
    while n >= 8 && i + 8 <= |b|
      invariant HasVarints(b, i, n) && Skip(b, i, n) == Skip(b, i0, n0)
      decreases |b| - i
    {
      var w := Word(b, i, 8);
      var c := Ones(And(0xFFFF_FFFF_FFFF_FFFF - w, 0x8080_8080_8080_8080));
      CountedTops(b, i);
      if c >= n {
        break;
      }
      SkipBytes(b, i, n, 8);
      n := n - c;
      i := i + 8;
    }
    while n > 0
      invariant HasVarints(b, i, n) && Skip(b, i, n) == Skip(b, i0, n0)
      decreases |b| - i
    {
      SkipStep(b, i, n);
      if b[i] < 0x80 {
        n := n - 1;
      }
      i := i + 1;
    }
  }

  lemma {:induction false} SkipPuts(b: seq<Byte>, i: nat, vs: seq<nat>)
    requires At(b, i, Puts(vs))
    ensures HasVarints(b, i, |vs|) && Skip(b, i, |vs|) == i + |Puts(vs)|
    decreases |vs|
  {
    if vs != [] {
      var h, t := Put(vs[0]), Puts(vs[1..]);
      AtSplit(b, i, h, t);
      DecodePut(b, i, vs[0]);
      SkipPuts(b, i + |h|, vs[1..]);
    }
  }

  // ----- what a buffer holds -----

  lemma AtSplit(b: seq<Byte>, i: nat, s: seq<Byte>, t: seq<Byte>)
    requires At(b, i, s + t)
    ensures At(b, i, s) && At(b, i + |s|, t)
  {
    assert b[i..i + |s|] == b[i..i + |s + t|][..|s|];
    assert b[i + |s|..i + |s| + |t|] == b[i..i + |s + t|][|s|..];
  }

  lemma AtGrow(b: seq<Byte>, more: seq<Byte>, i: nat, s: seq<Byte>)
    requires At(b, i, s)
    ensures At(b + more, i, s)
  {
    assert (b + more)[i..i + |s|] == b[i..i + |s|];
  }
}
