/** Decimal integers as the commands read and write them. */
module RedisNumbers {
  import opened RedisSlots

  const MAX_INT64 := 0x7FFF_FFFF_FFFF_FFFF
  const MIN_INT64 := -0x8000_0000_0000_0000
  const MAX_UINT64 := 0xFFFF_FFFF_FFFF_FFFF

  function Digits(n: nat): (b: Bytes)
    ensures b != []
  {
    if n < 10 then [(48 + n) as Byte] else Digits(n / 10) + [(48 + n % 10) as Byte]
  }

  function Format(v: int): Bytes {
    if v < 0 then [45] + Digits(-v) else Digits(v)
  }

  predicate AllDigits(b: Bytes) {
    forall i :: 0 <= i < |b| ==> 48 <= b[i] <= 57
  }

  function ValueOf(b: Bytes): nat
    requires AllDigits(b)
  {
    if b == [] then 0 else ValueOf(b[..|b| - 1]) * 10 + (b[|b| - 1] as int - 48)
  }

  lemma {:induction false} DigitsMeans(n: nat)
    ensures AllDigits(Digits(n)) && ValueOf(Digits(n)) == n
    ensures Digits(n)[0] == 48 ==> n == 0 && |Digits(n)| == 1
  {
    if n >= 10 {
      DigitsMeans(n / 10);
      var d := Digits(n / 10);
      assert Digits(n)[..|d|] == d;
    } else {
      assert Digits(n)[..0] == [];
    }
  }

  lemma {:induction false} ValuePositive(b: Bytes)
    requires AllDigits(b) && b != [] && b[0] != 48
    ensures ValueOf(b) > 0
  {
    if |b| > 1 {
      ValuePositive(b[..|b| - 1]);
    } else {
      assert b[..0] == [];
    }
  }

  /** A digit string without leading zero is the decimal form of its value. */
  lemma {:induction false} ValueMeans(b: Bytes)
    requires AllDigits(b) && b != [] && b[0] != 48
    ensures Digits(ValueOf(b)) == b
  {
    var n := |b| - 1;
    if n == 0 {
      assert b[..0] == [] && b == [b[0]];
    } else {
      ValueMeans(b[..n]);
      ValuePositive(b[..n]);
      assert b == b[..n] + [b[n]];
      var q, d := ValueOf(b[..n]), b[n] as int - 48;
      assert (q * 10 + d) / 10 == q && (q * 10 + d) % 10 == d;
    }
  }

  lemma {:induction false} DigitsLength(n: nat, k: nat, bound: nat)
    requires n < bound && k >= 1 && Power(k, bound)
    ensures |Digits(n)| <= k
  {
    if n >= 10 {
      DigitsLength(n / 10, k - 1, bound / 10);
    }
  }

  /** p is 10 to the k. */
  predicate Power(k: nat, p: nat) {
    if k == 0 then p == 1 else p % 10 == 0 && Power(k - 1, p / 10)
  }

  lemma Format64Length(v: int)
    requires MIN_INT64 <= v <= MAX_INT64
    ensures |Format(v)| <= 20 && (v >= 0 ==> |Format(v)| <= 19)
  {
    assert Power(5, 100000);
    assert Power(10, 10000000000);
    assert Power(15, 1000000000000000);
    assert Power(19, 10000000000000000000);
    DigitsLength(if v < 0 then -v else v, 19, 10000000000000000000);
  }

  ghost predicate Represents(b: Bytes, v: int) {
    MIN_INT64 <= v <= MAX_INT64 && b == Format(v)
  }

  function Sign(b: Bytes): nat {
    if b != [] && b[0] == 45 then 1 else 0
  }

  function Signed(sign: nat, n: nat): int {
    if sign == 1 then 0 - n else n
  }

  function Abs(v: int): nat {
    if v < 0 then -v else v
  }

  lemma FormOf(b: Bytes, v: int)
    requires b == Format(v)
    ensures Sign(b) < |b| && (Sign(b) == 1 <==> v < 0) && b[Sign(b)..] == Digits(Abs(v))
    ensures AllDigits(b[Sign(b)..]) && ValueOf(b[Sign(b)..]) == Abs(v) && (b[Sign(b)] == 48 ==> |b| == 1)
  {
    DigitsMeans(Abs(v));
    assert ([45] + Digits(Abs(v)))[1..] == Digits(Abs(v));
    if v >= 0 {
      assert b[0..] == b;
    } else {
      assert Digits(Abs(v))[0] == b[1];
    }
  }

  /** The form of an integer: a minus sign if it is negative, then its decimal digits without leading zeros. */
  lemma RepresentsMeans(b: Bytes, v: int)
    ensures Represents(b, v) <==>
      && -0x8000_0000_0000_0000 <= v < 0x8000_0000_0000_0000
      && var i := if v < 0 then 1 else 0;
      && i < |b| && (v < 0 ==> b[0] == 45)
      && (forall k :: i <= k < |b| ==> 48 <= b[k] <= 57) && (b[i] == 48 ==> |b| == 1)
      && ValueOf'(b, i) == if v < 0 then -v else v
  {
    if Represents(b, v) {
      FormOf(b, v);
      SameValue(b, Sign(b));
    } else if MIN_INT64 <= v <= MAX_INT64 {
      var i := if v < 0 then 1 else 0;
      if i < |b| && (v < 0 ==> b[0] == 45) && (forall k :: i <= k < |b| ==> 48 <= b[k] <= 57) && (b[i] == 48 ==> |b| == 1) {
        assert Sign(b) == i;
        SameValue(b, i);
        if b[i] != 48 {
          FormFrom(b);
        } else {
          ZeroIs(b);
        }
      }
    }
  }

  lemma ZeroIs(b: Bytes)
    requires b == [48]
    ensures b == Format(0) && ValueOf'(b, 0) == 0
  {}

  /** The number written by the digits from place i on. */
  function ValueOf'(b: Bytes, i: nat): int
    decreases |b|
  {
    if |b| <= i then 0 else 10 * ValueOf'(b[..|b| - 1], i) + b[|b| - 1] as int - 48
  }

  lemma {:induction false} SameValue(b: Bytes, i: nat)
    requires i <= |b| && AllDigits(b[i..])
    ensures ValueOf'(b, i) == ValueOf(b[i..])
    decreases |b|
  {
    if i < |b| {
      var n := |b| - 1;
      assert b[i..][..n - i] == b[..n][i..] && b[i..][n - i] == b[n];
      assert AllDigits(b[..n][i..]);
      SameValue(b[..n], i);
    } else {
      assert b[i..] == [];
    }
  }

  /** What no integer is written as. */
  lemma NotAForm(b: Bytes)
    requires
      var i := Sign(b);
      |b| > 20 || i == |b| || !AllDigits(b[i..]) || (b[i] == 48 && |b| > 1) ||
      ValueOf(b[i..]) > (if i == 1 then 0x8000_0000_0000_0000 else MAX_INT64)
    ensures forall v :: !Represents(b, v)
  {
    forall v
      ensures !Represents(b, v)
    {
      if Represents(b, v) {
        Format64Length(v);
        FormOf(b, v);
      }
    }
  }

  lemma FormFrom(b: Bytes)
    requires var i := Sign(b); i < |b| && AllDigits(b[i..]) && b[i] != 48
    ensures var i := Sign(b); b == Format(Signed(i, ValueOf(b[i..]))) && ValueOf(b[i..]) > 0
  {
    var i := Sign(b);
    ValueMeans(b[i..]);
    ValuePositive(b[i..]);
    assert i == 1 ==> b == [45] + b[1..];
    assert i == 0 ==> b[0..] == b;
  }

  lemma {:induction false} ValueGrows(b: Bytes, k: nat)
    requires AllDigits(b) && k <= |b|
    ensures AllDigits(b[..k]) && ValueOf(b[..k]) <= ValueOf(b)
  {
    if k < |b| {
      var n := |b| - 1;
      ValueGrows(b[..n], k);
      assert b[..n][..k] == b[..k];
    } else {
      assert b[..k] == b;
    }
  }

  /** Reads digits up to the end; fails on anything else and on overflow of 64 bits. */
  method ParseDigits(b: Bytes) returns (u: nat, ok: bool)
    ensures ok <==> AllDigits(b) && ValueOf(b) <= MAX_UINT64
    ensures ok ==> u == ValueOf(b)
  {
    u := 0;
    for j := 0 to |b|
      invariant AllDigits(b[..j]) && u == ValueOf(b[..j]) <= MAX_UINT64
    {
      var d := (b[j] as int - 48) % 256;
      assert b[..j + 1][..j] == b[..j];
      if d > 9 {
        assert !(48 <= b[j] <= 57);
        return 0, false;
      }
      if u > (MAX_UINT64 - d) / 10 {
        if AllDigits(b) {
          ValueGrows(b, j + 1);
        }
        return 0, false;
      }
      u := u * 10 + d;
    }
    assert b[..|b|] == b;
    ok := true;
  }

  /** Accepts exactly the canonical decimal forms of 64-bit integers. */
  method ParseInt(b: Bytes) returns (v: int, ok: bool)
    ensures ok ==> Represents(b, v)
    ensures !ok ==> forall w :: !Represents(b, w)
  {
    hide Format, AllDigits, ValueOf;
    v, ok := 0, false;
    if |b| == 0 || |b| > 20 {
      NotAForm(b);
      return;
    }
    if |b| == 1 && b[0] == 48 {
      ZeroForm();
      return 0, true;
    }
    var i, neg := 0, false;
    if b[0] == 45 {
      neg, i := true, 1;
      if |b| == 1 {
        NotAForm(b);
        return;
      }
    }
    if b[i] < 49 || b[i] > 57 {
      if b[i] != 48 {
        FirstDigit(b[i..]);
      }
      NotAForm(b);
      return;
    }
    var u: nat;
    u, ok := ParseDigits(b[i..]);
    if !ok {
      NotAForm(b);
      return;
    }
    FormFrom(b);
    ok := false;
    if neg {
      if u > 0x8000_0000_0000_0000 {
        NotAForm(b);
        return;
      }
      return Signed(1, u), true;
    }
    if u > MAX_INT64 {
      NotAForm(b);
      return;
    }
    return u, true;
  }

  lemma FirstDigit(b: Bytes)
    requires b != [] && (b[0] < 48 || b[0] > 57)
    ensures !AllDigits(b)
  {}

  lemma ZeroForm()
    ensures Represents([48], 0)
  {}
}
