/** The request protocol: parsing as bytes arrive, whatever the reads. */
module RedisResp {
  import opened RedisSlots
  import opened RedisNumbers

  const CR: Byte := 13
  const LF: Byte := 10
  const MINUS: Byte := 45
  const STAR: Byte := 42
  const DOLLAR: Byte := 36
  const MAX_ARGS := 1048576
  const MAX_BULK := 536870912

  /** Arithmetic on 64-bit signed integers wraps around. */
  function Wrap64(x: int): int {
    var m := x % 0x1_0000_0000_0000_0000;
    if m > MAX_INT64 then m - 0x1_0000_0000_0000_0000 else m
  }

  datatype Parsed<T> = Done(value: T, next: nat) | Incomplete | Error

  // ----- an integer and CRLF -----

  /** Reading digits from i on; they began at `start`, and n is their value so far. */
  function Scan(b: Bytes, start: nat, i: nat, n: int, neg: bool): (r: Parsed<int>)
    requires start <= i <= |b| && i - start <= 19
    ensures r.Done? ==> i + 2 <= r.next <= |b|
    decreases |b| - i
  {
    if i == |b| then Incomplete
    else if b[i] == CR then
      if i + 1 >= |b| then Incomplete
      else if b[i + 1] != LF || i == start then Error
      else Done(if neg then Wrap64(-n) else n, i + 2)
    else if b[i] < 48 || b[i] > 57 || i - start > 18 then Error
    else Scan(b, start, i + 1, Wrap64(n * 10 + (b[i] as int - 48)), neg)
  }

  function ParseLine(b: Bytes, i: nat): (r: Parsed<int>)
    requires i <= |b|
    ensures r.Done? ==> i + 2 <= r.next <= |b|
  {
    if i < |b| && b[i] == MINUS then Scan(b, i + 1, i + 1, 0, true) else Scan(b, i, i, 0, false)
  }

  lemma {:induction false} ScanStable(b: Bytes, more: Bytes, start: nat, i: nat, n: int, neg: bool)
    requires start <= i <= |b| && i - start <= 19 && Scan(b, start, i, n, neg) != Incomplete
    ensures Scan(b + more, start, i, n, neg) == Scan(b, start, i, n, neg)
    decreases |b| - i
  {
    assert (b + more)[i] == b[i];
    if b[i] != CR && 48 <= b[i] <= 57 && i - start <= 18 {
      ScanStable(b, more, start, i + 1, Wrap64(n * 10 + (b[i] as int - 48)), neg);
    }
  }

  lemma LineStable(b: Bytes, more: Bytes, i: nat)
    requires i <= |b| && ParseLine(b, i) != Incomplete
    ensures ParseLine(b + more, i) == ParseLine(b, i)
  {
    if i < |b| && b[i] == MINUS {
      ScanStable(b, more, i + 1, i + 1, 0, true);
    } else {
      ScanStable(b, more, i, i, 0, false);
    }
  }

  // ----- a command -----

  function ParseBulk(b: Bytes, i: nat): (r: Parsed<Bytes>)
    requires i <= |b|
    ensures r.Done? ==> i < r.next <= |b|
  {
    if i >= |b| then Incomplete
    else if b[i] != DOLLAR then Error
    else
      match ParseLine(b, i + 1)
      case Incomplete => Incomplete
      case Error => Error
      case Done(l, j) =>
        if l < 0 || l > MAX_BULK then Error
        else if j + l + 2 > |b| then Incomplete
        else if b[j + l] != CR || b[j + l + 1] != LF then Error
        else Done(b[j..j + l], j + l + 2)
  }

  function ParseArgs(b: Bytes, i: nat, k: int, args: seq<Bytes>): (r: Parsed<seq<Bytes>>)
    requires i <= |b|
    ensures r.Done? ==> i <= r.next <= |b|
    decreases k
  {
    if k <= 0 then Done(args, i)
    else
      match ParseBulk(b, i)
      case Incomplete => Incomplete
      case Error => Error
      case Done(a, j) => ParseArgs(b, j, k - 1, args + [a])
  }

  function ParseCommand(b: Bytes): (r: Parsed<seq<Bytes>>)
    requires b != []
    ensures r.Done? ==> 0 < r.next <= |b|
  {
    if b[0] != STAR then Error
    else
      match ParseLine(b, 1)
      case Incomplete => Incomplete
      case Error => Error
      case Done(n, i) => if n > MAX_ARGS then Error else ParseArgs(b, i, n, [])
  }

  lemma BulkStable(b: Bytes, more: Bytes, i: nat)
    requires i <= |b| && ParseBulk(b, i) != Incomplete
    ensures ParseBulk(b + more, i) == ParseBulk(b, i)
  {
    if b[i] == DOLLAR {
      LineStable(b, more, i + 1);
      if ParseBulk(b, i).Done? {
        var l, j := ParseLine(b, i + 1).value, ParseLine(b, i + 1).next;
        assert (b + more)[j..j + l] == b[j..j + l];
      }
    }
  }

  lemma {:induction false} ArgsStable(b: Bytes, more: Bytes, i: nat, k: int, args: seq<Bytes>)
    requires i <= |b| && ParseArgs(b, i, k, args) != Incomplete
    ensures ParseArgs(b + more, i, k, args) == ParseArgs(b, i, k, args)
    decreases k
  {
    if k > 0 {
      BulkStable(b, more, i);
      if ParseBulk(b, i).Done? {
        ArgsStable(b, more, ParseBulk(b, i).next, k - 1, args + [ParseBulk(b, i).value]);
      }
    }
  }

  /** More bytes never change a verdict. */
  lemma CommandStable(b: Bytes, more: Bytes)
    requires b != [] && ParseCommand(b) != Incomplete
    ensures ParseCommand(b + more) == ParseCommand(b)
  {
    if b[0] == STAR {
      LineStable(b, more, 1);
      match ParseLine(b, 1)
      case Done(n, i) => if n <= MAX_ARGS { ArgsStable(b, more, i, n, []); }
      case Error =>
    }
  }

  // ----- a stream -----

  /** The commands in a buffer, what is left of it, and whether it is malformed. */
  datatype Drained = Drained(cmds: seq<seq<Bytes>>, rest: Bytes, bad: bool)

  /** Complete commands one after the other; those without arguments are skipped. */
  function Drain(b: Bytes): (d: Drained)
    ensures |d.rest| <= |b|
    decreases |b|
  {
    if b == [] then Drained([], [], false)
    else
      match ParseCommand(b)
      case Incomplete => Drained([], b, false)
      case Error => Drained([], b, true)
      case Done(args, n) =>
        var d := Drain(b[n..]);
        Drained((if args == [] then [] else [args]) + d.cmds, d.rest, d.bad)
  }

  /** What a buffer gives when more bytes follow. */
  function Continued(d: Drained, more: Bytes): Drained {
    var e := Drain(d.rest + more);
    Drained(d.cmds + e.cmds, e.rest, e.bad)
  }

  lemma Associative(a: seq<seq<Bytes>>, b: seq<seq<Bytes>>, c: seq<seq<Bytes>>)
    ensures (a + b) + c == a + (b + c)
  {}

  /** Parsing can stop after any byte and go on later. */
  lemma {:induction false} DrainMore(b: Bytes, more: Bytes)
    ensures Drain(b).bad ==> Drain(b + more).bad && Drain(b + more).cmds == Drain(b).cmds
    ensures !Drain(b).bad ==> Drain(b + more) == Continued(Drain(b), more)
    decreases |b|
  {
    hide ParseCommand;
    if b == [] {
      assert b + more == more;
    } else {
      match ParseCommand(b)
      case Incomplete =>
      case Error => CommandStable(b, more);
      case Done(args, n) =>
        CommandStable(b, more);
        assert (b + more)[n..] == b[n..] + more;
        DrainMore(b[n..], more);
        var d := Drain(b[n..]);
        Associative(if args == [] then [] else [args], d.cmds, Drain(d.rest + more).cmds);
    }
  }

  /** Reads as they arrive: each is added to what is left; nothing is read after malformed input. */
  function Serve(d: Drained, parts: seq<Bytes>): Drained
    decreases |parts|
  {
    if parts == [] || d.bad then d
    else
      Serve(Continued(d, parts[0]), parts[1..])
  }

  function Joined(parts: seq<Bytes>): Bytes {
    if parts == [] then [] else parts[0] + Joined(parts[1..])
  }

  lemma {:induction false} ServeFrom(b: Bytes, parts: seq<Bytes>)
    ensures Serve(Drain(b), parts).cmds == Drain(b + Joined(parts)).cmds
    ensures Serve(Drain(b), parts).bad == Drain(b + Joined(parts)).bad
    decreases |parts|
  {
    hide Drain, Continued;
    if parts == [] {
      assert b + [] == b;
    } else {
      DrainMore(b, Joined(parts));
      if !Drain(b).bad {
        DrainMore(b, parts[0]);
        ServeFrom(b + parts[0], parts[1..]);
        assert b + Joined(parts) == b + parts[0] + Joined(parts[1..]);
      }
    }
  }

  /** However a stream is split into reads, the same commands are executed and the same verdict is reached. */
  lemma SplitDoesNotMatter(parts: seq<Bytes>)
    ensures Serve(Drained([], [], false), parts).cmds == Drain(Joined(parts)).cmds
    ensures Serve(Drained([], [], false), parts).bad == Drain(Joined(parts)).bad
  {
    ServeFrom([], parts);
    assert [] + Joined(parts) == Joined(parts);
  }

  // ----- what numbers are read -----

  function Eval(n: int, ds: Bytes): int
    decreases |ds|
  {
    if ds == [] then n else Eval(n * 10 + (ds[0] as int - 48), ds[1..])
  }

  lemma {:induction false} EvalSnoc(n: int, ds: Bytes, x: Byte)
    ensures Eval(n, ds + [x]) == Eval(n, ds) * 10 + (x as int - 48)
    decreases |ds|
  {
    if ds == [] {
      assert (ds + [x])[1..] == [];
    } else {
      assert (ds + [x])[1..] == ds[1..] + [x];
      EvalSnoc(n * 10 + (ds[0] as int - 48), ds[1..], x);
    }
  }

  lemma {:induction false} EvalIsValue(ds: Bytes)
    requires AllDigits(ds)
    ensures Eval(0, ds) == ValueOf(ds)
  {
    if ds != [] {
      var n := |ds| - 1;
      EvalIsValue(ds[..n]);
      EvalSnoc(0, ds[..n], ds[n]);
      assert ds == ds[..n] + [ds[n]];
    }
  }

  lemma WrapStep(x: int, d: int)
    ensures Wrap64(Wrap64(x) * 10 + d) == Wrap64(x * 10 + d)
  {
    var M := 0x1_0000_0000_0000_0000;
    var k := (Wrap64(x) - x) / M;
    assert Wrap64(x) == x + k * M;
    var y := x * 10 + d;
    assert (y + (10 * k) * M) % M == y % M;
  }

  /** `ds` and CRLF stand in b from i on. */
  ghost predicate LineAt(b: Bytes, i: nat, ds: Bytes) {
    i + |ds| + 2 <= |b| && b[i..i + |ds|] == ds && b[i + |ds|] == CR && b[i + |ds| + 1] == LF
  }

  lemma {:induction false} ScanDigits(b: Bytes, start: nat, i: nat, x: int, ds: Bytes)
    requires AllDigits(ds) && LineAt(b, i, ds) && start <= i && i - start + |ds| <= 19 && (i > start || ds != [])
    ensures Scan(b, start, i, Wrap64(x), false) == Done(Wrap64(Eval(x, ds)), i + |ds| + 2)
    decreases |ds|
  {
    if ds != [] {
      assert b[i] == b[i..i + |ds|][0] == ds[0];
      WrapStep(x, ds[0] as int - 48);
      assert b[i + 1..i + 1 + |ds[1..]|] == b[i..i + |ds|][1..];
      ScanDigits(b, start, i + 1, x * 10 + (ds[0] as int - 48), ds[1..]);
    }
  }

  /** A line of up to 19 digits is read modulo 2^64: its value is right exactly if it fits 64 bits with sign. */
  lemma LineMeans(b: Bytes, i: nat, ds: Bytes)
    requires AllDigits(ds) && 1 <= |ds| <= 19 && LineAt(b, i, ds)
    ensures ParseLine(b, i) == Done(Wrap64(ValueOf(ds)), i + |ds| + 2)
    ensures ParseLine(b, i).value == ValueOf(ds) <==> ValueOf(ds) <= MAX_INT64
  {
    assert b[i] == b[i..i + |ds|][0] == ds[0];
    assert Wrap64(0) == 0;
    ScanDigits(b, i, i, 0, ds);
    EvalIsValue(ds);
  }

  /** The count is read and found too large. */
  ghost predicate CountRejected(b: Bytes) {
    |b| > 0 && ParseLine(b, 1).Done? && ParseLine(b, 1).value > MAX_ARGS
  }

  /** What becomes of a count of up to 19 digits: the command is silently empty exactly if the count is 0 or does not fit
      63 bits, it is rejected exactly if the count fits and is above the limit, and otherwise so many arguments are read. */
  lemma CountMeans(b: Bytes, ds: Bytes)
    requires b != [] && b[0] == STAR && AllDigits(ds) && 1 <= |ds| <= 19 && LineAt(b, 1, ds)
    ensures ParseCommand(b) == Done([], |ds| + 3) <==> ValueOf(ds) == 0 || ValueOf(ds) > MAX_INT64
    ensures CountRejected(b) <==> MAX_ARGS < ValueOf(ds) <= MAX_INT64
    ensures CountRejected(b) ==> ParseCommand(b) == Error
    ensures 1 <= ValueOf(ds) <= MAX_ARGS ==> ParseCommand(b) == ParseArgs(b, |ds| + 3, ValueOf(ds), [])
  {
    hide Scan, ValueOf, ParseLine;
    LineMeans(b, 1, ds);
    NineteenDigits(ds);
    var v := ValueOf(ds);
    if 1 <= v <= MAX_ARGS {
      ArgsCount(b, |ds| + 3, v, []);
    }
  }

  lemma {:induction false} ArgsCount(b: Bytes, i: nat, k: nat, args: seq<Bytes>)
    requires i <= |b|
    ensures ParseArgs(b, i, k, args).Done? ==> |ParseArgs(b, i, k, args).value| == |args| + k
    decreases k
  {
    hide ParseBulk;
    if k > 0 {
      var p := ParseBulk(b, i);
      if p.Done? {
        BulkMoves(b, i);
        ArgsCount(b, p.next, k - 1, args + [p.value]);
      }
    }
  }

  lemma BulkMoves(b: Bytes, i: nat)
    requires i <= |b|
    ensures ParseBulk(b, i).Done? ==> i < ParseBulk(b, i).next <= |b|
  {}

  lemma NineteenDigits(ds: Bytes)
    requires AllDigits(ds) && |ds| <= 19
    ensures 0 <= ValueOf(ds) < 0x1_0000_0000_0000_0000
  {
    DigitsBelow(ds, |ds|);
    assert ds[..|ds|] == ds;
    NinesGrow(|ds|, 19);
    assert AllNines(5) == 99999;
    assert AllNines(10) == 9999999999;
    assert AllNines(15) == 999999999999999;
  }

  lemma {:induction false} DigitsBelow(ds: Bytes, k: nat)
    requires AllDigits(ds) && k <= |ds|
    ensures 0 <= ValueOf(ds[..k]) <= AllNines(k)
  {
    if k > 0 {
      DigitsBelow(ds, k - 1);
      assert ds[..k][..k - 1] == ds[..k - 1];
    }
  }

  lemma {:induction false} NinesGrow(j: nat, k: nat)
    requires j <= k
    ensures AllNines(j) <= AllNines(k)
    decreases k
  {
    if j < k {
      NinesGrow(j, k - 1);
    }
  }

  /** A count of nineteen nines is read as a negative number: the command is silently empty. */
  lemma HugeCountIsEmpty()
    ensures var b: Bytes := [STAR, 57, 57, 57, 57, 57, 57, 57, 57, 57, 57, 57, 57, 57, 57, 57, 57, 57, 57, 57, CR, LF];
      ParseCommand(b) == Done([], |b|)
  {
    var ds: Bytes := [57, 57, 57, 57, 57, 57, 57, 57, 57, 57, 57, 57, 57, 57, 57, 57, 57, 57, 57];
    var b: Bytes := [STAR, 57, 57, 57, 57, 57, 57, 57, 57, 57, 57, 57, 57, 57, 57, 57, 57, 57, 57, 57, CR, LF];
    assert LineAt(b, 1, ds);
    LineMeans(b, 1, ds);
    NinesValue(ds);
  }

  lemma NinesValue(ds: Bytes)
    requires |ds| == 19 && forall i :: 0 <= i < |ds| ==> ds[i] == 57
    ensures AllDigits(ds) && ValueOf(ds) == 9999999999999999999
  {
    NinesUpTo(ds, 19);
    assert AllNines(5) == 99999;
    assert AllNines(10) == 9999999999;
    assert AllNines(15) == 999999999999999;
    assert ds[..19] == ds;
  }

  function AllNines(k: nat): nat {
    if k == 0 then 0 else AllNines(k - 1) * 10 + 9
  }

  lemma {:induction false} NinesUpTo(ds: Bytes, k: nat)
    requires k <= |ds| && forall i :: 0 <= i < |ds| ==> ds[i] == 57
    ensures AllDigits(ds[..k]) && ValueOf(ds[..k]) == AllNines(k)
  {
    if k > 0 {
      NinesUpTo(ds, k - 1);
      assert ds[..k][..k - 1] == ds[..k - 1];
    }
  }

  // ----- well-formed requests -----

  function Number(n: nat): Bytes {
    Digits(n) + [CR, LF]
  }

  function EncodeBulk(a: Bytes): Bytes {
    [DOLLAR] + Number(|a|) + a + [CR, LF]
  }

  function EncodeArgs(args: seq<Bytes>): Bytes {
    if args == [] then [] else EncodeBulk(args[0]) + EncodeArgs(args[1..])
  }

  function Encode(args: seq<Bytes>): Bytes {
    [STAR] + Number(|args|) + EncodeArgs(args)
  }

  function EncodeAll(cmds: seq<seq<Bytes>>): Bytes {
    if cmds == [] then [] else Encode(cmds[0]) + EncodeAll(cmds[1..])
  }

  ghost predicate Request(args: seq<Bytes>) {
    1 <= |args| <= MAX_ARGS && forall i :: 0 <= i < |args| ==> |args[i]| <= MAX_BULK
  }

  /** `t` stands in b from i on. */
  ghost predicate At(b: Bytes, i: nat, t: Bytes) {
    i + |t| <= |b| && b[i..i + |t|] == t
  }

  lemma AtSplit(b: Bytes, i: nat, t: Bytes, u: Bytes)
    requires At(b, i, t + u)
    ensures At(b, i, t) && At(b, i + |t|, u)
  {
    var x := b[i..i + |t + u|];
    assert b[i..i + |t|] == x[..|t|] && b[i + |t|..i + |t| + |u|] == x[|t|..];
  }

  lemma NumberRead(b: Bytes, i: nat, n: nat)
    requires At(b, i, Number(n)) && n <= MAX_INT64
    ensures ParseLine(b, i) == Done(n, i + |Number(n)|)
  {
    var ds := Digits(n);
    DigitsMeans(n);
    Format64Length(n);
    AtSplit(b, i, ds, [CR, LF]);
    var e := b[i + |ds|..i + |ds| + 2];
    assert b[i + |ds|] == e[0] && b[i + |ds| + 1] == e[1];
    LineMeans(b, i, ds);
  }

  lemma BulkRead(b: Bytes, i: nat, a: Bytes)
    requires At(b, i, EncodeBulk(a)) && |a| <= MAX_BULK
    ensures ParseBulk(b, i) == Done(a, i + |EncodeBulk(a)|)
  {
    hide ParseLine, Digits;
    var d: Bytes, e: Bytes := [DOLLAR], [CR, LF];
    assert EncodeBulk(a) == d + (Number(|a|) + (a + e));
    AtSplit(b, i, d, Number(|a|) + (a + e));
    AtSplit(b, i + 1, Number(|a|), a + e);
    AtSplit(b, i + 1 + |Number(|a|)|, a, e);
    var j := i + 1 + |Number(|a|)|;
    assert b[i] == b[i..i + 1][0];
    NumberRead(b, i + 1, |a|);
    var t := b[j + |a|..j + |a| + 2];
    assert b[j + |a|] == t[0] && b[j + |a| + 1] == t[1];
  }

  lemma {:induction false} ArgsRead(b: Bytes, i: nat, args: seq<Bytes>, before: seq<Bytes>)
    requires At(b, i, EncodeArgs(args)) && forall k :: 0 <= k < |args| ==> |args[k]| <= MAX_BULK
    ensures ParseArgs(b, i, |args|, before) == Done(before + args, i + |EncodeArgs(args)|)
    decreases |args|
  {
    hide ParseBulk, EncodeBulk;
    if args == [] {
      assert before + args == before;
    } else {
      AtSplit(b, i, EncodeBulk(args[0]), EncodeArgs(args[1..]));
      BulkRead(b, i, args[0]);
      ArgsRead(b, i + |EncodeBulk(args[0])|, args[1..], before + [args[0]]);
      assert before + [args[0]] + args[1..] == before + args;
    }
  }

  lemma CommandRead(args: seq<Bytes>, more: Bytes)
    requires Request(args)
    ensures ParseCommand(Encode(args) + more) == Done(args, |Encode(args)|)
  {
    hide ParseLine, Digits, ParseArgs, EncodeArgs;
    var b := Encode(args) + more;
    var d: Bytes := [STAR];
    assert At(b, 0, Encode(args));
    assert Encode(args) == d + (Number(|args|) + EncodeArgs(args));
    AtSplit(b, 0, d, Number(|args|) + EncodeArgs(args));
    AtSplit(b, 1, Number(|args|), EncodeArgs(args));
    NumberRead(b, 1, |args|);
    ArgsRead(b, 1 + |Number(|args|)|, args, []);
    assert [] + args == args;
    assert b[0] == d[0];
  }

  /** Requests within the limits come out as they went in. */
  lemma {:induction false} RequestsRead(cmds: seq<seq<Bytes>>)
    requires forall i :: 0 <= i < |cmds| ==> Request(cmds[i])
    ensures Drain(EncodeAll(cmds)) == Drained(cmds, [], false)
  {
    hide ParseCommand, Encode;
    if cmds != [] {
      var b, n := EncodeAll(cmds), |Encode(cmds[0])|;
      CommandRead(cmds[0], EncodeAll(cmds[1..]));
      RequestsRead(cmds[1..]);
      assert b[n..] == EncodeAll(cmds[1..]);
      assert cmds == [cmds[0]] + cmds[1..];
    }
  }

  /** Cut off anywhere, they are never reported as malformed, and the commands before the cut are executed. */
  lemma CutRequests(cmds: seq<seq<Bytes>>, n: nat)
    requires (forall i :: 0 <= i < |cmds| ==> Request(cmds[i])) && n <= |EncodeAll(cmds)|
    ensures !Drain(EncodeAll(cmds)[..n]).bad && Drain(EncodeAll(cmds)[..n]).cmds <= cmds
  {
    hide Drain, EncodeAll;
    var b := EncodeAll(cmds);
    RequestsRead(cmds);
    DrainMore(b[..n], b[n..]);
    assert b[..n] + b[n..] == b;
  }

  /** Requests within the limits reach execution in order, however their bytes are split into reads. */
  lemma RequestsServed(cmds: seq<seq<Bytes>>, parts: seq<Bytes>)
    requires (forall i :: 0 <= i < |cmds| ==> Request(cmds[i])) && Joined(parts) == EncodeAll(cmds)
    ensures Serve(Drained([], [], false), parts).cmds == cmds && !Serve(Drained([], [], false), parts).bad
  {
    SplitDoesNotMatter(parts);
    RequestsRead(cmds);
  }

  // ----- the loops -----

  method ReadLine(b: Bytes, at: nat) returns (r: Parsed<int>)
    requires at <= |b|
    ensures r == ParseLine(b, at)
  {
    var i, neg := at, false;
    if i < |b| && b[i] == MINUS {
      neg, i := true, i + 1;
    }
    var start, n := i, 0;
    while i < |b|
      invariant start <= i <= |b| && i - start <= 19
      invariant ParseLine(b, at) == Scan(b, start, i, n, neg)
    {
      var ch := b[i];
      if ch == CR {
        if i + 1 >= |b| {
          return Incomplete;
        }
        if b[i + 1] != LF || i == start {
          return Error;
        }
        return Done(if neg then Wrap64(-n) else n, i + 2);
      }
      if ch < 48 || ch > 57 || i - start > 18 {
        return Error;
      }
      n := Wrap64(n * 10 + (ch as int - 48));
      i := i + 1;
    }
    if i - start > 19 {
      return Error;
    }
    return Incomplete;
  }

  method ReadCommand(b: Bytes) returns (r: Parsed<seq<Bytes>>)
    requires b != []
    ensures r == ParseCommand(b)
  {
    hide ParseLine, Scan;
    if b[0] != STAR {
      return Error;
    }
    var line := ReadLine(b, 1);
    match line
    case Incomplete => return Incomplete;
    case Error => return Error;
    case Done(n, next) =>
      if n > MAX_ARGS {
        return Error;
      }
      var i, k, args: seq<Bytes> := next, 0, [];
      while k < n
        invariant i <= |b| && 0 <= k && (k <= n || n < 0)
        invariant ParseArgs(b, next, n, []) == ParseArgs(b, i, n - k, args)
      {
        if i >= |b| {
          return Incomplete;
        }
        if b[i] != DOLLAR {
          return Error;
        }
        var size := ReadLine(b, i + 1);
        match size {
          case Incomplete => return Incomplete;
          case Error => return Error;
          case Done(l, j) =>
            if l < 0 || l > MAX_BULK {
              return Error;
            }
            var end := j + l;
            if end + 2 > |b| {
              return Incomplete;
            }
            if b[end] != CR || b[end + 1] != LF {
              return Error;
            }
            args := args + [b[j..end]];
            i := end + 2;
        }
        k := k + 1;
      }
      return Done(args, i);
  }

  lemma DrainNone()
    ensures Drain([]) == Drained([], [], false)
  {}

  lemma DrainStep(b: Bytes, cmds: seq<seq<Bytes>>)
    requires b != []
    ensures var p := ParseCommand(b);
      && (p.Incomplete? ==> Drain(b) == Drained([], b, false) && cmds + Drain(b).cmds == cmds)
      && (p.Error? ==> Drain(b).cmds == [] && Drain(b).bad && cmds + Drain(b).cmds == cmds)
      && (p.Done? ==> Drain(b).rest == Drain(b[p.next..]).rest && Drain(b).bad == Drain(b[p.next..]).bad)
      && (p.Done? ==> cmds + Drain(b).cmds == (if |p.value| > 0 then cmds + [p.value] else cmds) + Drain(b[p.next..]).cmds)
  {
    hide ParseCommand;
  }

  const RBUF_INIT := 4096
  const RBUF_KEEP := 262144

  /** A connection's input buffer: bytes r to w are waiting. */
  class Conn {
    var rbuf: array<Byte>
    var r: nat
    var w: nat

    /** There is always room for the next read. */
    ghost predicate Valid()
      reads this
    {
      r == 0 && w < rbuf.Length
    }

    ghost function Waiting(): Bytes
      requires r <= w <= rbuf.Length
      reads this, rbuf
    {
      rbuf[r..w]
    }

    constructor ()
      ensures Valid() && Waiting() == [] && fresh(rbuf)
    {
      rbuf, r, w := new Byte[RBUF_INIT](i => 0), 0, 0;
    }

    /** Reads some bytes, at most what there is room for. */
    method Receive(bytes: Bytes)
      requires Valid() && |bytes| <= rbuf.Length - w
      modifies this`w, rbuf
      ensures r == 0 && w <= rbuf.Length && Waiting() == old(Waiting()) + bytes
    {
      ghost var was := rbuf[..w];
      for i := 0 to |bytes|
        invariant w == old(w) && rbuf[..w] == was && rbuf[w..w + i] == bytes[..i]
      {
        rbuf[w + i] := bytes[i];
        assert rbuf[w..w + i + 1] == rbuf[w..w + i] + [bytes[i]];
      }
      w := w + |bytes|;
      assert rbuf[..w] == was + bytes;
    }

    /** Parses the commands in the buffer; false if it is malformed. */
    method Process() returns (cmds: seq<seq<Bytes>>, ok: bool)
      requires r == 0 && w <= rbuf.Length && rbuf.Length > 0
      modifies this, rbuf
      ensures cmds == Drain(old(Waiting())).cmds && ok == !Drain(old(Waiting())).bad
      ensures ok ==> Valid() && Waiting() == Drain(old(Waiting())).rest
      ensures rbuf == old(rbuf) || fresh(rbuf)
    {
      cmds, ok := Execute();
      if ok {
        Compact();
      }
    }

    method Execute() returns (cmds: seq<seq<Bytes>>, ok: bool)
      requires r == 0 && w <= rbuf.Length
      modifies this`r
      ensures r <= w && cmds == Drain(old(Waiting())).cmds && ok == !Drain(old(Waiting())).bad
      ensures ok ==> Waiting() == Drain(old(Waiting())).rest
    {
      hide ParseCommand, Drain;
      ghost var all := Drain(Waiting());
      cmds := [];
      DrainNone();
      while r < w
        invariant r <= w && all.cmds == cmds + Drain(Waiting()).cmds
        invariant all.rest == Drain(Waiting()).rest && all.bad == Drain(Waiting()).bad
      {
        ghost var b := Waiting();
        var p := ReadCommand(rbuf[r..w]);
        DrainStep(b, cmds);
        match p
        case Incomplete => return cmds, true;
        case Error => return cmds, false;
        case Done(args, n) =>
          r := r + n;
          assert Waiting() == b[n..];
          if |args| > 0 {
            cmds := cmds + [args];
          }
      }
      ok := true;
    }

    /** Moves what is left to the front, and makes room. */
    method Compact()
      requires r <= w <= rbuf.Length && rbuf.Length > 0
      modifies this, rbuf
      ensures Valid() && Waiting() == old(Waiting()) && (rbuf == old(rbuf) || fresh(rbuf))
    {
      ghost var was := Waiting();
      if r == w {
        r, w := 0, 0;
        if rbuf.Length > RBUF_KEEP {
          rbuf := new Byte[RBUF_INIT](i => 0);
        }
      } else if r > 0 {
        CopyDown();
      }
      if w == rbuf.Length {
        var nb := new Byte[rbuf.Length * 2](i => 0);
        for i := 0 to w
          invariant nb.Length == rbuf.Length * 2 && w == rbuf.Length && nb[..i] == rbuf[..i] && rbuf[..w] == was && r == 0
          modifies nb
        {
          nb[i] := rbuf[i];
        }
        rbuf := nb;
      }
    }

    method CopyDown()
      requires 0 < r <= w <= rbuf.Length
      modifies this, rbuf
      ensures r == 0 && w <= rbuf.Length && rbuf == old(rbuf) && Waiting() == old(Waiting())
    {
      ghost var was := Waiting();
      for i := 0 to w - r
        invariant r == old(r) && w == old(w) && rbuf == old(rbuf)
        invariant rbuf[..i] == was[..i] && rbuf[r + i..w] == was[i..]
      {
        assert rbuf[r + i] == rbuf[r + i..w][0];
        rbuf[i] := rbuf[r + i];
        assert was[..i + 1] == was[..i] + [was[i]];
      }
      w := w - r;
      r := 0;
    }
  }
}
