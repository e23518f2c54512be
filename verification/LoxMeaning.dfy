/** What a program means, told on its statements and expressions, and that compiled code does just that. */
module LoxMeaning {
  import opened LoxVm
  import opened LoxFusion
  import opened LoxCompiler

  // ----- the meaning of a program -----

  /** What comes of evaluating or executing something: it goes on with a stack and a world, the function has returned, an
      error ends the program, or the bound on repetitions and calls was too low to tell. */
  datatype Outcome<W> = Fine(st: seq<Value>, w: W) | Gone(st: seq<Value>, w: W) | Wrong(e: Error, w: W) | Unknown

  /** The functions of the program, the world outside the stack, and where the running function has its variables. */
  datatype Setting<!W> = Setting(bodies: seq<Stmt>, sem: Sem<W>, base: nat, env: nat)

  predicate Truthy(v: Value) {
    match v
    case Nil => false
    case Bool(b) => b
    case _ => true
  }

  /** The value of an operator on two numbers, where equality and `+` are not among them. */
  function NumbersMean(op: BinOp, x: real, y: real): Value {
    match op
    case Greater => Bool(x > y)
    case GreaterEqual => Bool(x >= y)
    case Less => Bool(x < y)
    case LessEqual => Bool(x <= y)
    case Subtract => Num(x - y)
    case Multiply => Num(x * y)
    case _ => Num(if y == 0.0 then 0.0 else x / y)
  }

  /** The value of an operator. Equality takes any operands, `+` two numbers or two strings, the others numbers. */
  function OperatorMeans(op: BinOp, a: Value, b: Value): Computed {
    match op
    case Equal => Val(Bool(a == b))
    case NotEqual => Val(Bool(!(a == b)))
    case Add =>
      if a.Num? && b.Num? then Val(Num(a.n + b.n))
      else if a.Str? && b.Str? then Val(Str(a.s + b.s))
      else Bad(NotAddable)
    case _ => if a.Num? && b.Num? then Val(NumbersMean(op, a.n, b.n)) else Bad(NotNumbers)
  }

  function Drop<W>(st: seq<Value>, w: W): Outcome<W> {
    if st == [] then Wrong(Stuck, w) else Fine(st[..|st| - 1], w)
  }

  function Read<W>(x: Setting<W>, i: nat, st: seq<Value>, w: W): Outcome<W> {
    if x.base + i < |st| then Fine(st + [st[x.base + i]], w) else Wrong(Stuck, w)
  }

  /** An assignment leaves its value on the stack. */
  function Assign<W>(x: Setting<W>, i: nat, st: seq<Value>, w: W): Outcome<W> {
    if x.base + i < |st| then Fine(st[x.base + i := st[|st| - 1]], w) else Wrong(Stuck, w)
  }

  function AssignTo<W>(x: Setting<W>, g: nat, st: seq<Value>, w: W): Outcome<W> {
    if st == [] then Wrong(Stuck, w)
    else
      var p := x.sem.setGlobal(w, g, st[|st| - 1]);
      if p.Put? then Fine(st, p.w) else Wrong(p.e, w)
  }

  function Operate<W>(op: BinOp, st: seq<Value>, w: W): Outcome<W> {
    if |st| < 2 then Wrong(Stuck, w)
    else
      var c := OperatorMeans(op, st[|st| - 2], st[|st| - 1]);
      if c.Val? then Fine(st[..|st| - 2] + [c.v], w) else Wrong(c.e, w)
  }

  function ReadProperty<W>(x: Setting<W>, name: nat, site: nat, st: seq<Value>, w: W): Outcome<W> {
    if st == [] then Wrong(Stuck, w)
    else
      var g := x.sem.getProp(w, st[|st| - 1], name, site);
      if g.Got? then Fine(st[..|st| - 1] + [g.v], g.w) else Wrong(g.e, w)
  }

  /** The object lies below the value, which stays. */
  function WriteProperty<W>(x: Setting<W>, name: nat, site: nat, st: seq<Value>, w: W): Outcome<W> {
    if |st| < 2 then Wrong(Stuck, w)
    else
      var p := x.sem.setProp(w, st[|st| - 2], name, site, st[|st| - 1]);
      if p.Put? then Fine(st[..|st| - 2] + [st[|st| - 1]], p.w) else Wrong(p.e, w)
  }

  /** Calling a function: its body is executed and has to return. */
  function CallMeans<W>(x: Setting<W>, fn: nat, st: seq<Value>, w: W, fuel: nat): Outcome<W>
    decreases fuel, 4
  {
    if fn >= |x.bodies| then Wrong(Stuck, w)
    else
      match StmtMeans(x, x.bodies[fn], st, w, fuel)
      case Gone(st', w') => Fine(st', w')
      case Fine(_, w') => Wrong(Stuck, w')
      case o => o
  }

  /** Everything the world outside does, calls among it. */
  function Do<W>(x: Setting<W>, op: nat, st: seq<Value>, w: W, fuel: nat): Outcome<W>
    decreases fuel, 0
  {
    match x.sem.other(w, op, st, x.base, x.env)
    case Go(st', w') => Fine(st', w')
    case Leave(st', w') => Gone(st', w')
    case Fail(e) => Wrong(e, w)
    case Enter(fn, base, env, st', w') =>
      if fuel == 0 then Unknown else CallMeans(x.(base := base, env := env), fn, st', w', fuel - 1)
  }

  function ExprMeans<W>(x: Setting<W>, e: Expr, st: seq<Value>, w: W, fuel: nat): Outcome<W>
    decreases fuel, 1, e, 0
  {
    match e
    case Leaf(op) => Do(x, op, st, w, fuel)
    case Constant(v) => Fine(st + [v], w)
    case Local(i) => Read(x, i, st, w)
    case AssignLocal(i, r) =>
      var a := ExprMeans(x, r, st, w, fuel);
      if !a.Fine? then a else Assign(x, i, a.st, a.w)
    case AssignGlobal(g, r) =>
      var a := ExprMeans(x, r, st, w, fuel);
      if !a.Fine? then a else AssignTo(x, g, a.st, a.w)
    case AssignOther(op, r) =>
      var a := ExprMeans(x, r, st, w, fuel);
      if !a.Fine? then a else Do(x, op, a.st, a.w, fuel)
    case Unary(op, r) =>
      var a := ExprMeans(x, r, st, w, fuel);
      if !a.Fine? then a else Do(x, op, a.st, a.w, fuel)
    case Get(r, name, site) =>
      var a := ExprMeans(x, r, st, w, fuel);
      if !a.Fine? then a else ReadProperty(x, name, site, a.st, a.w)
    case Operator(op, l, r) =>
      var a := ExprMeans(x, l, st, w, fuel);
      if !a.Fine? then a
      else
        var b := ExprMeans(x, r, a.st, a.w, fuel);
        if !b.Fine? then b else Operate(op, b.st, b.w)
    case Set(l, name, site, r) =>
      var a := ExprMeans(x, l, st, w, fuel);
      if !a.Fine? then a
      else
        var b := ExprMeans(x, r, a.st, a.w, fuel);
        if !b.Fine? then b else WriteProperty(x, name, site, b.st, b.w)
    case Apply(f, args, op) =>
      var a := ExprMeans(x, f, st, w, fuel);
      if !a.Fine? then a
      else
        var b := ExprsMean(x, args, a.st, a.w, fuel);
        if !b.Fine? then b else Do(x, op, b.st, b.w, fuel)
    case And(l, r) =>
      var a := ExprMeans(x, l, st, w, fuel);
      if !a.Fine? then a
      else if a.st == [] then Wrong(Stuck, a.w)
      else if !Truthy(a.st[|a.st| - 1]) then a
      else ExprMeans(x, r, a.st[..|a.st| - 1], a.w, fuel)
    case Or(l, r) =>
      var a := ExprMeans(x, l, st, w, fuel);
      if !a.Fine? then a
      else if a.st == [] then Wrong(Stuck, a.w)
      else if Truthy(a.st[|a.st| - 1]) then a
      else ExprMeans(x, r, a.st[..|a.st| - 1], a.w, fuel)
  }

  /** Arguments are evaluated from the first to the last. */
  function ExprsMean<W>(x: Setting<W>, es: seq<Expr>, st: seq<Value>, w: W, fuel: nat): Outcome<W>
    decreases fuel, 1, es, 1
  {
    if es == [] then Fine(st, w)
    else
      var a := ExprMeans(x, es[0], st, w, fuel);
      if !a.Fine? then a else ExprsMean(x, es[1..], a.st, a.w, fuel)
  }

  function OpsMean<W>(x: Setting<W>, ops: seq<nat>, st: seq<Value>, w: W, fuel: nat): Outcome<W>
    decreases fuel, 1, |ops|
  {
    if ops == [] then Fine(st, w)
    else
      var a := Do(x, ops[0], st, w, fuel);
      if !a.Fine? then a else OpsMean(x, ops[1..], a.st, a.w, fuel)
  }

  /** Leaving a scope: each variable is dropped, or handed over to the closures that captured it. */
  function EndsMean<W>(x: Setting<W>, ends: seq<Instr>, st: seq<Value>, w: W, fuel: nat): Outcome<W>
    decreases fuel, 1, |ends|
  {
    if ends == [] then Fine(st, w)
    else
      var a := if ends[0].Other? then Do(x, ends[0].op, st, w, fuel) else Drop(st, w);
      if !a.Fine? then a else EndsMean(x, ends[1..], a.st, a.w, fuel)
  }

  function StmtMeans<W>(x: Setting<W>, s: Stmt, st: seq<Value>, w: W, fuel: nat): Outcome<W>
    decreases fuel, 3, s, 0
  {
    match s
    case Expression(e) =>
      var a := ExprMeans(x, e, st, w, fuel);
      if !a.Fine? then a else Drop(a.st, a.w)
    case Eval(e, ops) =>
      var a := ExprMeans(x, e, st, w, fuel);
      if !a.Fine? then a else OpsMean(x, ops, a.st, a.w, fuel)
    case Emit(ops) => OpsMean(x, ops, st, w, fuel)
    case Block(ss, ends) =>
      var a := StmtsMean(x, ss, st, w, fuel);
      if !a.Fine? then a else EndsMean(x, ends, a.st, a.w, fuel)
    case If(c, t, f) =>
      var a := ExprMeans(x, c, st, w, fuel);
      if !a.Fine? then a
      else if a.st == [] then Wrong(Stuck, a.w)
      else if Truthy(a.st[|a.st| - 1]) then StmtMeans(x, t, a.st[..|a.st| - 1], a.w, fuel)
      else if f.Some? then StmtMeans(x, f.value, a.st[..|a.st| - 1], a.w, fuel)
      else Fine(a.st[..|a.st| - 1], a.w)
    case While(c, body) => LoopMeans(x, Some(c), None, body, st, w, fuel)
    case For(init, cond, inc, body, ends) =>
      var a := StmtMeans(x, init, st, w, fuel);
      if !a.Fine? then a
      else
        var b := LoopMeans(x, cond, inc, body, a.st, a.w, fuel);
        if !b.Fine? then b else EndsMean(x, ends, b.st, b.w, fuel)
  }

  /** The statements of a block are executed from the first to the last. */
  function StmtsMean<W>(x: Setting<W>, ss: seq<Stmt>, st: seq<Value>, w: W, fuel: nat): Outcome<W>
    decreases fuel, 3, ss, 1
  {
    if ss == [] then Fine(st, w)
    else
      var a := StmtMeans(x, ss[0], st, w, fuel);
      if !a.Fine? then a else StmtsMean(x, ss[1..], a.st, a.w, fuel)
  }

  /** A missing condition is true. */
  function CondMeans<W>(x: Setting<W>, cond: Maybe<Expr>, st: seq<Value>, w: W, fuel: nat): Outcome<W>
    decreases fuel, 2
  {
    if cond.Some? then ExprMeans(x, cond.value, st, w, fuel) else Fine(st + [Bool(true)], w)
  }

  /** The value of the step is dropped. */
  function IncMeans<W>(x: Setting<W>, inc: Maybe<Expr>, st: seq<Value>, w: W, fuel: nat): Outcome<W>
    decreases fuel, 2
  {
    if inc.None? then Fine(st, w)
    else
      var a := ExprMeans(x, inc.value, st, w, fuel);
      if !a.Fine? then a else Drop(a.st, a.w)
  }

  /** While the condition holds: the body, then the step, and again. */
  function LoopMeans<W>(x: Setting<W>, cond: Maybe<Expr>, inc: Maybe<Expr>, body: Stmt, st: seq<Value>, w: W, fuel: nat): Outcome<W>
    decreases fuel, 3, body, 1
  {
    if fuel == 0 then Unknown
    else
      var c := CondMeans(x, cond, st, w, fuel);
      if !c.Fine? then c
      else if c.st == [] then Wrong(Stuck, c.w)
      else if !Truthy(c.st[|c.st| - 1]) then Fine(c.st[..|c.st| - 1], c.w)
      else
        var b := StmtMeans(x, body, c.st[..|c.st| - 1], c.w, fuel);
        if !b.Fine? then b
        else
          var i := IncMeans(x, inc, b.st, b.w, fuel);
          if !i.Fine? then i else LoopMeans(x, cond, inc, body, i.st, i.w, fuel - 1)
  }

  /** The program means r: within some number of repetitions and calls its first function ends with the world r.w, or with
      the error r.e. */
  ghost predicate Means<W>(bodies: seq<Stmt>, sem: Sem<W>, st: seq<Value>, w: W, r: State<W>) {
    exists fuel: nat :: Result(CallMeans(Setting(bodies, sem, 0, 0), 0, st, w, fuel), r)
  }

  ghost predicate Result<W>(o: Outcome<W>, r: State<W>) {
    (o.Fine? && r == Finished(o.w)) || (o.Wrong? && r == Failed(o.e, o.w))
  }

  // ----- operators on the plain machine -----

  lemma OperatorSame(op: BinOp, a: Value, b: Value)
    ensures Compute(op, a, b) == OperatorMeans(op, a, b)
  {
    hide NumbersMean, CompareNums, Calculate;
    if a.Num? && b.Num? && !op.Equal? && !op.NotEqual? && !op.Add? {
      NumbersSame(op, a.n, b.n);
    }
  }

  lemma NumbersSame(op: BinOp, x: real, y: real)
    requires !op.Equal? && !op.NotEqual? && !op.Add?
    ensures NumbersMean(op, x, y) == if Compares(op) then Bool(CompareNums(op, x, y)) else Num(Calculate(op, x, y))
  {}

  lemma TruthSame(v: Value)
    ensures Falsey(v) <==> !Truthy(v)
  {}

  lemma BinaryLeaves<W>(sem: Sem<W>, op: BinOp, a: Value, b: Value, base: nat, env: nat, st: seq<Value>, w: W)
    ensures var c := OperatorMeans(op, a, b);
      Exec(sem, Binary(op), base, env, st + [a, b], w) == if c.Val? then Next(st + [c.v], w) else Stop(c.e, w)
  {
    hide OperatorMeans;
    var all := st + [a, b];
    assert all[|all| - 2] == a && all[|all| - 1] == b && all[..|all| - 2] == st;
    OperatorSame(op, a, b);
  }

  /** What each operator leaves of two numbers, the right one on top. */
  lemma NumbersLeave<W>(sem: Sem<W>, x: real, y: real, base: nat, env: nat, st: seq<Value>, w: W)
    ensures var all := st + [Num(x), Num(y)];
      && Exec(sem, Binary(Less), base, env, all, w) == Next(st + [Bool(x < y)], w)
      && Exec(sem, Binary(LessEqual), base, env, all, w) == Next(st + [Bool(x <= y)], w)
      && Exec(sem, Binary(Greater), base, env, all, w) == Next(st + [Bool(y < x)], w)
      && Exec(sem, Binary(GreaterEqual), base, env, all, w) == Next(st + [Bool(y <= x)], w)
      && Exec(sem, Binary(Equal), base, env, all, w) == Next(st + [Bool(x == y)], w)
      && Exec(sem, Binary(NotEqual), base, env, all, w) == Next(st + [Bool(x != y)], w)
      && Exec(sem, Binary(Add), base, env, all, w) == Next(st + [Num(x + y)], w)
      && Exec(sem, Binary(Subtract), base, env, all, w) == Next(st + [Num(x - y)], w)
      && Exec(sem, Binary(Multiply), base, env, all, w) == Next(st + [Num(x * y)], w)
      && (y != 0.0 ==> Exec(sem, Binary(Divide), base, env, all, w) == Next(st + [Num(x / y)], w))
  {
    hide Exec;
    BinaryLeaves(sem, Less, Num(x), Num(y), base, env, st, w);
    BinaryLeaves(sem, LessEqual, Num(x), Num(y), base, env, st, w);
    BinaryLeaves(sem, Greater, Num(x), Num(y), base, env, st, w);
    BinaryLeaves(sem, GreaterEqual, Num(x), Num(y), base, env, st, w);
    BinaryLeaves(sem, Equal, Num(x), Num(y), base, env, st, w);
    BinaryLeaves(sem, NotEqual, Num(x), Num(y), base, env, st, w);
    BinaryLeaves(sem, Add, Num(x), Num(y), base, env, st, w);
    BinaryLeaves(sem, Subtract, Num(x), Num(y), base, env, st, w);
    BinaryLeaves(sem, Multiply, Num(x), Num(y), base, env, st, w);
    BinaryLeaves(sem, Divide, Num(x), Num(y), base, env, st, w);
  }

  /** What they leave of other operands: equality a truth value, `+` the joined strings, and otherwise an error. */
  lemma OthersLeave<W>(sem: Sem<W>, op: BinOp, a: Value, b: Value, base: nat, env: nat, st: seq<Value>, w: W)
    requires !(a.Num? && b.Num?)
    ensures var r := Exec(sem, Binary(op), base, env, st + [a, b], w);
      && (op.Equal? ==> r == Next(st + [Bool(a == b)], w)) && (op.NotEqual? ==> r == Next(st + [Bool(a != b)], w))
      && (op.Add? && a.Str? && b.Str? ==> r == Next(st + [Str(a.s + b.s)], w))
      && (op.Add? && !(a.Str? && b.Str?) ==> r == Stop(NotAddable, w))
      && (!op.Equal? && !op.NotEqual? && !op.Add? ==> r == Stop(NotNumbers, w))
  {
    hide Exec;
    BinaryLeaves(sem, op, a, b, base, env, st, w);
  }

  /** A conditional jump is taken exactly if the value on top is nil or false. */
  lemma JumpsOn<W>(sem: Sem<W>, v: Value, t: nat, base: nat, env: nat, st: seq<Value>, w: W)
    ensures Exec(sem, JumpIfFalse(t), base, env, st + [v], w) ==
      if v == Nil || v == Bool(false) then Goto(t, st + [v], w) else Next(st + [v], w)
    ensures Exec(sem, JumpIfFalsePop(t), base, env, st + [v], w) ==
      if v == Nil || v == Bool(false) then Goto(t, st, w) else Next(st, w)
  {
    assert (st + [v])[..|st|] == st;
  }

  // ----- running plain code -----

  ghost predicate AllScoped(bodies: seq<Stmt>) {
    forall f :: 0 <= f < |bodies| ==> Scoped(bodies[f])
  }

  /** The plain code of every function. */
  function Plain<W>(x: Setting<W>): Program {
    PlainProgram(x.bodies)
  }

  function Here<W>(x: Setting<W>, below: seq<Frame>, fn: nat, ip: nat, st: seq<Value>, w: W): State<W> {
    Running(below + [Frame(fn, ip, x.base, x.env)], st, w)
  }

  function Back<W>(below: seq<Frame>, st: seq<Value>, w: W): State<W> {
    if below == [] then Finished(w) else Running(below, st, w)
  }

  /** After n steps from s: at `to` with the stack and world of a fine outcome, back in the caller, or failed. Where the
      bound was too low, the machine has run for at least that many steps and still runs. */
  ghost predicate Gets<W>(x: Setting<W>, below: seq<Frame>, fn: nat, s: State<W>, n: nat, to: nat, fuel: nat, o: Outcome<W>) {
    var t := Run(Plain(x), x.sem, s, n);
    match o
    case Fine(st, w) => t == Here(x, below, fn, to, st, w)
    case Gone(st, w) => t == Back(below, st, w)
    case Wrong(e, w) => t == Failed(e, w)
    case Unknown => fuel <= n && t.Running?
  }

  /** `code` stands at `at` in function fn. */
  ghost predicate Placed<W>(x: Setting<W>, fn: nat, at: nat, code: seq<Instr>) {
    && fn < |x.bodies| && at + |code| <= |Plain(x)[fn]|
    && Plain(x)[fn][at..at + |code|] == code
  }

  lemma SliceOf(p: seq<Instr>, at: nat, all: seq<Instr>, i: nat, j: nat)
    requires i <= j <= |all| && at + |all| <= |p| && p[at..at + |all|] == all
    ensures p[at + i..at + j] == all[i..j]
  {
    var part := p[at + i..at + j];
    forall k | 0 <= k < j - i
      ensures part[k] == all[i..j][k]
    {
      assert p[at..at + |all|][i + k] == p[at + (i + k)];
    }
  }

  lemma PartsOf(a: seq<Instr>, b: seq<Instr>, c: seq<Instr>)
    ensures var all := a + b + c; all[0..|a|] == a && all[|a|..|a| + |b|] == b && all[|a| + |b|..|all|] == c
  {}

  lemma PartPlaced<W>(x: Setting<W>, fn: nat, at: nat, a: seq<Instr>, b: seq<Instr>, c: seq<Instr>)
    requires Placed(x, fn, at, a + b + c)
    ensures Placed(x, fn, at, a) && Placed(x, fn, at + |a|, b) && Placed(x, fn, at + |a| + |b|, c)
  {
    hide PlainProgram;
    PlainLength(x.bodies);
    var p, all := Plain(x)[fn], a + b + c;
    PartsOf(a, b, c);
    SliceOf(p, at, all, 0, |a|);
    SliceOf(p, at, all, |a|, |a| + |b|);
    SliceOf(p, at, all, |a| + |b|, |all|);
  }

  lemma BothPlaced<W>(x: Setting<W>, fn: nat, at: nat, a: seq<Instr>, b: seq<Instr>)
    requires Placed(x, fn, at, a + b)
    ensures Placed(x, fn, at, a) && Placed(x, fn, at + |a|, b)
  {
    assert a + b == a + b + [];
    PartPlaced(x, fn, at, a, b, []);
  }

  lemma Chain<W>(x: Setting<W>, below: seq<Frame>, fn: nat, s: State<W>, m: nat, n: nat, mid: nat, to: nat, fuel: nat,
                 st: seq<Value>, w: W, o: Outcome<W>)
    requires Gets(x, below, fn, s, m, mid, fuel, Fine(st, w))
    requires Gets(x, below, fn, Here(x, below, fn, mid, st, w), n, to, fuel, o)
    ensures Gets(x, below, fn, s, m + n, to, fuel, o)
  {
    hide Run, Plain;
    RunMore(Plain(x), x.sem, s, m, n);
  }

  /** One instruction. */
  lemma OneStep<W>(x: Setting<W>, below: seq<Frame>, fn: nat, ip: nat, ins: Instr, st: seq<Value>, w: W)
    requires Placed(x, fn, ip, [ins])
    ensures Run(Plain(x), x.sem, Here(x, below, fn, ip, st, w), 1) ==
      LoxVm.Apply(below + [Frame(fn, ip, x.base, x.env)], ip + 1, Exec(x.sem, ins, x.base, x.env, st, w))
  {
    hide Exec, LoxVm.Apply, Run, PlainProgram;
    var s := Here(x, below, fn, ip, st, w);
    RunOnce(Plain(x), x.sem, s);
    PlainLength(x.bodies);
    var c, one := Plain(x)[fn], [ins];
    assert c[ip..ip + |one|] == one && |one| == 1;
    assert c[ip] == c[ip..ip + 1][0] == one[0] == ins;
  }

  lemma PlainLength(bodies: seq<Stmt>)
    ensures |PlainProgram(bodies)| == |bodies|
  {}

  /** What an instruction does that goes on to the next or fails. */
  function ActOf<W>(o: Outcome<W>): Act<W>
    requires o.Fine? || o.Wrong?
  {
    if o.Fine? then Next(o.st, o.w) else Stop(o.e, o.w)
  }

  lemma StepGets<W>(x: Setting<W>, below: seq<Frame>, fn: nat, ip: nat, ins: Instr, st: seq<Value>, w: W, fuel: nat, o: Outcome<W>)
    requires Placed(x, fn, ip, [ins]) && (o.Fine? || o.Wrong?) && Exec(x.sem, ins, x.base, x.env, st, w) == ActOf(o)
    ensures Gets(x, below, fn, Here(x, below, fn, ip, st, w), 1, ip + 1, fuel, o)
  {
    hide Exec, Run, Plain, Placed;
    OneStep(x, below, fn, ip, ins, st, w);
    assert (below + [Frame(fn, ip, x.base, x.env)])[..|below|] == below;
  }

  lemma JumpGets<W>(x: Setting<W>, below: seq<Frame>, fn: nat, ip: nat, ins: Instr, st: seq<Value>, w: W, fuel: nat,
                    to: nat, st': seq<Value>)
    requires Placed(x, fn, ip, [ins]) && Exec(x.sem, ins, x.base, x.env, st, w) == Goto(to, st', w)
    ensures Gets(x, below, fn, Here(x, below, fn, ip, st, w), 1, to, fuel, Fine(st', w))
  {
    hide Exec, Run, Plain, Placed;
    OneStep(x, below, fn, ip, ins, st, w);
    assert (below + [Frame(fn, ip, x.base, x.env)])[..|below|] == below;
  }

  lemma Stops<W>(x: Setting<W>, below: seq<Frame>, fn: nat, s: State<W>, n: nat, mid: nat, to: nat, fuel: nat, o: Outcome<W>)
    requires !o.Fine? && Gets(x, below, fn, s, n, mid, fuel, o)
    ensures Gets(x, below, fn, s, n, to, fuel, o)
  {}

  /** One thing after another: the second is reached if the first goes fine. */
  lemma Then<W>(x: Setting<W>, below: seq<Frame>, fn: nat, s: State<W>, m: nat, k: nat, mid: nat, to: nat, fuel: nat,
                a: Outcome<W>, b: Outcome<W>)
    requires Gets(x, below, fn, s, m, mid, fuel, a)
    requires if a.Fine? then Gets(x, below, fn, Here(x, below, fn, mid, a.st, a.w), k, to, fuel, b) else k == 0 && b == a
    ensures Gets(x, below, fn, s, m + k, to, fuel, b)
  {
    hide Gets, Here;
    if a.Fine? {
      Chain(x, below, fn, s, m, k, mid, to, fuel, a.st, a.w, b);
    } else {
      Stops(x, below, fn, s, m, mid, to, fuel, a);
    }
  }

  /** A step or more make up for a lower bound. */
  lemma Later<W>(x: Setting<W>, below: seq<Frame>, fn: nat, s: State<W>, m: nat, k: nat, mid: nat, to: nat, fuel: nat,
                 st: seq<Value>, w: W, o: Outcome<W>)
    requires 0 < m && 0 < fuel && Gets(x, below, fn, s, m, mid, fuel, Fine(st, w))
    requires Gets(x, below, fn, Here(x, below, fn, mid, st, w), k, to, fuel - 1, o)
    ensures Gets(x, below, fn, s, m + k, to, fuel, o)
  {
    hide Run, Plain;
    RunMore(Plain(x), x.sem, s, m, k);
  }

  /** Instructions that neither jump nor are fused. */
  predicate Straightforward(ins: Instr) {
    !IsJump(ins) && !IsFused(ins)
  }

  function InsMeans<W>(x: Setting<W>, ins: Instr, st: seq<Value>, w: W, fuel: nat): Outcome<W>
    requires Straightforward(ins)
  {
    match ins
    case Other(op) => Do(x, op, st, w, fuel)
    case Const(v) => Fine(st + [v], w)
    case Pop => Drop(st, w)
    case GetLocal(i) => Read(x, i, st, w)
    case SetLocal(i) => Assign(x, i, st, w)
    case SetGlobal(g) => AssignTo(x, g, st, w)
    case GetProperty(name, site) => ReadProperty(x, name, site, st, w)
    case SetProperty(name, site) => WriteProperty(x, name, site, st, w)
    case Binary(op) => Operate(op, st, w)
  }

  lemma ExecMeans<W>(x: Setting<W>, ins: Instr, st: seq<Value>, w: W, fuel: nat)
    requires Straightforward(ins) && !ins.Other?
    ensures var o := InsMeans(x, ins, st, w, fuel); (o.Fine? || o.Wrong?) && Exec(x.sem, ins, x.base, x.env, st, w) == ActOf(o)
  {
    hide Compute, OperatorMeans, Do;
    if ins.Binary? && |st| >= 2 {
      OperatorSame(ins.bop, st[|st| - 2], st[|st| - 1]);
    }
  }

  // ----- plain code does what the program says -----

  lemma {:induction false} InsRuns<W>(x: Setting<W>, below: seq<Frame>, fn: nat, ins: Instr, at: nat, st: seq<Value>, w: W, fuel: nat)
    returns (n: nat)
    requires Straightforward(ins) && Placed(x, fn, at, [ins]) && AllScoped(x.bodies)
    ensures Gets(x, below, fn, Here(x, below, fn, at, st, w), n, at + 1, fuel, InsMeans(x, ins, st, w, fuel))
    decreases fuel, 0, 1
  {
    hide Gets, Placed, Exec, Do, AllScoped;
    if ins.Other? {
      n := DoRuns(x, below, fn, ins.op, at, st, w, fuel);
    } else {
      n := 1;
      ExecMeans(x, ins, st, w, fuel);
      StepGets(x, below, fn, at, ins, st, w, fuel, InsMeans(x, ins, st, w, fuel));
    }
  }

  lemma {:induction false} DoRuns<W>(x: Setting<W>, below: seq<Frame>, fn: nat, op: nat, at: nat, st: seq<Value>, w: W, fuel: nat)
    returns (n: nat)
    requires Placed(x, fn, at, [Other(op)]) && AllScoped(x.bodies)
    ensures Gets(x, below, fn, Here(x, below, fn, at, st, w), n, at + 1, fuel, Do(x, op, st, w, fuel))
    decreases fuel, 0, 0
  {
    hide Placed, Plain, Run, CallMeans, AllScoped;
    var top := Frame(fn, at, x.base, x.env);
    var below' := below + [top.(ip := at + 1)];
    var s := Here(x, below, fn, at, st, w);
    var a := x.sem.other(w, op, st, x.base, x.env);
    assert (below + [top])[..|below|] == below;
    OneStep(x, below, fn, at, Other(op), st, w);
    n := 1;
    if a.Enter? {
      if fuel == 0 {
        n := 0;
        RunNone(Plain(x), x.sem, s);
      } else {
        var x' := x.(base := a.base, env := a.env);
        assert below + [top.(ip := at + 1), Frame(a.fn, 0, a.base, a.env)] == below' + [Frame(a.fn, 0, a.base, a.env)];
        var m := CallRuns(x', below', a.fn, a.stack, a.w, fuel - 1);
        RunMore(Plain(x), x.sem, s, 1, m);
        n := 1 + m;
        SamePlain(x, x');
      }
    }
  }

  lemma SamePlain<W>(x: Setting<W>, y: Setting<W>)
    requires x.bodies == y.bodies
    ensures Plain(x) == Plain(y)
  {}

  lemma RunNone<W>(p: Program, sem: Sem<W>, s: State<W>)
    ensures Run(p, sem, s, 0) == s
  {}

  /** After a call the caller goes on. */
  ghost predicate CallGets<W>(x: Setting<W>, below: seq<Frame>, fn: nat, st: seq<Value>, w: W, n: nat, fuel: nat, o: Outcome<W>) {
    var t := Run(Plain(x), x.sem, Here(x, below, fn, 0, st, w), n);
    match o
    case Fine(st', w') => t == Back(below, st', w')
    case Gone(_, _) => false
    case Wrong(e, w') => t == Failed(e, w')
    case Unknown => fuel <= n && t.Running?
  }

  lemma {:induction false} CallRuns<W>(x: Setting<W>, below: seq<Frame>, fn: nat, st: seq<Value>, w: W, fuel: nat) returns (n: nat)
    requires AllScoped(x.bodies)
    ensures CallGets(x, below, fn, st, w, n, fuel, CallMeans(x, fn, st, w, fuel))
    decreases fuel, 4
  {
    hide Run, PlainProgram, PlainStmt, StmtMeans;
    var s := Here(x, below, fn, 0, st, w);
    PlainLength(x.bodies);
    if fn >= |x.bodies| {
      n := 1;
      RunOnce(Plain(x), x.sem, s);
    } else {
      WholePlaced(x, fn);
      var o := StmtMeans(x, x.bodies[fn], st, w, fuel);
      var m := StmtRuns(x, below, fn, x.bodies[fn], 0, st, w, fuel);
      n := m;
      if o.Fine? {
        n := m + 1;
        RunMore(Plain(x), x.sem, s, m, 1);
        RunOnce(Plain(x), x.sem, Run(Plain(x), x.sem, s, m));
      }
    }
  }

  lemma WholePlaced<W>(x: Setting<W>, fn: nat)
    requires fn < |x.bodies|
    ensures Placed(x, fn, 0, PlainStmt(x.bodies[fn], 0)) && |Plain(x)| == |x.bodies| && |Plain(x)[fn]| == |PlainStmt(x.bodies[fn], 0)|
  {
    hide PlainStmt;
    var c := PlainStmt(x.bodies[fn], 0);
    assert Plain(x)[fn] == c && c[0..|c|] == c;
  }

  lemma {:induction false} ExprRuns<W>(x: Setting<W>, below: seq<Frame>, fn: nat, e: Expr, at: nat, st: seq<Value>, w: W, fuel: nat)
    returns (n: nat)
    requires Placed(x, fn, at, PlainExpr(e, at)) && AllScoped(x.bodies)
    ensures Gets(x, below, fn, Here(x, below, fn, at, st, w), n, at + |PlainExpr(e, at)|, fuel, ExprMeans(x, e, st, w, fuel))
    decreases fuel, 1, e, 1
  {
    hide Gets, Placed, AllScoped, Here, InsMeans, Do, ExprMeans, PlainExpr;
    if e.Or? {
      n := OrRuns(x, below, fn, e.l, e.r, at, st, w, fuel);
    } else if e.And? {
      n := AndRuns(x, below, fn, e.l, e.r, at, st, w, fuel);
    } else if e.Apply? {
      n := ApplyRuns(x, below, fn, e.e, e.args, e.op, at, st, w, fuel);
    } else if e.Operator? {
      OperatorIs(x, e, at, st, w, fuel);
      n := BinaryRuns(x, below, fn, e, e.l, e.r, LastOf(e), at, st, w, fuel);
    } else if e.Set? {
      SetIs(x, e, at, st, w, fuel);
      n := BinaryRuns(x, below, fn, e, e.e, e.r, LastOf(e), at, st, w, fuel);
    } else if e.Leaf? || e.Constant? || e.Local? {
      LeafIs(x, e, at, st, w, fuel);
      n := InsRuns(x, below, fn, LastOf(e), at, st, w, fuel);
    } else {
      UnaryIs(x, e, at, st, w, fuel);
      n := UnaryRuns(x, below, fn, e.e, LastOf(e), at, st, w, fuel);
    }
  }

  /** The instruction that ends the code of an expression. */
  function LastOf(e: Expr): (ins: Instr)
    requires !e.And? && !e.Or?
    ensures Straightforward(ins)
  {
    match e
    case Leaf(op) => Other(op)
    case Constant(v) => Const(v)
    case Local(i) => GetLocal(i)
    case AssignLocal(i, _) => SetLocal(i)
    case AssignGlobal(g, _) => SetGlobal(g)
    case AssignOther(op, _) => Other(op)
    case Unary(op, _) => Other(op)
    case Get(_, name, site) => GetProperty(name, site)
    case Operator(op, _, _) => Binary(op)
    case Set(_, name, site, _) => SetProperty(name, site)
    case Apply(_, _, op) => Other(op)
  }

  lemma LeafIs<W>(x: Setting<W>, e: Expr, at: nat, st: seq<Value>, w: W, fuel: nat)
    requires e.Leaf? || e.Constant? || e.Local?
    ensures PlainExpr(e, at) == [LastOf(e)] && ExprMeans(x, e, st, w, fuel) == InsMeans(x, LastOf(e), st, w, fuel)
  {}

  lemma UnaryIs<W>(x: Setting<W>, e: Expr, at: nat, st: seq<Value>, w: W, fuel: nat)
    requires e.AssignLocal? || e.AssignGlobal? || e.AssignOther? || e.Unary? || e.Get?
    ensures PlainExpr(e, at) == PlainExpr(e.e, at) + [LastOf(e)]
    ensures var a := ExprMeans(x, e.e, st, w, fuel);
      ExprMeans(x, e, st, w, fuel) == if !a.Fine? then a else InsMeans(x, LastOf(e), a.st, a.w, fuel)
  {}

  lemma OperatorIs<W>(x: Setting<W>, e: Expr, at: nat, st: seq<Value>, w: W, fuel: nat)
    requires e.Operator?
    ensures var c := PlainExpr(e.l, at);
      var a := ExprMeans(x, e.l, st, w, fuel);
      && PlainExpr(e, at) == c + PlainExpr(e.r, at + |c|) + [LastOf(e)]
      && (!a.Fine? ==> ExprMeans(x, e, st, w, fuel) == a)
      && (a.Fine? ==>
            var b := ExprMeans(x, e.r, a.st, a.w, fuel);
            ExprMeans(x, e, st, w, fuel) == if !b.Fine? then b else InsMeans(x, LastOf(e), b.st, b.w, fuel))
  {
    hide Do, Operate;
  }

  lemma SetIs<W>(x: Setting<W>, e: Expr, at: nat, st: seq<Value>, w: W, fuel: nat)
    requires e.Set?
    ensures var c := PlainExpr(e.e, at);
      var a := ExprMeans(x, e.e, st, w, fuel);
      && PlainExpr(e, at) == c + PlainExpr(e.r, at + |c|) + [LastOf(e)]
      && (!a.Fine? ==> ExprMeans(x, e, st, w, fuel) == a)
      && (a.Fine? ==>
            var b := ExprMeans(x, e.r, a.st, a.w, fuel);
            ExprMeans(x, e, st, w, fuel) == if !b.Fine? then b else InsMeans(x, LastOf(e), b.st, b.w, fuel))
  {
    hide Do, WriteProperty;
  }

  /** An expression and then an instruction. */
  lemma {:induction false} UnaryRuns<W>(x: Setting<W>, below: seq<Frame>, fn: nat, r: Expr, ins: Instr, at: nat, st: seq<Value>, w: W,
                                        fuel: nat) returns (n: nat)
    requires Straightforward(ins) && Placed(x, fn, at, PlainExpr(r, at) + [ins]) && AllScoped(x.bodies)
    ensures var a := ExprMeans(x, r, st, w, fuel);
      Gets(x, below, fn, Here(x, below, fn, at, st, w), n, at + |PlainExpr(r, at)| + 1, fuel,
           if !a.Fine? then a else InsMeans(x, ins, a.st, a.w, fuel))
    decreases fuel, 1, r, 2
  {
    hide Gets, Placed, AllScoped, PlainExpr, ExprMeans, InsMeans, Here;
    var a, mid := ExprMeans(x, r, st, w, fuel), at + |PlainExpr(r, at)|;
    var s := Here(x, below, fn, at, st, w);
    BothPlaced(x, fn, at, PlainExpr(r, at), [ins]);
    n := ExprRuns(x, below, fn, r, at, st, w, fuel);
    if a.Fine? {
      var k := InsRuns(x, below, fn, ins, mid, a.st, a.w, fuel);
      Chain(x, below, fn, s, n, k, mid, mid + 1, fuel, a.st, a.w, InsMeans(x, ins, a.st, a.w, fuel));
      n := n + k;
    } else {
      Stops(x, below, fn, s, n, mid, mid + 1, fuel, a);
    }
  }

  /** Two expressions and then an instruction. */
  lemma {:induction false} BinaryRuns<W>(x: Setting<W>, below: seq<Frame>, fn: nat, e: Expr, l: Expr, r: Expr, ins: Instr, at: nat,
                                         st: seq<Value>, w: W, fuel: nat) returns (n: nat)
    requires Straightforward(ins) && AllScoped(x.bodies) && l < e && r < e
    requires var a := PlainExpr(l, at); Placed(x, fn, at, a + PlainExpr(r, at + |a|) + [ins])
    ensures var c := PlainExpr(l, at);
      var a := ExprMeans(x, l, st, w, fuel);
      Gets(x, below, fn, Here(x, below, fn, at, st, w), n, at + |c| + |PlainExpr(r, at + |c|)| + 1, fuel,
           if !a.Fine? then a
           else var b := ExprMeans(x, r, a.st, a.w, fuel); if !b.Fine? then b else InsMeans(x, ins, b.st, b.w, fuel))
    decreases fuel, 1, e, 0
  {
    hide Gets, Placed, AllScoped, PlainExpr, ExprMeans, InsMeans, Here;
    var c := PlainExpr(l, at);
    var d := PlainExpr(r, at + |c|);
    var a, mid := ExprMeans(x, l, st, w, fuel), at + |c|;
    var s := Here(x, below, fn, at, st, w);
    assert c + d + [ins] == c + (d + [ins]);
    BothPlaced(x, fn, at, c, d + [ins]);
    n := ExprRuns(x, below, fn, l, at, st, w, fuel);
    if a.Fine? {
      var b := ExprMeans(x, r, a.st, a.w, fuel);
      var k := UnaryRuns(x, below, fn, r, ins, mid, a.st, a.w, fuel);
      Chain(x, below, fn, s, n, k, mid, mid + |d| + 1, fuel, a.st, a.w, if !b.Fine? then b else InsMeans(x, ins, b.st, b.w, fuel));
      n := n + k;
    } else {
      Stops(x, below, fn, s, n, mid, mid + |d| + 1, fuel, a);
    }
  }

  /** A conditional jump that drops the condition. */
  lemma BranchRuns<W>(x: Setting<W>, below: seq<Frame>, fn: nat, ip: nat, t: nat, to: nat, st: seq<Value>, w: W, fuel: nat)
    requires Placed(x, fn, ip, [JumpIfFalsePop(t)])
    requires st != [] ==> to == if Truthy(st[|st| - 1]) then ip + 1 else t
    ensures Gets(x, below, fn, Here(x, below, fn, ip, st, w), 1, to, fuel, Drop(st, w))
  {
    hide Placed, Gets, Here;
    if st == [] {
      StepGets(x, below, fn, ip, JumpIfFalsePop(t), st, w, fuel, Wrong(Stuck, w));
      Stops(x, below, fn, Here(x, below, fn, ip, st, w), 1, ip + 1, to, fuel, Wrong(Stuck, w));
    } else {
      TruthSame(st[|st| - 1]);
      if Truthy(st[|st| - 1]) {
        StepGets(x, below, fn, ip, JumpIfFalsePop(t), st, w, fuel, Drop(st, w));
      } else {
        JumpGets(x, below, fn, ip, JumpIfFalsePop(t), st, w, fuel, t, st[..|st| - 1]);
      }
    }
  }

  /** A conditional jump that keeps it. */
  lemma KeepRuns<W>(x: Setting<W>, below: seq<Frame>, fn: nat, ip: nat, t: nat, to: nat, st: seq<Value>, w: W, fuel: nat)
    requires Placed(x, fn, ip, [JumpIfFalse(t)])
    requires st != [] ==> to == if Truthy(st[|st| - 1]) then ip + 1 else t
    ensures Gets(x, below, fn, Here(x, below, fn, ip, st, w), 1, to, fuel, if st == [] then Wrong(Stuck, w) else Fine(st, w))
  {
    hide Placed, Gets, Here;
    if st == [] {
      StepGets(x, below, fn, ip, JumpIfFalse(t), st, w, fuel, Wrong(Stuck, w));
      Stops(x, below, fn, Here(x, below, fn, ip, st, w), 1, ip + 1, to, fuel, Wrong(Stuck, w));
    } else {
      TruthSame(st[|st| - 1]);
      if Truthy(st[|st| - 1]) {
        StepGets(x, below, fn, ip, JumpIfFalse(t), st, w, fuel, Fine(st, w));
      } else {
        JumpGets(x, below, fn, ip, JumpIfFalse(t), st, w, fuel, t, st);
      }
    }
  }

  /** The value on top is dropped and an expression evaluated in its place. */
  lemma {:induction false} InsteadRuns<W>(x: Setting<W>, below: seq<Frame>, fn: nat, r: Expr, at: nat, st: seq<Value>, w: W, fuel: nat)
    returns (n: nat)
    requires Placed(x, fn, at, [Pop] + PlainExpr(r, at + 1)) && AllScoped(x.bodies) && st != []
    ensures Gets(x, below, fn, Here(x, below, fn, at, st, w), n, at + 1 + |PlainExpr(r, at + 1)|, fuel,
                 ExprMeans(x, r, st[..|st| - 1], w, fuel))
    decreases fuel, 1, r, 2
  {
    hide Gets, Placed, AllScoped, PlainExpr, ExprMeans, Here;
    var o := ExprMeans(x, r, st[..|st| - 1], w, fuel);
    BothPlaced(x, fn, at, [Pop], PlainExpr(r, at + 1));
    StepGets(x, below, fn, at, Pop, st, w, fuel, Drop(st, w));
    var k := ExprRuns(x, below, fn, r, at + 1, st[..|st| - 1], w, fuel);
    Chain(x, below, fn, Here(x, below, fn, at, st, w), 1, k, at + 1, at + 1 + |PlainExpr(r, at + 1)|, fuel, st[..|st| - 1], w, o);
    n := 1 + k;
  }

  lemma AndMeans<W>(x: Setting<W>, l: Expr, r: Expr, st: seq<Value>, w: W, fuel: nat)
    ensures var a := ExprMeans(x, l, st, w, fuel);
      ExprMeans(x, And(l, r), st, w, fuel) ==
      if !a.Fine? then a
      else if a.st == [] then Wrong(Stuck, a.w)
      else if !Truthy(a.st[|a.st| - 1]) then a
      else ExprMeans(x, r, a.st[..|a.st| - 1], a.w, fuel)
  {
    hide Truthy;
  }

  lemma OrMeans<W>(x: Setting<W>, l: Expr, r: Expr, st: seq<Value>, w: W, fuel: nat)
    ensures var a := ExprMeans(x, l, st, w, fuel);
      ExprMeans(x, Or(l, r), st, w, fuel) ==
      if !a.Fine? then a
      else if a.st == [] then Wrong(Stuck, a.w)
      else if Truthy(a.st[|a.st| - 1]) then a
      else ExprMeans(x, r, a.st[..|a.st| - 1], a.w, fuel)
  {
    hide Truthy;
  }

  lemma {:induction false} AndRuns<W>(x: Setting<W>, below: seq<Frame>, fn: nat, l: Expr, r: Expr, at: nat, st: seq<Value>, w: W, fuel: nat)
    returns (n: nat)
    requires Placed(x, fn, at, PlainExpr(And(l, r), at)) && AllScoped(x.bodies)
    ensures Gets(x, below, fn, Here(x, below, fn, at, st, w), n, at + |PlainExpr(And(l, r), at)|, fuel,
                 ExprMeans(x, And(l, r), st, w, fuel))
    decreases fuel, 1, And(l, r), 0
  {
    hide Gets, Placed, AllScoped, PlainExpr, ExprMeans, Truthy, Here;
    PlainAndIs(l, r, at);
    AndMeans(x, l, r, st, w, fuel);
    var c := PlainExpr(l, at);
    var mid := at + |c|;
    var d := PlainExpr(r, mid + 2);
    var to := mid + 2 + |d|;
    var s := Here(x, below, fn, at, st, w);
    assert c + [JumpIfFalse(to), Pop] + d == c + [JumpIfFalse(to)] + ([Pop] + d);
    PartPlaced(x, fn, at, c, [JumpIfFalse(to)], [Pop] + d);
    var a := ExprMeans(x, l, st, w, fuel);
    n := ExprRuns(x, below, fn, l, at, st, w, fuel);
    if !a.Fine? {
      Stops(x, below, fn, s, n, mid, to, fuel, a);
    } else if a.st == [] || !Truthy(a.st[|a.st| - 1]) {
      KeepRuns(x, below, fn, mid, to, to, a.st, a.w, fuel);
      Chain(x, below, fn, s, n, 1, mid, to, fuel, a.st, a.w, if a.st == [] then Wrong(Stuck, a.w) else a);
      n := n + 1;
    } else {
      var o := ExprMeans(x, r, a.st[..|a.st| - 1], a.w, fuel);
      KeepRuns(x, below, fn, mid, to, mid + 1, a.st, a.w, fuel);
      Chain(x, below, fn, s, n, 1, mid, mid + 1, fuel, a.st, a.w, a);
      var k := InsteadRuns(x, below, fn, r, mid + 1, a.st, a.w, fuel);
      Chain(x, below, fn, s, n + 1, k, mid + 1, to, fuel, a.st, a.w, o);
      n := n + 1 + k;
    }
  }

  lemma {:induction false} OrRuns<W>(x: Setting<W>, below: seq<Frame>, fn: nat, l: Expr, r: Expr, at: nat, st: seq<Value>, w: W, fuel: nat)
    returns (n: nat)
    requires Placed(x, fn, at, PlainExpr(Or(l, r), at)) && AllScoped(x.bodies)
    ensures Gets(x, below, fn, Here(x, below, fn, at, st, w), n, at + |PlainExpr(Or(l, r), at)|, fuel,
                 ExprMeans(x, Or(l, r), st, w, fuel))
    decreases fuel, 1, Or(l, r), 0
  {
    hide Gets, Placed, AllScoped, PlainExpr, ExprMeans, Truthy, Here;
    PlainOrIs(l, r, at);
    OrMeans(x, l, r, st, w, fuel);
    var c := PlainExpr(l, at);
    var mid := at + |c|;
    var d := PlainExpr(r, mid + 3);
    var to := mid + 3 + |d|;
    var s := Here(x, below, fn, at, st, w);
    assert c + [JumpIfFalse(mid + 2), Jump(to), Pop] + d == c + [JumpIfFalse(mid + 2)] + ([Jump(to)] + ([Pop] + d));
    PartPlaced(x, fn, at, c, [JumpIfFalse(mid + 2)], [Jump(to)] + ([Pop] + d));
    BothPlaced(x, fn, mid + 1, [Jump(to)], [Pop] + d);
    var a := ExprMeans(x, l, st, w, fuel);
    n := ExprRuns(x, below, fn, l, at, st, w, fuel);
    if !a.Fine? {
      Stops(x, below, fn, s, n, mid, to, fuel, a);
    } else if a.st == [] || Truthy(a.st[|a.st| - 1]) {
      KeepRuns(x, below, fn, mid, mid + 2, mid + 1, a.st, a.w, fuel);
      Chain(x, below, fn, s, n, 1, mid, mid + 1, fuel, a.st, a.w, if a.st == [] then Wrong(Stuck, a.w) else a);
      if a.st == [] {
        Stops(x, below, fn, s, n + 1, mid + 1, to, fuel, Wrong(Stuck, a.w));
        n := n + 1;
      } else {
        JumpGets(x, below, fn, mid + 1, Jump(to), a.st, a.w, fuel, to, a.st);
        Chain(x, below, fn, s, n + 1, 1, mid + 1, to, fuel, a.st, a.w, a);
        n := n + 2;
      }
    } else {
      var o := ExprMeans(x, r, a.st[..|a.st| - 1], a.w, fuel);
      KeepRuns(x, below, fn, mid, mid + 2, mid + 2, a.st, a.w, fuel);
      Chain(x, below, fn, s, n, 1, mid, mid + 2, fuel, a.st, a.w, a);
      var k := InsteadRuns(x, below, fn, r, mid + 2, a.st, a.w, fuel);
      Chain(x, below, fn, s, n + 1, k, mid + 2, to, fuel, a.st, a.w, o);
      n := n + 1 + k;
    }
  }

  lemma ExprsBack(es: seq<Expr>, at: nat)
    ensures es == [] ==> PlainExprs(es, at) == []
    ensures es != [] ==>
      var a := PlainExprs(es[..|es| - 1], at);
      PlainExprs(es, at) == a + PlainExpr(es[|es| - 1], at + |a|)
  {
    hide PlainExpr;
  }

  /** The code of a list starts with that of its first element. */
  lemma {:induction false} ExprsFront(es: seq<Expr>, at: nat)
    requires es != []
    ensures var a := PlainExpr(es[0], at); PlainExprs(es, at) == a + PlainExprs(es[1..], at + |a|)
    decreases |es|
  {
    hide PlainExpr, PlainExprs;
    var n, t := |es| - 1, es[1..];
    var a := PlainExpr(es[0], at);
    ExprsBack(es, at);
    ExprsBack(t, at + |a|);
    if n == 0 {
      ExprsBack([], at);
      assert t == [] && es[..n] == [];
    } else {
      ExprsFront(es[..n], at);
      assert es[..n][1..] == t[..n - 1] && t[n - 1] == es[n] && es[..n][0] == es[0];
      var b := PlainExprs(t[..n - 1], at + |a|);
      var c := PlainExpr(es[n], at + |a| + |b|);
      assert a + b + c == a + (b + c);
    }
  }

  lemma ExprsMeanIs<W>(x: Setting<W>, es: seq<Expr>, st: seq<Value>, w: W, fuel: nat)
    ensures es == [] ==> ExprsMean(x, es, st, w, fuel) == Fine(st, w)
    ensures es != [] ==>
      var a := ExprMeans(x, es[0], st, w, fuel);
      ExprsMean(x, es, st, w, fuel) == if a.Fine? then ExprsMean(x, es[1..], a.st, a.w, fuel) else a
  {
    hide ExprMeans;
  }

  lemma {:induction false} ExprsRun<W>(x: Setting<W>, below: seq<Frame>, fn: nat, es: seq<Expr>, at: nat, st: seq<Value>, w: W, fuel: nat)
    returns (n: nat)
    requires Placed(x, fn, at, PlainExprs(es, at)) && AllScoped(x.bodies)
    ensures Gets(x, below, fn, Here(x, below, fn, at, st, w), n, at + |PlainExprs(es, at)|, fuel, ExprsMean(x, es, st, w, fuel))
    decreases fuel, 1, es, 2
  {
    hide Placed, AllScoped, PlainExpr, PlainExprs, ExprMeans, ExprsMean, Gets, Here;
    ExprsMeanIs(x, es, st, w, fuel);
    if es == [] {
      n := 0;
      ExprsBack(es, at);
      GetsNone(x, below, fn, at, st, w, fuel);
    } else {
      ExprsFront(es, at);
      var c, k := PlainExpr(es[0], at), 0;
      var mid, to := at + |c|, at + |PlainExprs(es, at)|;
      BothPlaced(x, fn, at, c, PlainExprs(es[1..], mid));
      var a := ExprMeans(x, es[0], st, w, fuel);
      n := ExprRuns(x, below, fn, es[0], at, st, w, fuel);
      if a.Fine? {
        k := ExprsRun(x, below, fn, es[1..], mid, a.st, a.w, fuel);
      }
      Then(x, below, fn, Here(x, below, fn, at, st, w), n, k, mid, to, fuel, a, ExprsMean(x, es, st, w, fuel));
      n := n + k;
    }
  }

  lemma GetsNone<W>(x: Setting<W>, below: seq<Frame>, fn: nat, at: nat, st: seq<Value>, w: W, fuel: nat)
    ensures Gets(x, below, fn, Here(x, below, fn, at, st, w), 0, at, fuel, Fine(st, w))
  {}

  lemma {:induction false} ApplyRuns<W>(x: Setting<W>, below: seq<Frame>, fn: nat, f: Expr, args: seq<Expr>, op: nat, at: nat,
                                        st: seq<Value>, w: W, fuel: nat) returns (n: nat)
    requires Placed(x, fn, at, PlainExpr(Expr.Apply(f, args, op), at)) && AllScoped(x.bodies)
    ensures var e := Expr.Apply(f, args, op);
      Gets(x, below, fn, Here(x, below, fn, at, st, w), n, at + |PlainExpr(e, at)|, fuel, ExprMeans(x, e, st, w, fuel))
    decreases fuel, 1, Expr.Apply(f, args, op), 0
  {
    hide Gets, Placed, AllScoped, PlainExprs, ExprsMean, Here, Do;
    var c := PlainExpr(f, at);
    var mid := at + |c|;
    var d := PlainExprs(args, mid);
    var late := mid + |d|;
    var s := Here(x, below, fn, at, st, w);
    PartPlaced(x, fn, at, c, d, [Other(op)]);
    var a := ExprMeans(x, f, st, w, fuel);
    n := ExprRuns(x, below, fn, f, at, st, w, fuel);
    if !a.Fine? {
      Stops(x, below, fn, s, n, mid, late + 1, fuel, a);
    } else {
      var b := ExprsMean(x, args, a.st, a.w, fuel);
      var k := ExprsRun(x, below, fn, args, mid, a.st, a.w, fuel);
      Chain(x, below, fn, s, n, k, mid, late, fuel, a.st, a.w, b);
      n := n + k;
      if b.Fine? {
        var j := DoRuns(x, below, fn, op, late, b.st, b.w, fuel);
        Chain(x, below, fn, s, n, j, late, late + 1, fuel, b.st, b.w, Do(x, op, b.st, b.w, fuel));
        n := n + j;
      } else {
        Stops(x, below, fn, s, n, late, late + 1, fuel, b);
      }
    }
  }

  // ----- statements -----

  lemma {:induction false} EndsRun<W>(x: Setting<W>, below: seq<Frame>, fn: nat, ends: seq<Instr>, at: nat, st: seq<Value>, w: W, fuel: nat)
    returns (n: nat)
    requires Placed(x, fn, at, ends) && AllScoped(x.bodies) && forall i :: 0 <= i < |ends| ==> ScopeEnd(ends[i])
    ensures Gets(x, below, fn, Here(x, below, fn, at, st, w), n, at + |ends|, fuel, EndsMean(x, ends, st, w, fuel))
    decreases fuel, 1, |ends|
  {
    hide Placed, AllScoped, Gets, Here, Do, Drop;
    var s := Here(x, below, fn, at, st, w);
    if ends == [] {
      n := 0;
      GetsNone(x, below, fn, at, st, w, fuel);
    } else {
      assert ends == [ends[0]] + ends[1..];
      assert ScopeEnd(ends[0]);
      BothPlaced(x, fn, at, [ends[0]], ends[1..]);
      var a := InsMeans(x, ends[0], st, w, fuel);
      n := InsRuns(x, below, fn, ends[0], at, st, w, fuel);
      if a.Fine? {
        var k := EndsRun(x, below, fn, ends[1..], at + 1, a.st, a.w, fuel);
        Chain(x, below, fn, s, n, k, at + 1, at + |ends|, fuel, a.st, a.w, EndsMean(x, ends[1..], a.st, a.w, fuel));
        n := n + k;
      } else {
        Stops(x, below, fn, s, n, at + 1, at + |ends|, fuel, a);
      }
    }
  }

  /** Instructions for the world outside are ends of a scope that drop nothing. */
  lemma {:induction false} OpsAreEnds<W>(x: Setting<W>, ops: seq<nat>, st: seq<Value>, w: W, fuel: nat)
    ensures OpsMean(x, ops, st, w, fuel) == EndsMean(x, Others(ops), st, w, fuel)
    decreases |ops|
  {
    hide Do, Drop;
    if ops != [] {
      var a := Do(x, ops[0], st, w, fuel);
      assert Others(ops)[1..] == Others(ops[1..]) && Others(ops)[0] == Other(ops[0]);
      if a.Fine? {
        OpsAreEnds(x, ops[1..], a.st, a.w, fuel);
      }
    }
  }

  lemma {:induction false} StmtRuns<W>(x: Setting<W>, below: seq<Frame>, fn: nat, s: Stmt, at: nat, st: seq<Value>, w: W, fuel: nat)
    returns (n: nat)
    requires Placed(x, fn, at, PlainStmt(s, at)) && Scoped(s) && AllScoped(x.bodies)
    ensures Gets(x, below, fn, Here(x, below, fn, at, st, w), n, at + |PlainStmt(s, at)|, fuel, StmtMeans(x, s, st, w, fuel))
    decreases fuel, 3, s, 1
  {
    hide Gets, Placed, AllScoped, PlainExpr, PlainLoop, PlainStmts, ExprMeans, StmtsMean, LoopMeans, EndsMean, OpsMean, Here;
    match s
    case Expression(e) => n := UnaryRuns(x, below, fn, e, Pop, at, st, w, fuel);
    case Eval(e, ops) => n := EvalRuns(x, below, fn, e, ops, at, st, w, fuel);
    case Emit(ops) =>
      OpsAreEnds(x, ops, st, w, fuel);
      n := EndsRun(x, below, fn, Others(ops), at, st, w, fuel);
    case Block(ss, ends) => n := BlockRuns(x, below, fn, ss, ends, at, st, w, fuel);
    case If(c, t, f) => n := IfRuns(x, below, fn, c, t, f, at, st, w, fuel);
    case While(c, body) =>
      WhileIsLoop(c, body, at);
      n := LoopRuns(x, below, fn, Some(c), None, body, at, st, w, fuel);
    case For(init, cond, inc, body, ends) => n := ForRuns(x, below, fn, init, cond, inc, body, ends, at, st, w, fuel);
  }

  lemma WhileIsLoop(c: Expr, body: Stmt, at: nat)
    ensures PlainStmt(While(c, body), at) == PlainLoop(Some(c), None, body, at)
  {
    hide PlainExpr;
  }

  lemma {:induction false} EvalRuns<W>(x: Setting<W>, below: seq<Frame>, fn: nat, e: Expr, ops: seq<nat>, at: nat, st: seq<Value>, w: W,
                                       fuel: nat) returns (n: nat)
    requires Placed(x, fn, at, PlainExpr(e, at) + Others(ops)) && AllScoped(x.bodies)
    ensures Gets(x, below, fn, Here(x, below, fn, at, st, w), n, at + |PlainExpr(e, at)| + |ops|, fuel,
                 StmtMeans(x, Eval(e, ops), st, w, fuel))
    decreases fuel, 2
  {
    hide Gets, Placed, AllScoped, PlainExpr, ExprMeans, OpsMean, EndsMean, Here;
    var mid, k := at + |PlainExpr(e, at)|, 0;
    BothPlaced(x, fn, at, PlainExpr(e, at), Others(ops));
    var a := ExprMeans(x, e, st, w, fuel);
    n := ExprRuns(x, below, fn, e, at, st, w, fuel);
    if a.Fine? {
      OpsAreEnds(x, ops, a.st, a.w, fuel);
      k := EndsRun(x, below, fn, Others(ops), mid, a.st, a.w, fuel);
    }
    Then(x, below, fn, Here(x, below, fn, at, st, w), n, k, mid, mid + |ops|, fuel, a, StmtMeans(x, Eval(e, ops), st, w, fuel));
    n := n + k;
  }

  lemma {:induction false} BlockRuns<W>(x: Setting<W>, below: seq<Frame>, fn: nat, ss: seq<Stmt>, ends: seq<Instr>, at: nat,
                                        st: seq<Value>, w: W, fuel: nat) returns (n: nat)
    requires Placed(x, fn, at, PlainStmts(ss, at) + ends) && Scoped(Block(ss, ends)) && AllScoped(x.bodies)
    ensures Gets(x, below, fn, Here(x, below, fn, at, st, w), n, at + |PlainStmts(ss, at)| + |ends|, fuel,
                 StmtMeans(x, Block(ss, ends), st, w, fuel))
    decreases fuel, 3, ss, 3
  {
    hide Gets, Placed, AllScoped, PlainStmts, StmtsMean, EndsMean, Here;
    var mid, k := at + |PlainStmts(ss, at)|, 0;
    BothPlaced(x, fn, at, PlainStmts(ss, at), ends);
    var a := StmtsMean(x, ss, st, w, fuel);
    n := StmtsRun(x, below, fn, ss, at, st, w, fuel);
    if a.Fine? {
      k := EndsRun(x, below, fn, ends, mid, a.st, a.w, fuel);
    }
    Then(x, below, fn, Here(x, below, fn, at, st, w), n, k, mid, mid + |ends|, fuel, a, StmtMeans(x, Block(ss, ends), st, w, fuel));
    n := n + k;
  }

  lemma StmtsBack(ss: seq<Stmt>, at: nat)
    ensures ss == [] ==> PlainStmts(ss, at) == []
    ensures ss != [] ==>
      var a := PlainStmts(ss[..|ss| - 1], at);
      PlainStmts(ss, at) == a + PlainStmt(ss[|ss| - 1], at + |a|)
  {
    hide PlainStmt;
  }

  /** The code of a block starts with that of its first statement. */
  lemma {:induction false} StmtsFront(ss: seq<Stmt>, at: nat)
    requires ss != []
    ensures var a := PlainStmt(ss[0], at); PlainStmts(ss, at) == a + PlainStmts(ss[1..], at + |a|)
    decreases |ss|
  {
    hide PlainStmt, PlainStmts;
    var n, t := |ss| - 1, ss[1..];
    var a := PlainStmt(ss[0], at);
    StmtsBack(ss, at);
    StmtsBack(t, at + |a|);
    if n == 0 {
      StmtsBack([], at);
      assert t == [] && ss[..n] == [];
    } else {
      StmtsFront(ss[..n], at);
      assert ss[..n][1..] == t[..n - 1] && t[n - 1] == ss[n] && ss[..n][0] == ss[0];
      var b := PlainStmts(t[..n - 1], at + |a|);
      var c := PlainStmt(ss[n], at + |a| + |b|);
      assert a + b + c == a + (b + c);
    }
  }

  lemma StmtsMeanIs<W>(x: Setting<W>, ss: seq<Stmt>, st: seq<Value>, w: W, fuel: nat)
    ensures ss == [] ==> StmtsMean(x, ss, st, w, fuel) == Fine(st, w)
    ensures ss != [] ==>
      var a := StmtMeans(x, ss[0], st, w, fuel);
      StmtsMean(x, ss, st, w, fuel) == if a.Fine? then StmtsMean(x, ss[1..], a.st, a.w, fuel) else a
  {
    hide StmtMeans;
  }

  lemma {:induction false} StmtsRun<W>(x: Setting<W>, below: seq<Frame>, fn: nat, ss: seq<Stmt>, at: nat, st: seq<Value>, w: W, fuel: nat)
    returns (n: nat)
    requires Placed(x, fn, at, PlainStmts(ss, at)) && AllScoped(x.bodies) && forall i :: 0 <= i < |ss| ==> Scoped(ss[i])
    ensures Gets(x, below, fn, Here(x, below, fn, at, st, w), n, at + |PlainStmts(ss, at)|, fuel, StmtsMean(x, ss, st, w, fuel))
    decreases fuel, 3, ss, 2
  {
    hide Placed, AllScoped, PlainStmt, PlainStmts, StmtMeans, StmtsMean, Gets, Here;
    StmtsMeanIs(x, ss, st, w, fuel);
    if ss == [] {
      n := 0;
      StmtsBack(ss, at);
      GetsNone(x, below, fn, at, st, w, fuel);
    } else {
      StmtsFront(ss, at);
      var c, k := PlainStmt(ss[0], at), 0;
      var mid, to := at + |c|, at + |PlainStmts(ss, at)|;
      BothPlaced(x, fn, at, c, PlainStmts(ss[1..], mid));
      var a := StmtMeans(x, ss[0], st, w, fuel);
      n := StmtRuns(x, below, fn, ss[0], at, st, w, fuel);
      if a.Fine? {
        k := StmtsRun(x, below, fn, ss[1..], mid, a.st, a.w, fuel);
      }
      Then(x, below, fn, Here(x, below, fn, at, st, w), n, k, mid, to, fuel, a, StmtsMean(x, ss, st, w, fuel));
      n := n + k;
    }
  }

  /** A condition and the jump behind it, to `exit` if it does not hold. */
  lemma {:induction false} TestRuns<W>(x: Setting<W>, below: seq<Frame>, fn: nat, c: Expr, exit: nat, to: nat, at: nat,
                                       st: seq<Value>, w: W, fuel: nat) returns (n: nat)
    requires Placed(x, fn, at, PlainExpr(c, at) + [JumpIfFalsePop(exit)]) && AllScoped(x.bodies)
    requires var a := ExprMeans(x, c, st, w, fuel);
      a.Fine? && a.st != [] ==> to == if Truthy(a.st[|a.st| - 1]) then at + |PlainExpr(c, at)| + 1 else exit
    ensures var a := ExprMeans(x, c, st, w, fuel);
      Gets(x, below, fn, Here(x, below, fn, at, st, w), n, to, fuel, if a.Fine? then Drop(a.st, a.w) else a)
    decreases fuel, 2, 0
  {
    hide Gets, Placed, AllScoped, PlainExpr, ExprMeans, Here;
    var mid, k := at + |PlainExpr(c, at)|, 0;
    BothPlaced(x, fn, at, PlainExpr(c, at), [JumpIfFalsePop(exit)]);
    var a := ExprMeans(x, c, st, w, fuel);
    n := ExprRuns(x, below, fn, c, at, st, w, fuel);
    if a.Fine? {
      BranchRuns(x, below, fn, mid, exit, to, a.st, a.w, fuel);
      k := 1;
    }
    Then(x, below, fn, Here(x, below, fn, at, st, w), n, k, mid, to, fuel, a, if a.Fine? then Drop(a.st, a.w) else a);
    n := n + k;
  }

  lemma IfIs(c: Expr, t: Stmt, at: nat)
    ensures var d := PlainExpr(c, at);
      var b := PlainStmt(t, at + |d| + 1);
      PlainStmt(If(c, t, None), at) == d + [JumpIfFalsePop(at + |d| + 1 + |b|)] + b
  {
    hide PlainExpr, PlainStmts, PlainLoop;
  }

  lemma IfElseIs(c: Expr, t: Stmt, f: Stmt, at: nat)
    ensures var d := PlainExpr(c, at);
      var b := PlainStmt(t, at + |d| + 1);
      var exit := at + |d| + 2 + |b|;
      var g := PlainStmt(f, exit);
      PlainStmt(If(c, t, Some(f)), at) == d + [JumpIfFalsePop(exit)] + b + [Jump(exit + |g|)] + g
  {
    hide PlainExpr, PlainStmts, PlainLoop;
  }

  /** Where the parts of an `if` stand; `exit` is where the condition leads if it does not hold. */
  lemma IfParts<W>(x: Setting<W>, fn: nat, c: Expr, t: Stmt, f: Maybe<Stmt>, at: nat)
    requires Placed(x, fn, at, PlainStmt(If(c, t, f), at))
    ensures var mid := at + |PlainExpr(c, at)| + 1;
      var b := PlainStmt(t, mid);
      var exit := mid + |b| + (if f.Some? then 1 else 0);
      var end := at + |PlainStmt(If(c, t, f), at)|;
      && Placed(x, fn, at, PlainExpr(c, at) + [JumpIfFalsePop(exit)]) && Placed(x, fn, mid, b)
      && (f.None? ==> end == exit && Placed(x, fn, mid + |b|, []))
      && (f.Some? ==> Placed(x, fn, mid + |b|, [Jump(end)]) && Placed(x, fn, exit, PlainStmt(f.value, exit))
                      && end == exit + |PlainStmt(f.value, exit)|)
  {
    hide Placed, PlainExpr, PlainStmt;
    var d := PlainExpr(c, at);
    var mid := at + |d| + 1;
    var b := PlainStmt(t, mid);
    var exit := mid + |b| + (if f.Some? then 1 else 0);
    var test := d + [JumpIfFalsePop(exit)];
    if f.None? {
      IfIs(c, t, at);
      assert d + [JumpIfFalsePop(exit)] + b == test + b + [];
      PartPlaced(x, fn, at, test, b, []);
    } else {
      IfElseIs(c, t, f.value, at);
      var g := PlainStmt(f.value, exit);
      var over := [Jump(exit + |g|)];
      assert d + [JumpIfFalsePop(exit)] + b + over + g == test + b + (over + g);
      PartPlaced(x, fn, at, test, b, over + g);
      BothPlaced(x, fn, mid + |b|, over, g);
    }
  }

  lemma {:induction false} IfRuns<W>(x: Setting<W>, below: seq<Frame>, fn: nat, c: Expr, t: Stmt, f: Maybe<Stmt>, at: nat,
                                     st: seq<Value>, w: W, fuel: nat) returns (n: nat)
    requires Placed(x, fn, at, PlainStmt(If(c, t, f), at)) && Scoped(If(c, t, f)) && AllScoped(x.bodies)
    ensures Gets(x, below, fn, Here(x, below, fn, at, st, w), n, at + |PlainStmt(If(c, t, f), at)|, fuel,
                 StmtMeans(x, If(c, t, f), st, w, fuel))
    decreases fuel, 3, If(c, t, f), 0
  {
    hide Gets, Placed, AllScoped, PlainExpr, PlainStmt, ExprMeans, Here;
    var mid := at + |PlainExpr(c, at)| + 1;
    var exit := mid + |PlainStmt(t, mid)| + (if f.Some? then 1 else 0);
    var end := at + |PlainStmt(If(c, t, f), at)|;
    var a := ExprMeans(x, c, st, w, fuel);
    var holds := a.Fine? && a.st != [] && Truthy(a.st[|a.st| - 1]);
    IfParts(x, fn, c, t, f, at);
    n := TestRuns(x, below, fn, c, exit, if holds then mid else exit, at, st, w, fuel);
    var o := if a.Fine? then Drop(a.st, a.w) else a;
    var k := 0;
    if holds {
      k := BranchEnds(x, below, fn, t, if f.Some? then [Jump(end)] else [], mid, end, o.st, o.w, fuel);
    } else if o.Fine? {
      if f.Some? {
        k := StmtRuns(x, below, fn, f.value, exit, o.st, o.w, fuel);
      } else {
        GetsNone(x, below, fn, exit, o.st, o.w, fuel);
      }
    }
    Then(x, below, fn, Here(x, below, fn, at, st, w), n, k, if holds then mid else exit, end, fuel, o,
         StmtMeans(x, If(c, t, f), st, w, fuel));
    n := n + k;
  }

  /** A branch, and the jump over the other if there is one. */
  lemma {:induction false} BranchEnds<W>(x: Setting<W>, below: seq<Frame>, fn: nat, t: Stmt, over: seq<Instr>, at: nat, to: nat,
                                         st: seq<Value>, w: W, fuel: nat) returns (n: nat)
    requires var b := PlainStmt(t, at);
      && Placed(x, fn, at, b) && Placed(x, fn, at + |b|, over) && Scoped(t) && AllScoped(x.bodies)
      && (over == [Jump(to)] || (over == [] && to == at + |b|))
    ensures Gets(x, below, fn, Here(x, below, fn, at, st, w), n, to, fuel, StmtMeans(x, t, st, w, fuel))
    decreases fuel, 3, t, 2
  {
    hide Gets, Placed, AllScoped, PlainStmt, StmtMeans, Here;
    var mid, k := at + |PlainStmt(t, at)|, 0;
    var a := StmtMeans(x, t, st, w, fuel);
    n := StmtRuns(x, below, fn, t, at, st, w, fuel);
    if a.Fine? {
      if over == [] {
        GetsNone(x, below, fn, mid, a.st, a.w, fuel);
      } else {
        JumpGets(x, below, fn, mid, Jump(to), a.st, a.w, fuel, to, a.st);
        k := 1;
      }
    }
    Then(x, below, fn, Here(x, below, fn, at, st, w), n, k, mid, to, fuel, a, a);
    n := n + k;
  }

  lemma {:induction false} ForRuns<W>(x: Setting<W>, below: seq<Frame>, fn: nat, init: Stmt, cond: Maybe<Expr>, inc: Maybe<Expr>,
                                      body: Stmt, ends: seq<Instr>, at: nat, st: seq<Value>, w: W, fuel: nat) returns (n: nat)
    requires var s := For(init, cond, inc, body, ends); Placed(x, fn, at, PlainStmt(s, at)) && Scoped(s) && AllScoped(x.bodies)
    ensures var s := For(init, cond, inc, body, ends);
      Gets(x, below, fn, Here(x, below, fn, at, st, w), n, at + |PlainStmt(s, at)|, fuel, StmtMeans(x, s, st, w, fuel))
    decreases fuel, 3, For(init, cond, inc, body, ends), 0
  {
    hide Gets, Placed, AllScoped, PlainLoop, LoopMeans, EndsMean, Here;
    var i := PlainStmt(init, at);
    var mid := at + |i|;
    var l := PlainLoop(cond, inc, body, mid);
    var late, to := mid + |l|, mid + |l| + |ends|;
    var s := Here(x, below, fn, at, st, w);
    PartPlaced(x, fn, at, i, l, ends);
    var a := StmtMeans(x, init, st, w, fuel);
    n := StmtRuns(x, below, fn, init, at, st, w, fuel);
    if !a.Fine? {
      Stops(x, below, fn, s, n, mid, to, fuel, a);
    } else {
      var b := LoopMeans(x, cond, inc, body, a.st, a.w, fuel);
      var k := LoopRuns(x, below, fn, cond, inc, body, mid, a.st, a.w, fuel);
      Chain(x, below, fn, s, n, k, mid, late, fuel, a.st, a.w, b);
      var j := 0;
      if b.Fine? {
        j := EndsRun(x, below, fn, ends, late, b.st, b.w, fuel);
      }
      Then(x, below, fn, s, n + k, j, late, to, fuel, b, if b.Fine? then EndsMean(x, ends, b.st, b.w, fuel) else b);
      n := n + k + j;
    }
  }

  // ----- loops -----

  /** The condition of a loop, if it has one. */
  lemma {:induction false} CondRuns<W>(x: Setting<W>, below: seq<Frame>, fn: nat, cond: Maybe<Expr>, exit: nat, to: nat, at: nat,
                                       st: seq<Value>, w: W, fuel: nat) returns (n: nat)
    requires AllScoped(x.bodies)
    requires cond.Some? ==> Placed(x, fn, at, PlainExpr(cond.value, at) + [JumpIfFalsePop(exit)])
    requires var a := CondMeans(x, cond, st, w, fuel);
      a.Fine? && a.st != [] ==> to == if !Truthy(a.st[|a.st| - 1]) then exit
                                 else if cond.Some? then at + |PlainExpr(cond.value, at)| + 1
                                 else at
    ensures var a := CondMeans(x, cond, st, w, fuel);
      Gets(x, below, fn, Here(x, below, fn, at, st, w), n, to, fuel, if a.Fine? then Drop(a.st, a.w) else a)
    decreases fuel, 2, 1
  {
    hide Gets, Placed, AllScoped, PlainExpr, ExprMeans, Here;
    if cond.Some? {
      n := TestRuns(x, below, fn, cond.value, exit, to, at, st, w, fuel);
    } else {
      n := 0;
      assert (st + [Bool(true)])[..|st|] == st;
      GetsNone(x, below, fn, at, st, w, fuel);
    }
  }

  /** On entry the step is jumped over. */
  lemma EntryRuns<W>(x: Setting<W>, below: seq<Frame>, fn: nat, inc: Maybe<Expr>, start: nat, at: nat, st: seq<Value>, w: W, fuel: nat)
    returns (n: nat)
    requires Placed(x, fn, at, PlainStep(inc, start, at))
    ensures Gets(x, below, fn, Here(x, below, fn, at, st, w), n, at + |PlainStep(inc, start, at)|, fuel, Fine(st, w))
  {
    hide Gets, Placed, PlainExpr, Here;
    if inc.Some? {
      var y := PlainExpr(inc.value, at + 1);
      PartPlaced(x, fn, at, [Jump(at + |y| + 3)], y, [Pop, Loop(start)]);
      JumpGets(x, below, fn, at, Jump(at + |y| + 3), st, w, fuel, at + |y| + 3, st);
      n := 1;
    } else {
      GetsNone(x, below, fn, at, st, w, fuel);
      n := 0;
    }
  }

  /** Behind the body: the step, and back to the start. `a` is where the step stands. */
  lemma {:induction false} AgainRuns<W>(x: Setting<W>, below: seq<Frame>, fn: nat, inc: Maybe<Expr>, start: nat, a: nat, at: nat,
                                        st: seq<Value>, w: W, fuel: nat) returns (n: nat)
    requires Placed(x, fn, a, PlainStep(inc, start, a)) && Placed(x, fn, at, [Loop(if inc.Some? then a + 1 else start)])
    requires AllScoped(x.bodies)
    ensures 0 < n && Gets(x, below, fn, Here(x, below, fn, at, st, w), n, start, fuel, IncMeans(x, inc, st, w, fuel))
    decreases fuel, 2
  {
    hide Gets, Placed, AllScoped, PlainExpr, ExprMeans, Here;
    var s := Here(x, below, fn, at, st, w);
    n := 1;
    if inc.None? {
      JumpGets(x, below, fn, at, Loop(start), st, w, fuel, start, st);
    } else {
      JumpGets(x, below, fn, at, Loop(a + 1), st, w, fuel, a + 1, st);
      var y := PlainExpr(inc.value, a + 1);
      var late := a + 1 + |y| + 1;
      assert PlainStep(inc, start, a) == [Jump(a + |y| + 3)] + (y + [Pop]) + [Loop(start)];
      PartPlaced(x, fn, a, [Jump(a + |y| + 3)], y + [Pop], [Loop(start)]);
      var o := IncMeans(x, inc, st, w, fuel);
      var j := 0;
      var k := UnaryRuns(x, below, fn, inc.value, Pop, a + 1, st, w, fuel);
      Chain(x, below, fn, s, 1, k, a + 1, late, fuel, st, w, o);
      if o.Fine? {
        JumpGets(x, below, fn, late, Loop(start), o.st, o.w, fuel, start, o.st);
        j := 1;
      }
      Then(x, below, fn, s, 1 + k, j, late, start, fuel, o, o);
      n := 1 + k + j;
    }
  }

  /** Where the parts of a loop stand. */
  lemma LoopParts<W>(x: Setting<W>, fn: nat, cond: Maybe<Expr>, inc: Maybe<Expr>, body: Stmt, at: nat)
    requires Placed(x, fn, at, PlainLoop(cond, inc, body, at))
    ensures var c := if cond.Some? then PlainExpr(cond.value, at) else [];
      var a := at + |c| + (if cond.Some? then 1 else 0);
      var p := PlainStep(inc, at, a);
      var b := PlainStmt(body, a + |p|);
      var exit := a + |p| + |b| + 1;
      && exit == at + |PlainLoop(cond, inc, body, at)|
      && (cond.Some? ==> Placed(x, fn, at, c + [JumpIfFalsePop(exit)]))
      && Placed(x, fn, a, p) && Placed(x, fn, a + |p|, b) && Placed(x, fn, exit - 1, [Loop(if inc.Some? then a + 1 else at)])
  {
    hide Placed, PlainExpr, PlainStmt, PlainStep;
    var c := if cond.Some? then PlainExpr(cond.value, at) else [];
    var a := at + |c| + (if cond.Some? then 1 else 0);
    var p := PlainStep(inc, at, a);
    var b := PlainStmt(body, a + |p|);
    var test := c + (if cond.Some? then [JumpIfFalsePop(a + |p| + |b| + 1)] else []);
    var back := [Loop(if inc.Some? then a + 1 else at)];
    assert PlainLoop(cond, inc, body, at) == test + p + (b + back);
    PartPlaced(x, fn, at, test, p, b + back);
    BothPlaced(x, fn, a + |p|, b, back);
  }

  lemma {:induction false} LoopRuns<W>(x: Setting<W>, below: seq<Frame>, fn: nat, cond: Maybe<Expr>, inc: Maybe<Expr>, body: Stmt, at: nat,
                                       st: seq<Value>, w: W, fuel: nat) returns (n: nat)
    requires Placed(x, fn, at, PlainLoop(cond, inc, body, at)) && Scoped(body) && AllScoped(x.bodies)
    ensures Gets(x, below, fn, Here(x, below, fn, at, st, w), n, at + |PlainLoop(cond, inc, body, at)|, fuel,
                 LoopMeans(x, cond, inc, body, st, w, fuel))
    decreases fuel, 3, body, 3
  {
    hide Gets, Placed, AllScoped, PlainExpr, PlainStmt, PlainStep, PlainLoop, CondMeans, IncMeans, StmtMeans, Here;
    var s := Here(x, below, fn, at, st, w);
    var exit := at + |PlainLoop(cond, inc, body, at)|;
    LoopParts(x, fn, cond, inc, body, at);
    if fuel == 0 {
      n := 0;
      StillRuns(x, below, fn, at, exit, st, w);
    } else {
      var a := at + (if cond.Some? then |PlainExpr(cond.value, at)| + 1 else 0);
      var mid := a + |PlainStep(inc, at, a)|;
      var c := CondMeans(x, cond, st, w, fuel);
      var holds := c.Fine? && c.st != [] && Truthy(c.st[|c.st| - 1]);
      n := CondRuns(x, below, fn, cond, exit, if holds then a else exit, at, st, w, fuel);
      if holds {
        var st1 := c.st[..|c.st| - 1];
        var j := EntryRuns(x, below, fn, inc, at, a, st1, c.w, fuel);
        Chain(x, below, fn, s, n, j, a, mid, fuel, st1, c.w, Fine(st1, c.w));
        var k := RoundRuns(x, below, fn, cond, inc, body, at, a, st1, c.w, fuel);
        Chain(x, below, fn, s, n + j, k, mid, exit, fuel, st1, c.w, LoopMeans(x, cond, inc, body, st, w, fuel));
        n := n + j + k;
      }
    }
  }

  lemma StillRuns<W>(x: Setting<W>, below: seq<Frame>, fn: nat, at: nat, to: nat, st: seq<Value>, w: W)
    ensures Gets(x, below, fn, Here(x, below, fn, at, st, w), 0, to, 0, Unknown)
  {}

  /** What is left of a loop once its condition held: the body, the step, and the loop again. */
  function RoundMeans<W>(x: Setting<W>, cond: Maybe<Expr>, inc: Maybe<Expr>, body: Stmt, st: seq<Value>, w: W, fuel: nat): Outcome<W>
    requires fuel > 0
  {
    var b := StmtMeans(x, body, st, w, fuel);
    if !b.Fine? then b
    else
      var i := IncMeans(x, inc, b.st, b.w, fuel);
      if !i.Fine? then i else LoopMeans(x, cond, inc, body, i.st, i.w, fuel - 1)
  }

  lemma {:induction false} RoundRuns<W>(x: Setting<W>, below: seq<Frame>, fn: nat, cond: Maybe<Expr>, inc: Maybe<Expr>, body: Stmt, at: nat,
                                        a: nat, st: seq<Value>, w: W, fuel: nat) returns (n: nat)
    requires Placed(x, fn, at, PlainLoop(cond, inc, body, at)) && Scoped(body) && AllScoped(x.bodies)
    requires fuel > 0 && a == at + if cond.Some? then |PlainExpr(cond.value, at)| + 1 else 0
    ensures Gets(x, below, fn, Here(x, below, fn, a + |PlainStep(inc, at, a)|, st, w), n, at + |PlainLoop(cond, inc, body, at)|, fuel,
                 RoundMeans(x, cond, inc, body, st, w, fuel))
    decreases fuel, 3, body, 2
  {
    hide Gets, Placed, AllScoped, PlainExpr, PlainStmt, PlainStep, PlainLoop, LoopMeans, IncMeans, StmtMeans, Here;
    var mid := a + |PlainStep(inc, at, a)|;
    var s := Here(x, below, fn, mid, st, w);
    var exit := at + |PlainLoop(cond, inc, body, at)|;
    LoopParts(x, fn, cond, inc, body, at);
    var b := StmtMeans(x, body, st, w, fuel);
    n := StmtRuns(x, below, fn, body, mid, st, w, fuel);
    if !b.Fine? {
      Stops(x, below, fn, s, n, exit - 1, exit, fuel, b);
    } else {
      var i := IncMeans(x, inc, b.st, b.w, fuel);
      var j := AgainRuns(x, below, fn, inc, at, a, exit - 1, b.st, b.w, fuel);
      Chain(x, below, fn, s, n, j, exit - 1, at, fuel, b.st, b.w, i);
      n := n + j;
      if !i.Fine? {
        Stops(x, below, fn, s, n, at, exit, fuel, i);
      } else {
        var k := LoopRuns(x, below, fn, cond, inc, body, at, i.st, i.w, fuel - 1);
        Later(x, below, fn, s, n, k, at, exit, fuel, i.st, i.w, LoopMeans(x, cond, inc, body, i.st, i.w, fuel - 1));
        n := n + k;
      }
    }
  }

  // ----- whole programs -----

  /** A program ends in plain code exactly as it says. */
  lemma PlainMeans<W(!new)>(bodies: seq<Stmt>, sem: Sem<W>, st: seq<Value>, w: W, r: State<W>)
    requires AllScoped(bodies)
    ensures Ends(PlainProgram(bodies), sem, Start(st, w), r) <==> Means(bodies, sem, st, w, r)
  {
    hide Run, PlainProgram, CallMeans, AllScoped;
    var x := Setting(bodies, sem, 0, 0);
    var q := PlainProgram(bodies);
    assert Here(x, [], 0, 0, st, w) == Start(st, w);
    if Ends(q, sem, Start(st, w), r) {
      var n: nat :| Run(q, sem, Start(st, w), n) == r;
      var fuel := n + 1;
      var m := CallRuns(x, [], 0, st, w, fuel);
      var o := CallMeans(x, 0, st, w, fuel);
      if m <= n {
        StaysStoppedIfStopped(q, sem, Start(st, w), m, n);
      } else {
        StaysStopped(q, sem, Start(st, w), n, m);
      }
      assert Result(o, r);
    }
    if Means(bodies, sem, st, w, r) {
      var fuel: nat :| Result(CallMeans(x, 0, st, w, fuel), r);
      var m := CallRuns(x, [], 0, st, w, fuel);
      assert Run(q, sem, Start(st, w), m) == r;
    }
  }

  lemma StaysStoppedIfStopped<W>(q: Program, sem: Sem<W>, s: State<W>, m: nat, n: nat)
    requires m <= n
    ensures !Run(q, sem, s, m).Running? ==> Run(q, sem, s, n) == Run(q, sem, s, m)
  {
    if !Run(q, sem, s, m).Running? {
      StaysStopped(q, sem, s, m, n);
    }
  }

  /** Compiled code, fused as it is, ends exactly as the program says: with the same world or the same error. Where the
      program never ends, neither does the code. */
  lemma CompiledMeans<W(!new)>(bodies: seq<Stmt>, p: Program, sem: Sem<W>, st: seq<Value>, w: W, r: State<W>)
    requires AllScoped(bodies) && FusionOf(p, PlainProgram(bodies))
    ensures Ends(p, sem, Start(st, w), r) <==> Means(bodies, sem, st, w, r)
  {
    FusionPreservesMeaning(bodies, p, sem, st, w, r);
    PlainMeans(bodies, sem, st, w, r);
  }

  /** A program means at most one thing. */
  lemma MeansOneThing<W(!new)>(bodies: seq<Stmt>, sem: Sem<W>, st: seq<Value>, w: W, r: State<W>, r': State<W>)
    requires AllScoped(bodies) && Means(bodies, sem, st, w, r) && Means(bodies, sem, st, w, r')
    ensures r == r'
  {
    hide Run, PlainProgram, AllScoped, Means;
    var q, s := PlainProgram(bodies), Start(st, w);
    PlainMeans(bodies, sem, st, w, r);
    PlainMeans(bodies, sem, st, w, r');
    var m: nat :| Run(q, sem, s, m) == r;
    var n: nat :| Run(q, sem, s, n) == r';
    StaysStopped(q, sem, s, if m <= n then m else n, if m <= n then n else m);
  }
}
