/** Instructions of the virtual machine, plain and fused, and what running them does. */
module LoxVm {

  datatype Value = Nil | Bool(b: bool) | Num(n: real) | Str(s: string) | Ref(id: nat)

  datatype BinOp = Equal | NotEqual | Greater | GreaterEqual | Less | LessEqual | Add | Subtract | Multiply | Divide

  /** Jump targets are instruction numbers. `Other` stands for every instruction that is never fused: literals,
      other variables, calls, returns, closures, classes and printing. */
  datatype Instr =
    | Const(v: Value)
    | Other(op: nat)
    | Pop
    | GetLocal(i: nat)
    | SetLocal(i: nat)
    | SetGlobal(g: nat)
    | GetProperty(name: nat, site: nat)
    | SetProperty(name: nat, site: nat)
    | Binary(bop: BinOp)
    | Jump(t: nat)
    | JumpIfFalse(t: nat)
    | JumpIfFalsePop(t: nat)
    | Loop(t: nat)
    // fused
    | SetLocalPop(i: nat)
    | SetGlobalPop(g: nat)
    | SetPropertyPop(name: nat, site: nat)
    | GetLocalProperty(i: nat, name: nat, site: nat)
    | CompareJump(bop: BinOp, t: nat)
    | BinaryC(bop: BinOp, v: Value)
    | CompareCJump(bop: BinOp, v: Value, t: nat)

  predicate IsFused(ins: Instr) {
    ins.SetLocalPop? || ins.SetGlobalPop? || ins.SetPropertyPop? || ins.GetLocalProperty? || ins.CompareJump? || ins.BinaryC? ||
    ins.CompareCJump?
  }

  predicate IsJump(ins: Instr) {
    ins.Jump? || ins.JumpIfFalse? || ins.JumpIfFalsePop? || ins.Loop? || ins.CompareJump? || ins.CompareCJump?
  }

  datatype Error = Undefined(g: nat) | NoInstance | NoField | NotNumbers | NotAddable | Raised(code: nat) | Stuck

  // ----- the world outside the stack -----

  datatype Got<W> = Got(w: W, v: Value) | NoGet(e: Error)

  datatype Put<W> = Put(w: W) | NoPut(e: Error)

  /** What an instruction that is never fused does: go on, enter a function, leave one, or fail. */
  datatype Effect<W> = Go(stack: seq<Value>, w: W) | Enter(fn: nat, base: nat, env: nat, stack: seq<Value>, w: W)
    | Leave(stack: seq<Value>, w: W) | Fail(e: Error)

  /** Everything else: heap, globals, caches and output are in W. */
  datatype Sem<!W> = Sem(
    other: (W, nat, seq<Value>, nat, nat) -> Effect<W>,
    getProp: (W, Value, nat, nat) -> Got<W>,
    setProp: (W, Value, nat, nat, Value) -> Put<W>,
    setGlobal: (W, nat, Value) -> Put<W>)

  // ----- one instruction -----

  predicate Falsey(v: Value) {
    v == Nil || v == Bool(false)
  }

  datatype Computed = Val(v: Value) | Bad(e: Error)

  predicate Compares(op: BinOp) {
    op.Greater? || op.GreaterEqual? || op.Less? || op.LessEqual?
  }

  function CompareNums(op: BinOp, a: real, b: real): bool {
    match op
    case Greater => a > b
    case GreaterEqual => a >= b
    case Less => a < b
    case _ => a <= b
  }

  function Calculate(op: BinOp, a: real, b: real): real {
    match op
    case Subtract => a - b
    case Multiply => a * b
    case _ => if b == 0.0 then 0.0 else a / b
  }

  function Compute(op: BinOp, a: Value, b: Value): Computed {
    if op.Equal? then Val(Bool(a == b))
    else if op.NotEqual? then Val(Bool(a != b))
    else if op.Add? then
      if a.Num? && b.Num? then Val(Num(a.n + b.n))
      else if a.Str? && b.Str? then Val(Str(a.s + b.s))
      else Bad(NotAddable)
    else if !(a.Num? && b.Num?) then Bad(NotNumbers)
    else if Compares(op) then Val(Bool(CompareNums(op, a.n, b.n)))
    else Val(Num(Calculate(op, a.n, b.n)))
  }

  /** The outcome of an instruction for the control of its frame. */
  datatype Act<W> = Next(stack: seq<Value>, w: W) | Goto(t: nat, stack: seq<Value>, w: W)
    | Call(fn: nat, base: nat, env: nat, stack: seq<Value>, w: W) | Return(stack: seq<Value>, w: W) | Stop(e: Error, w: W)

  function Exec<W>(sem: Sem<W>, ins: Instr, base: nat, env: nat, st: seq<Value>, w: W): Act<W> {
    var n := |st|;
    match ins
    case Const(v) => Next(st + [v], w)
    case Other(op) =>
      (match sem.other(w, op, st, base, env)
       case Go(st', w') => Next(st', w')
       case Enter(fn, b, e, st', w') => Call(fn, b, e, st', w')
       case Leave(st', w') => Return(st', w')
       case Fail(e) => Stop(e, w))
    case Pop => if n < 1 then Stop(Stuck, w) else Next(st[..n - 1], w)
    case GetLocal(i) => if base + i >= n then Stop(Stuck, w) else Next(st + [st[base + i]], w)
    case SetLocal(i) => if base + i >= n then Stop(Stuck, w) else Next(st[base + i := st[n - 1]], w)
    case SetGlobal(g) =>
      if n < 1 then Stop(Stuck, w)
      else (match sem.setGlobal(w, g, st[n - 1]) case Put(w') => Next(st, w') case NoPut(e) => Stop(e, w))
    case GetProperty(name, site) =>
      if n < 1 then Stop(Stuck, w)
      else (match sem.getProp(w, st[n - 1], name, site) case Got(w', v) => Next(st[..n - 1] + [v], w') case NoGet(e) => Stop(e, w))
    case SetProperty(name, site) =>
      if n < 2 then Stop(Stuck, w)
      else (match sem.setProp(w, st[n - 2], name, site, st[n - 1])
            case Put(w') => Next(st[..n - 2] + [st[n - 1]], w')
            case NoPut(e) => Stop(e, w))
    case Binary(op) =>
      if n < 2 then Stop(Stuck, w)
      else (match Compute(op, st[n - 2], st[n - 1]) case Val(v) => Next(st[..n - 2] + [v], w) case Bad(e) => Stop(e, w))
    case Jump(t) => Goto(t, st, w)
    case JumpIfFalse(t) => if n < 1 then Stop(Stuck, w) else if Falsey(st[n - 1]) then Goto(t, st, w) else Next(st, w)
    case JumpIfFalsePop(t) =>
      if n < 1 then Stop(Stuck, w) else if Falsey(st[n - 1]) then Goto(t, st[..n - 1], w) else Next(st[..n - 1], w)
    case Loop(t) => Goto(t, st, w)
    case SetLocalPop(i) =>
      if n < 1 || base + i >= n then Stop(Stuck, w)
      else if base + i == n - 1 then Next(st[..n - 1], w)
      else Next(st[..n - 1][base + i := st[n - 1]], w)
    case SetGlobalPop(g) =>
      if n < 1 then Stop(Stuck, w)
      else (match sem.setGlobal(w, g, st[n - 1]) case Put(w') => Next(st[..n - 1], w') case NoPut(e) => Stop(e, w))
    case SetPropertyPop(name, site) =>
      if n < 2 then Stop(Stuck, w)
      else (match sem.setProp(w, st[n - 2], name, site, st[n - 1])
            case Put(w') => Next(st[..n - 2], w')
            case NoPut(e) => Stop(e, w))
    case GetLocalProperty(i, name, site) =>
      if base + i >= n then Stop(Stuck, w)
      else (match sem.getProp(w, st[base + i], name, site) case Got(w', v) => Next(st + [v], w') case NoGet(e) => Stop(e, w))
    case CompareJump(op, t) =>
      if n < 2 then Stop(Stuck, w)
      else if op.Equal? || op.NotEqual? then
        if (st[n - 2] == st[n - 1]) == op.Equal? then Next(st[..n - 2], w) else Goto(t, st[..n - 2], w)
      else if !(st[n - 2].Num? && st[n - 1].Num?) then Stop(NotNumbers, w)
      else if CompareNums(op, st[n - 2].n, st[n - 1].n) then Next(st[..n - 2], w) else Goto(t, st[..n - 2], w)
    case BinaryC(op, v) =>
      if n < 1 || !v.Num? then Stop(Stuck, w)
      else if !st[n - 1].Num? then Stop(if op.Add? then NotAddable else NotNumbers, w)
      else if op.Add? then Next(st[..n - 1] + [Num(st[n - 1].n + v.n)], w)
      else if op.Subtract? then Next(st[..n - 1] + [Num(st[n - 1].n - v.n)], w)
      else Next(st[..n - 1] + [Bool(CompareNums(op, st[n - 1].n, v.n))], w)
    case CompareCJump(op, v, t) =>
      if n < 1 || !v.Num? then Stop(Stuck, w)
      else if !st[n - 1].Num? then Stop(NotNumbers, w)
      else if CompareNums(op, st[n - 1].n, v.n) then Next(st[..n - 1], w) else Goto(t, st[..n - 1], w)
  }

  // ----- the machine -----

  datatype Frame = Frame(fn: nat, ip: nat, base: nat, env: nat)

  /** The last frame is the running one. */
  datatype State<W> = Running(frames: seq<Frame>, stack: seq<Value>, w: W) | Finished(w: W) | Failed(e: Error, w: W)

  /** The code of every function. */
  type Program = seq<seq<Instr>>

  function Apply<W>(frames: seq<Frame>, next: nat, a: Act<W>): State<W>
    requires frames != []
  {
    var top := frames[|frames| - 1];
    var below := frames[..|frames| - 1];
    match a
    case Next(st, w') => Running(below + [top.(ip := next)], st, w')
    case Goto(t, st, w') => Running(below + [top.(ip := t)], st, w')
    case Call(fn, base, env, st, w') => Running(below + [top.(ip := next), Frame(fn, 0, base, env)], st, w')
    case Return(st, w') => if below == [] then Finished(w') else Running(below, st, w')
    case Stop(e, w') => Failed(e, w')
  }

  function Step<W>(p: Program, sem: Sem<W>, s: State<W>): State<W> {
    if !s.Running? then s
    else if s.frames == [] then Failed(Stuck, s.w)
    else
      var top := s.frames[|s.frames| - 1];
      if top.fn >= |p| || top.ip >= |p[top.fn]| then Failed(Stuck, s.w)
      else Apply(s.frames, top.ip + 1, Exec(sem, p[top.fn][top.ip], top.base, top.env, s.stack, s.w))
  }

  function Run<W>(p: Program, sem: Sem<W>, s: State<W>, n: nat): State<W>
    decreases n
  {
    if n == 0 then s else Run(p, sem, Step(p, sem, s), n - 1)
  }
}
