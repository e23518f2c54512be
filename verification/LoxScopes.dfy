/** Scopes of the one-pass compiler: local variables with their depth and captured flag, resolution through enclosing
    functions, and how a scope ends. Every closure instruction captures only variables that are flagged, and a variable
    that is flagged is never dropped by a plain pop. */
module LoxScopes {

  // ----- instructions, as far as variables and the height of the stack go -----

  /** What a closure captures: a slot of the enclosing function or one of its upvalues. */
  datatype Ref = Ref(index: nat, isLocal: bool)

  /** `Use` stands for every instruction that takes temporaries and perhaps leaves a value; `Branch` pops its condition,
      `JumpIfFalse` leaves it. */
  datatype Instr =
    | Use(pops: nat, push: bool)
    | GetLocal(i: nat)
    | SetLocal(i: nat)
    | GetUp(u: nat)
    | SetUp(u: nat)
    | Pop
    | CloseUp
    | Jump(t: nat)
    | JumpIfFalse(t: nat)
    | Branch(t: nat)
    | Closure(fn: nat, refs: seq<Ref>)
    | Call(argc: nat)
    | Return

  predicate IsJump(ins: Instr) {
    ins.Jump? || ins.JumpIfFalse? || ins.Branch?
  }

  /** What is so whenever control is at a place: the variables in the first slots of the frame, by serial number, and the
      number of slots in use. */
  datatype Here = Here(vars: seq<nat>, height: nat)

  /** A finished function. `caught` are the variables that closures capture, `dead` those dropped by a pop. */
  datatype Code = Code(instrs: seq<Instr>, arity: nat, ups: nat, ghost here: seq<Here>, ghost caught: set<nat>, ghost dead: set<nat>)

  /** From these variables and this height control comes to `h`; the slot on top may have become a variable. */
  ghost predicate Onto(h: Here, vars: seq<nat>, height: int) {
    h.height == height && |vars| <= height && (h.vars == vars || (|h.vars| == |vars| + 1 == height && vars <= h.vars))
  }

  ghost predicate Leads(here: seq<Here>, t: nat, vars: seq<nat>, height: int) {
    t < |here| && Onto(here[t], vars, height)
  }

  /** A captured slot holds a variable that is flagged. */
  ghost predicate Catches(refs: seq<Ref>, vars: seq<nat>, ups: nat, caught: set<nat>) {
    forall i :: 0 <= i < |refs| ==>
      if refs[i].isLocal then refs[i].index < |vars| && vars[refs[i].index] in caught else refs[i].index < ups
  }

  /** The instruction fits what is known before and after it. A pop drops a temporary or a variable that is dead. */
  ghost predicate Okay(prog: seq<Code>, ups: nat, here: seq<Here>, caught: set<nat>, dead: set<nat>, pc: nat, ins: Instr)
    requires pc + 1 < |here|
  {
    var vars, n := here[pc].vars, here[pc].height;
    && |vars| <= n
    && match ins
       case Use(k, push) => |vars| + k <= n && Onto(here[pc + 1], vars, n - k + if push then 1 else 0)
       case GetLocal(i) => i < n && Onto(here[pc + 1], vars, n + 1)
       case SetLocal(i) => i < n && |vars| < n && Onto(here[pc + 1], vars, n)
       case GetUp(u) => u < ups && Onto(here[pc + 1], vars, n + 1)
       case SetUp(u) => u < ups && |vars| < n && Onto(here[pc + 1], vars, n)
       case Pop =>
         if |vars| < n then Onto(here[pc + 1], vars, n - 1)
         else n > 0 && vars[n - 1] in dead && Onto(here[pc + 1], vars[..n - 1], n - 1)
       case CloseUp => |vars| == n && n > 0 && Onto(here[pc + 1], vars[..n - 1], n - 1)
       case Jump(t) => Leads(here, t, vars, n)
       case JumpIfFalse(t) => |vars| < n && Leads(here, t, vars, n) && Onto(here[pc + 1], vars, n)
       case Branch(t) => |vars| < n && Leads(here, t, vars, n - 1) && Onto(here[pc + 1], vars, n - 1)
       case Closure(fn, refs) =>
         && fn < |prog| && |refs| == prog[fn].ups && Onto(here[pc + 1], vars, n + 1)
         && Catches(refs, here[pc + 1].vars, ups, caught)
       case Call(argc) => |vars| + argc + 1 <= n && Onto(here[pc + 1], vars, n - argc)
       case Return => |vars| < n
  }

  /** More functions, upvalues and flags, and more code behind, do no harm. */
  lemma OkayMore(prog: seq<Code>, ups: nat, here: seq<Here>, caught: set<nat>, dead: set<nat>, pc: nat, ins: Instr,
                 prog': seq<Code>, ups': nat, here': seq<Here>, caught': set<nat>, dead': set<nat>)
    requires pc + 1 < |here| && Okay(prog, ups, here, caught, dead, pc, ins)
    requires prog <= prog' && ups <= ups' && here <= here' && caught <= caught' && dead <= dead'
    ensures Okay(prog', ups', here', caught', dead', pc, ins)
  {
    if ins.Closure? {
      assert prog'[ins.fn] == prog[ins.fn];
    }
  }

  ghost predicate AllOkay(prog: seq<Code>, ups: nat, code: seq<Instr>, here: seq<Here>, caught: set<nat>, dead: set<nat>, open: set<nat>)
    requires |here| == |code| + 1
  {
    forall pc :: 0 <= pc < |code| && pc !in open ==> Okay(prog, ups, here, caught, dead, pc, code[pc])
  }

  /** A finished function: every instruction fits, no control leaves the code, and no captured variable is popped. */
  ghost predicate CodeOk(prog: seq<Code>, c: Code) {
    && |c.here| == |c.instrs| + 1 && c.instrs != [] && c.instrs[|c.instrs| - 1] == Return
    && AllOkay(prog, c.ups, c.instrs, c.here, c.caught, c.dead, {})
    && (forall pc :: 0 <= pc < |c.instrs| && IsJump(c.instrs[pc]) ==> c.instrs[pc].t < |c.instrs|)
    && c.caught !! c.dead && c.here[0].height == c.arity + 1 && |c.here[0].vars| <= c.arity + 1
  }

  ghost predicate ProgOk(prog: seq<Code>) {
    forall f :: 0 <= f < |prog| ==> CodeOk(prog, prog[f])
  }

  // ----- compilers -----

  /** A local variable; its depth is -1 until it is initialised. The serial number tells it from all others of the function. */
  datatype Local = Local(name: string, depth: int, captured: bool, id: nat)

  /** One function being compiled. `open` are the jumps still to be patched. */
  datatype Compiler = Compiler(locals: seq<Local>, upvalues: seq<Ref>, depth: nat, code: seq<Instr>, arity: nat, made: nat, init: bool,
                               ghost here: seq<Here>, ghost open: set<nat>, ghost caught: set<nat>, ghost dead: set<nat>)

  function Ids(ls: seq<Local>): (r: seq<nat>)
    ensures |r| == |ls| && forall i :: 0 <= i < |ls| ==> r[i] == ls[i].id
  {
    seq(|ls|, i requires 0 <= i < |ls| => ls[i].id)
  }

  /** What is known at the end of the code so far. */
  ghost function Top(c: Compiler): Here
    requires |c.here| == |c.code| + 1
  {
    c.here[|c.code|]
  }

  /** The locals are the variables in slots, and perhaps one more that is being declared. */
  ghost predicate NamesOk(c: Compiler)
    requires |c.here| == |c.code| + 1
  {
    && |Top(c).vars| <= |c.locals| <= |Top(c).vars| + 1 && |Top(c).vars| <= Top(c).height && Top(c).vars <= Ids(c.locals)
    && (forall i :: 0 <= i < |c.locals| ==> c.locals[i].id < c.made && c.locals[i].id !in c.dead && c.locals[i].depth <= c.depth)
    && (forall i, j :: 0 <= i < j < |c.locals| ==> c.locals[i].id != c.locals[j].id)
    && (forall i :: 0 <= i < |c.locals| ==> (c.locals[i].captured <==> c.locals[i].id in c.caught))
    && c.caught !! c.dead && (forall x :: x in c.caught || x in c.dead ==> x < c.made)
  }

  ghost predicate CompOk(prog: seq<Code>, c: Compiler) {
    && |c.here| == |c.code| + 1 && AllOkay(prog, |c.upvalues|, c.code, c.here, c.caught, c.dead, c.open)
    && (forall pc :: pc in c.open ==> pc < |c.code| && IsJump(c.code[pc]))
    && NamesOk(c) && c.here[0].height == c.arity + 1 && |c.here[0].vars| <= c.arity + 1
  }

  /** What an upvalue refers to is a flagged local or an upvalue of the enclosing function. */
  ghost predicate RefOk(r: Ref, outer: Compiler) {
    if r.isLocal then r.index < |outer.locals| && outer.locals[r.index].captured else r.index < |outer.upvalues|
  }

  ghost predicate RefsOk(c: Compiler, outer: Compiler) {
    forall i :: 0 <= i < |c.upvalues| ==> RefOk(c.upvalues[i], outer)
  }

  /** All functions being compiled, each enclosed by the one before it. */
  ghost predicate AllOk(prog: seq<Code>, cs: seq<Compiler>) {
    && (|cs| > 0 ==> cs[0].upvalues == [])
    && (forall k :: 0 <= k < |cs| ==> CompOk(prog, cs[k]))
    && (forall k :: 0 < k < |cs| ==> RefsOk(cs[k], cs[k - 1]))
  }

  // ----- how a compiler changes -----

  /** The same locals, some perhaps flagged since. */
  ghost predicate SameLocals(a: seq<Local>, b: seq<Local>) {
    |a| == |b| && forall i :: 0 <= i < |a| ==>
      a[i].name == b[i].name && a[i].depth == b[i].depth && a[i].id == b[i].id && (a[i].captured ==> b[i].captured)
  }

  /** Nothing changed except that variables were resolved from inside. */
  ghost predicate Flagged(c: Compiler, d: Compiler) {
    && SameLocals(c.locals, d.locals) && c.upvalues <= d.upvalues && c.caught <= d.caught
    && d.depth == c.depth && d.code == c.code && d.arity == c.arity && d.made == c.made && d.init == c.init
    && d.here == c.here && d.open == c.open && d.dead == c.dead
  }

  /** More code; the locals that were there are still there. */
  ghost predicate Extends(c: Compiler, d: Compiler) {
    && c.code <= d.code && c.here <= d.here && d.open == c.open && c.upvalues <= d.upvalues && c.caught <= d.caught && c.dead <= d.dead
    && c.made <= d.made && d.depth == c.depth && d.arity == c.arity && d.init == c.init
    && |c.locals| <= |d.locals| && SameLocals(c.locals, d.locals[..|c.locals|])
    && forall i :: |c.locals| <= i < |d.locals| ==> d.locals[i].depth == d.depth
  }

  /** The enclosing functions are only flagged. */
  ghost predicate Below(cs: seq<Compiler>, ds: seq<Compiler>) {
    |ds| == |cs| && forall k :: 0 <= k < |cs| - 1 ==> Flagged(cs[k], ds[k])
  }

  lemma FlaggedTwice(a: Compiler, b: Compiler, c: Compiler)
    requires Flagged(a, b) && Flagged(b, c)
    ensures Flagged(a, c)
  {}

  lemma ExtendsTwice(a: Compiler, b: Compiler, c: Compiler)
    requires Extends(a, b) && Extends(b, c)
    ensures Extends(a, c)
  {
    forall i | 0 <= i < |a.locals|
      ensures c.locals[i].name == a.locals[i].name && c.locals[i].depth == a.locals[i].depth && c.locals[i].id == a.locals[i].id
      ensures a.locals[i].captured ==> c.locals[i].captured
    {
      assert b.locals[..|a.locals|][i] == b.locals[i] && c.locals[..|b.locals|][i] == c.locals[i];
    }
    forall i | |a.locals| <= i < |c.locals|
      ensures c.locals[i].depth == c.depth
    {
      assert i < |b.locals| ==> c.locals[..|b.locals|][i] == c.locals[i];
    }
  }

  lemma BelowTwice(as0: seq<Compiler>, bs: seq<Compiler>, cs: seq<Compiler>)
    requires Below(as0, bs) && Below(bs, cs)
    ensures Below(as0, cs)
  {
    forall k | 0 <= k < |as0| - 1
      ensures Flagged(as0[k], cs[k])
    {
      FlaggedTwice(as0[k], bs[k], cs[k]);
    }
  }

  lemma FlaggedRefs(c: Compiler, outer: Compiler, outer': Compiler)
    requires RefsOk(c, outer) && Flagged(outer, outer')
    ensures RefsOk(c, outer')
  {
    forall i | 0 <= i < |c.upvalues|
      ensures RefOk(c.upvalues[i], outer')
    {
      assert RefOk(c.upvalues[i], outer);
    }
  }

  /** Flags a local that an inner function refers to. */
  function Mark(c: Compiler, i: nat): Compiler
    requires i < |c.locals|
  {
    c.(locals := c.locals[i := c.locals[i].(captured := true)], caught := c.caught + {c.locals[i].id})
  }

  lemma MarkOk(prog: seq<Code>, c: Compiler, i: nat)
    requires CompOk(prog, c) && i < |c.locals|
    ensures CompOk(prog, Mark(c, i)) && Flagged(c, Mark(c, i))
  {
    hide Okay;
    var d := Mark(c, i);
    forall pc | 0 <= pc < |c.code| && pc !in c.open
      ensures Okay(prog, |d.upvalues|, d.here, d.caught, d.dead, pc, d.code[pc])
    {
      OkayMore(prog, |c.upvalues|, c.here, c.caught, c.dead, pc, c.code[pc], prog, |d.upvalues|, d.here, d.caught, d.dead);
    }
    assert Ids(d.locals) == Ids(c.locals);
  }

  lemma AddRefOk(prog: seq<Code>, c: Compiler, r: Ref)
    requires CompOk(prog, c)
    ensures var d := c.(upvalues := c.upvalues + [r]); CompOk(prog, d) && Flagged(c, d)
  {
    hide Okay;
    var d := c.(upvalues := c.upvalues + [r]);
    forall pc | 0 <= pc < |c.code| && pc !in c.open
      ensures Okay(prog, |d.upvalues|, d.here, d.caught, d.dead, pc, d.code[pc])
    {
      OkayMore(prog, |c.upvalues|, c.here, c.caught, c.dead, pc, c.code[pc], prog, |d.upvalues|, d.here, d.caught, d.dead);
    }
  }

  lemma ProgMore(prog: seq<Code>, c: Compiler, prog': seq<Code>)
    requires CompOk(prog, c) && prog <= prog'
    ensures CompOk(prog', c)
  {
    hide Okay, NamesOk;
    forall pc | 0 <= pc < |c.code| && pc !in c.open
      ensures Okay(prog', |c.upvalues|, c.here, c.caught, c.dead, pc, c.code[pc])
    {
      OkayMore(prog, |c.upvalues|, c.here, c.caught, c.dead, pc, c.code[pc], prog', |c.upvalues|, c.here, c.caught, c.dead);
    }
  }

  /** One more instruction. */
  function Emitted(c: Compiler, ins: Instr, ghost next: Here): Compiler {
    c.(code := c.code + [ins], here := c.here + [next])
  }

  lemma EmittedOk(prog: seq<Code>, c: Compiler, ins: Instr, next: Here)
    requires CompOk(prog, c) && NamesOk(Emitted(c, ins, next))
    requires Okay(prog, |c.upvalues|, c.here + [next], c.caught, c.dead, |c.code|, ins)
    ensures CompOk(prog, Emitted(c, ins, next)) && Extends(c, Emitted(c, ins, next))
  {
    hide Okay;
    var d := Emitted(c, ins, next);
    forall pc | 0 <= pc < |d.code| && pc !in d.open
      ensures Okay(prog, |d.upvalues|, d.here, d.caught, d.dead, pc, d.code[pc])
    {
      if pc < |c.code| {
        OkayMore(prog, |c.upvalues|, c.here, c.caught, c.dead, pc, c.code[pc], prog, |d.upvalues|, d.here, d.caught, d.dead);
      }
    }
    assert d.locals[..|c.locals|] == c.locals;
  }

  /** How an instruction that drops no variable changes the height. */
  function Delta(ins: Instr): int {
    match ins
    case Use(k, push) => (if push then 1 else 0) - k
    case GetLocal(_) => 1
    case GetUp(_) => 1
    case Pop => -1
    case Call(argc) => 0 - argc
    case Branch(_) => -1
    case _ => 0
  }

  /** The instruction finds what it needs; jumps are to be patched later. */
  ghost predicate Applies(h: Here, ups: nat, ins: Instr) {
    match ins
    case Use(k, _) => |h.vars| + k <= h.height
    case GetLocal(i) => i < h.height
    case SetLocal(i) => i < h.height && |h.vars| < h.height
    case GetUp(u) => u < ups
    case SetUp(u) => u < ups && |h.vars| < h.height
    case Pop => |h.vars| < h.height
    case Call(argc) => |h.vars| + argc + 1 <= h.height
    case Return => |h.vars| < h.height
    case Jump(_) => true
    case JumpIfFalse(_) => |h.vars| < h.height
    case Branch(_) => |h.vars| < h.height
    case _ => false
  }

  ghost function After(h: Here, ups: nat, ins: Instr): Here
    requires |h.vars| <= h.height && Applies(h, ups, ins)
  {
    Here(h.vars, h.height + Delta(ins))
  }

  lemma PlainOk(prog: seq<Code>, c: Compiler, ins: Instr)
    requires CompOk(prog, c) && Applies(Top(c), |c.upvalues|, ins) && !IsJump(ins)
    ensures var d := Emitted(c, ins, After(Top(c), |c.upvalues|, ins)); CompOk(prog, d) && Extends(c, d)
  {
    hide AllOkay;
    EmittedOk(prog, c, ins, After(Top(c), |c.upvalues|, ins));
  }

  /** A jump whose target is not known yet. */
  function Pending(c: Compiler, ins: Instr, ghost next: Here): Compiler {
    c.(code := c.code + [ins], here := c.here + [next], open := c.open + {|c.code|})
  }

  lemma PendingOk(prog: seq<Code>, c: Compiler, ins: Instr)
    requires CompOk(prog, c) && Applies(Top(c), |c.upvalues|, ins) && IsJump(ins)
    ensures var d := Pending(c, ins, After(Top(c), |c.upvalues|, ins)); CompOk(prog, d) && Extends(c.(open := d.open), d)
  {
    hide Okay;
    var d := Pending(c, ins, After(Top(c), |c.upvalues|, ins));
    forall pc | 0 <= pc < |d.code| && pc !in d.open
      ensures Okay(prog, |d.upvalues|, d.here, d.caught, d.dead, pc, d.code[pc])
    {
      OkayMore(prog, |c.upvalues|, c.here, c.caught, c.dead, pc, c.code[pc], prog, |d.upvalues|, d.here, d.caught, d.dead);
    }
    assert d.locals[..|c.locals|] == c.locals;
  }

  function WithTarget(ins: Instr, t: nat): Instr
    requires IsJump(ins)
  {
    ins.(t := t)
  }

  /** The jump at `at` leads to the end of the code. */
  function Patched(c: Compiler, at: nat): Compiler
    requires at < |c.code| && IsJump(c.code[at])
  {
    c.(code := c.code[at := WithTarget(c.code[at], |c.code|)], open := c.open - {at})
  }

  lemma PatchedOk(prog: seq<Code>, c: Compiler, at: nat)
    requires CompOk(prog, c) && at in c.open && at < |c.code| && IsJump(c.code[at])
    requires Okay(prog, |c.upvalues|, c.here, c.caught, c.dead, at, WithTarget(c.code[at], |c.code|))
    ensures CompOk(prog, Patched(c, at))
  {
    hide Okay;
  }

  // ----- declaring -----

  /** A local that is being declared. */
  function Declared(c: Compiler, x: string, depth: int): Compiler {
    c.(locals := c.locals + [Local(x, depth, false, c.made)], made := c.made + 1)
  }

  lemma DeclaredOk(prog: seq<Code>, c: Compiler, x: string, depth: int)
    requires CompOk(prog, c) && |c.locals| == |Top(c).vars| && depth <= c.depth
    ensures CompOk(prog, Declared(c, x, depth))
  {
    hide AllOkay;
    var d := Declared(c, x, depth);
    assert Ids(c.locals) <= Ids(d.locals);
  }

  /** The value on top becomes the variable being declared. */
  function Defined(c: Compiler): Compiler
    requires |c.here| == |c.code| + 1 && |c.locals| > 0
  {
    var n := |c.locals| - 1;
    c.(locals := c.locals[n := c.locals[n].(depth := c.depth)],
       here := c.here[|c.code| := Here(Ids(c.locals), c.here[|c.code|].height)])
  }

  lemma DefinedOk(prog: seq<Code>, c: Compiler)
    requires CompOk(prog, c) && |c.locals| == |Top(c).vars| + 1 == Top(c).height && |c.code| > 0
    ensures CompOk(prog, Defined(c))
  {
    hide Okay;
    var d := Defined(c);
    assert Ids(d.locals) == Ids(c.locals);
    forall pc | 0 <= pc < |c.code| && pc !in c.open
      ensures Okay(prog, |d.upvalues|, d.here, d.caught, d.dead, pc, d.code[pc])
    {
      OkayDefined(prog, c, pc);
    }
  }

  lemma OkayDefined(prog: seq<Code>, c: Compiler, pc: nat)
    requires CompOk(prog, c) && |c.locals| == |Top(c).vars| + 1 == Top(c).height && |c.code| > 0
    requires pc < |c.code| && pc !in c.open
    ensures Okay(prog, |c.upvalues|, Defined(c).here, c.caught, c.dead, pc, c.code[pc])
  {
    assert Okay(prog, |c.upvalues|, c.here, c.caught, c.dead, pc, c.code[pc]);
    var here, here' := c.here, Defined(c).here;
    forall t: nat, vars, n | t < |here| && Onto(here[t], vars, n)
      ensures Onto(here'[t], vars, n)
    {}
  }

  /** A slot that is there before the first instruction. */
  function WithParam(c: Compiler, x: string): Compiler
    requires |c.here| == 1
  {
    var d := Declared(c, x, c.depth);
    d.(arity := c.arity + 1, here := [Here(Ids(d.locals), c.here[0].height + 1)])
  }

  lemma ParamOk(prog: seq<Code>, c: Compiler, x: string)
    requires CompOk(prog, c) && c.code == [] && Settled(c)
    ensures CompOk(prog, WithParam(c, x)) && Settled(WithParam(c, x))
  {
    var d := WithParam(c, x);
    assert Ids(d.locals) == Ids(c.locals) + [c.made];
  }

  function Fresh(x: string, init: bool): Compiler {
    Compiler([Local(x, 0, false, 0)], [], 0, [], 0, 1, init, [Here([0], 1)], {}, {}, {})
  }

  lemma FreshOk(prog: seq<Code>, x: string, init: bool)
    ensures CompOk(prog, Fresh(x, init)) && Settled(Fresh(x, init))
  {
    assert Ids(Fresh(x, init).locals) == [0];
  }

  /** No temporaries, and no variable being declared. */
  ghost predicate Settled(c: Compiler) {
    |c.here| == |c.code| + 1 && Top(c) == Here(Ids(c.locals), |c.locals|)
  }

  // ----- the end of a scope -----

  /** How the last local leaves: closed if it was captured, popped otherwise. */
  function Leaving(l: Local): Instr {
    if l.captured then CloseUp else Pop
  }

  function Dropped(c: Compiler): Compiler
    requires |c.locals| > 0
  {
    var n := |c.locals| - 1;
    c.(locals := c.locals[..n], code := c.code + [Leaving(c.locals[n])], here := c.here + [Here(Ids(c.locals[..n]), n)],
       dead := if c.locals[n].captured then c.dead else c.dead + {c.locals[n].id})
  }

  lemma DroppedOk(prog: seq<Code>, c: Compiler)
    requires CompOk(prog, c) && Settled(c) && |c.locals| > 0
    ensures CompOk(prog, Dropped(c)) && Settled(Dropped(c))
  {
    var n, d := |c.locals| - 1, Dropped(c);
    assert Ids(c.locals)[..n] == Ids(d.locals);
    hide AllOkay;
    assert AllOkay(prog, |d.upvalues|, d.code, d.here, d.caught, d.dead, d.open) by {
      DroppedCode(prog, c);
    }
  }

  lemma DroppedCode(prog: seq<Code>, c: Compiler)
    requires CompOk(prog, c) && Settled(c) && |c.locals| > 0
    ensures var d := Dropped(c); AllOkay(prog, |d.upvalues|, d.code, d.here, d.caught, d.dead, d.open)
  {
    var n, d := |c.locals| - 1, Dropped(c);
    assert Ids(c.locals)[..n] == Ids(d.locals);
    assert Okay(prog, |d.upvalues|, d.here, d.caught, d.dead, |c.code|, d.code[|c.code|]);
    hide Okay;
    forall pc | 0 <= pc < |c.code| && pc !in d.open
      ensures Okay(prog, |d.upvalues|, d.here, d.caught, d.dead, pc, d.code[pc])
    {
      OkayMore(prog, |c.upvalues|, c.here, c.caught, c.dead, pc, c.code[pc], prog, |d.upvalues|, d.here, d.caught, d.dead);
    }
  }

  // ----- closures and finished functions -----

  /** The closure of a finished function; if a function is being declared, the closure is its variable. */
  function Closed(c: Compiler, fn: nat, refs: seq<Ref>): Compiler
    requires |c.here| == |c.code| + 1
  {
    Emitted(c, Closure(fn, refs), Here(Ids(c.locals), Top(c).height + 1))
  }

  /** Every slot it captures is flagged. */
  lemma ClosedOk(prog: seq<Code>, c: Compiler, fn: nat, inner: Compiler)
    requires CompOk(prog, c) && RefsOk(inner, c) && fn < |prog| && prog[fn].ups == |inner.upvalues|
    requires |c.locals| == |Top(c).vars| || |Top(c).vars| == Top(c).height
    ensures CompOk(prog, Closed(c, fn, inner.upvalues)) && Extends(c, Closed(c, fn, inner.upvalues))
  {
    hide AllOkay, Okay, Extends;
    ClosureOkay(prog, c, fn, inner);
    EmittedOk(prog, c, Closure(fn, inner.upvalues), Here(Ids(c.locals), Top(c).height + 1));
  }

  lemma ClosureOkay(prog: seq<Code>, c: Compiler, fn: nat, inner: Compiler)
    requires CompOk(prog, c) && RefsOk(inner, c) && fn < |prog| && prog[fn].ups == |inner.upvalues|
    requires |c.locals| == |Top(c).vars| || |Top(c).vars| == Top(c).height
    ensures var next := Here(Ids(c.locals), Top(c).height + 1);
      Okay(prog, |c.upvalues|, c.here + [next], c.caught, c.dead, |c.code|, Closure(fn, inner.upvalues))
  {
    hide AllOkay;
    var next, refs := Here(Ids(c.locals), Top(c).height + 1), inner.upvalues;
    assert |c.locals| == |Top(c).vars| ==> Ids(c.locals) == Top(c).vars;
    forall i | 0 <= i < |refs|
      ensures if refs[i].isLocal then refs[i].index < |next.vars| && next.vars[refs[i].index] in c.caught else refs[i].index < |c.upvalues|
    {
      assert RefOk(refs[i], c);
    }
    assert Onto(next, Top(c).vars, Top(c).height + 1);
  }

  /** The function as finished: it ends by returning nil, or the instance if it is an initialiser. */
  function Finished(c: Compiler): Code
    requires |c.here| == |c.code| + 1
  {
    Code(c.code + [if c.init then GetLocal(0) else Use(0, true), Return], c.arity, |c.upvalues|,
         c.here + [Here(Top(c).vars, Top(c).height + 1), Here(Top(c).vars, Top(c).height + 1)], c.caught, c.dead)
  }

  lemma FinishedOk(prog: seq<Code>, c: Compiler)
    requires CompOk(prog, c) && c.open == {} && Settled(c) && |c.locals| > 0
    ensures CodeOk(prog, Finished(c))
  {
    hide Okay;
    var f := Finished(c);
    EndedOk(prog, c);
    forall pc | 0 <= pc < |f.instrs| && IsJump(f.instrs[pc])
      ensures f.instrs[pc].t < |f.instrs|
    {
      assert pc < |c.code| && f.instrs[pc] == c.code[pc];
      TargetInCode(prog, c, pc);
    }
  }

  lemma EndedOk(prog: seq<Code>, c: Compiler)
    requires CompOk(prog, c) && c.open == {} && Settled(c) && |c.locals| > 0
    ensures var f := Finished(c); AllOkay(prog, f.ups, f.instrs, f.here, f.caught, f.dead, {})
  {
    hide AllOkay, Okay, Extends;
    var ins := if c.init then GetLocal(0) else Use(0, true);
    var h := Here(Top(c).vars, Top(c).height + 1);
    PlainOk(prog, c, ins);
    var d := Emitted(c, ins, h);
    assert d == Emitted(c, ins, After(Top(c), |c.upvalues|, ins)) && Top(d) == h;
    PlainOk(prog, d, Return);
    var e := Emitted(d, Return, h);
    assert e.code == Finished(c).instrs && e.here == Finished(c).here;
  }

  lemma TargetInCode(prog: seq<Code>, c: Compiler, pc: nat)
    requires CompOk(prog, c) && pc < |c.code| && pc !in c.open && IsJump(c.code[pc])
    ensures c.code[pc].t <= |c.code|
  {
    assert Okay(prog, |c.upvalues|, c.here, c.caught, c.dead, pc, c.code[pc]);
  }
}
