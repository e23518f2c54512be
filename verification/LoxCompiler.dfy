/** The one-pass compiler: emission that fuses as it goes, against a compiler that does not. */
module LoxCompiler {
  import opened LoxVm
  import opened LoxFusion

  // ----- emitted code -----

  /** The jump at i is still to be patched: the plain code already has its target. */
  ghost predicate OpenAt(code: seq<Instr>, plain: seq<Instr>, pos: seq<nat>, i: nat)
    requires i < |code| && |pos| == |code| + 1
  {
    && IsJump(code[i]) && Proper(code[i])
    && pos[i] < pos[i + 1] <= |plain| && IsJump(plain[pos[i + 1] - 1])
    && plain[pos[i]..pos[i + 1]] == Expand(code[i], plain[pos[i + 1] - 1].t)
  }

  /** No patched jump leads to the end of the code without `jumpTarget` telling so. */
  ghost predicate EndGuarded(code: seq<Instr>, open: set<nat>, jumpTarget: int) {
    forall i :: 0 <= i < |code| && i !in open && IsJump(code[i]) && code[i].t == |code| ==> jumpTarget == |code|
  }

  ghost predicate Emitted(code: seq<Instr>, plain: seq<Instr>, pos: seq<nat>, open: set<nat>) {
    && |pos| == |code| + 1 && pos[0] == 0 && pos[|code|] == |plain|
    && (forall i :: 0 <= i < |code| && i !in open ==> BlockAt(code, plain, pos, i))
    && (forall i :: i in open ==> i < |code| && OpenAt(code, plain, pos, i))
  }

  /** Positions up to `keep` stand for the same places as before. */
  ghost predicate Kept(pos: seq<nat>, pos': seq<nat>, keep: nat) {
    keep < |pos| && keep < |pos'| && forall t :: 0 <= t <= keep ==> pos'[t] == pos[t]
  }

  lemma SliceStays(plain: seq<Instr>, plain': seq<Instr>, a: nat, b: nat)
    requires plain <= plain' && a <= b <= |plain|
    ensures plain'[a..b] == plain[a..b]
  {}

  lemma OldBlock(code: seq<Instr>, plain: seq<Instr>, pos: seq<nat>, code': seq<Instr>, plain': seq<Instr>, pos': seq<nat>, i: nat)
    requires i < |code| <= |code'| && |pos| == |code| + 1 && |pos'| == |code'| + 1 && plain <= plain'
    requires BlockAt(code, plain, pos, i) && code'[i] == code[i] && pos'[i] == pos[i] && pos'[i + 1] == pos[i + 1]
    requires IsJump(code[i]) ==> pos'[code[i].t] == pos[code[i].t]
    ensures BlockAt(code', plain', pos', i)
  {
    hide Expand, Proper;
    ExpandAnywhere(code[i], pos[Target(code[i])], pos'[Target(code[i])]);
    SliceStays(plain, plain', pos[i], pos[i + 1]);
  }

  lemma OldOpen(code: seq<Instr>, plain: seq<Instr>, pos: seq<nat>, code': seq<Instr>, plain': seq<Instr>, pos': seq<nat>, i: nat)
    requires i < |code| <= |code'| && |pos| == |code| + 1 && |pos'| == |code'| + 1 && plain <= plain'
    requires OpenAt(code, plain, pos, i) && code'[i] == code[i] && pos'[i] == pos[i] && pos'[i + 1] == pos[i + 1]
    ensures OpenAt(code', plain', pos', i)
  {
    hide Expand, Proper;
    SliceStays(plain, plain', pos[i], pos[i + 1]);
  }

  /** Instruction i is at the end of the code and stands for the end of the plain code. */
  lemma NewBlock(code: seq<Instr>, plain: seq<Instr>, pos: seq<nat>, i: nat, to: nat)
    requires |pos| == |code| + 1 && i + 1 == |code| && pos[i] <= pos[i + 1] == |plain| && Proper(code[i])
    requires plain[pos[i]..] == Expand(code[i], to)
    ensures IsJump(code[i]) ==> OpenAt(code, plain, pos, i) && plain[|plain| - 1].t == to
    ensures (IsJump(code[i]) ==> code[i].t <= |code| && to == pos[code[i].t]) ==> BlockAt(code, plain, pos, i)
  {
    hide Expand, Proper;
    var b := Expand(code[i], to);
    ExpandLast(code[i], to);
    assert plain[|plain| - 1] == b[|b| - 1];
    assert plain[pos[i]..pos[i + 1]] == b;
    if !IsJump(code[i]) {
      ExpandAnywhere(code[i], to, pos[0]);
    }
  }

  /** One more instruction, with the plain instructions it stands for. */
  lemma Appended(code: seq<Instr>, plain: seq<Instr>, pos: seq<nat>, open: set<nat>, ins: Instr, to: nat, isOpen: bool)
    requires Emitted(code, plain, pos, open) && Proper(ins)
    requires isOpen ==> IsJump(ins)
    requires !isOpen && IsJump(ins) ==> ins.t <= |code| && to == pos[ins.t]
    ensures var plain' := plain + Expand(ins, to);
      Emitted(code + [ins], plain', pos + [|plain'|], if isOpen then open + {|code|} else open)
  {
    hide Expand, Proper, BlockAt, OpenAt;
    var n := |code|;
    var code', plain' := code + [ins], plain + Expand(ins, to);
    var pos', open' := pos + [|plain'|], if isOpen then open + {n} else open;
    assert plain'[pos[n]..] == Expand(ins, to);
    NewBlock(code', plain', pos', n, to);
    forall i | 0 <= i < |code'| && i !in open'
      ensures BlockAt(code', plain', pos', i)
    {
      if i < n {
        TargetInRange(code, plain, pos, i);
        OldBlock(code, plain, pos, code', plain', pos', i);
      }
    }
    forall i | i in open'
      ensures OpenAt(code', plain', pos', i)
    {
      if i < n {
        OldOpen(code, plain, pos, code', plain', pos', i);
      }
    }
  }

  lemma TargetInRange(code: seq<Instr>, plain: seq<Instr>, pos: seq<nat>, i: nat)
    requires i < |code| && |pos| == |code| + 1 && BlockAt(code, plain, pos, i)
    ensures (IsJump(code[i]) ==> code[i].t <= |code|) && Proper(code[i])
  {}

  /** An expansion is not empty; that of a jump ends in a jump with its target. */
  lemma ExpandLast(ins: Instr, to: nat)
    ensures var b := Expand(ins, to); 1 <= |b| <= 3 && (IsJump(ins) ==> IsJump(b[|b| - 1]) && b[|b| - 1].t == to)
  {}

  lemma ExpandAnywhere(ins: Instr, to: nat, to': nat)
    ensures |Expand(ins, to)| == |Expand(ins, to')| && (!IsJump(ins) ==> Expand(ins, to) == Expand(ins, to'))
  {}

  /** The last instruction takes in the plain instructions `extra`. No jump may lead to the end. */
  lemma FusedLast(code: seq<Instr>, plain: seq<Instr>, pos: seq<nat>, open: set<nat>, ins: Instr, extra: seq<Instr>, to: nat,
                  isOpen: bool)
    requires code != [] && Emitted(code, plain, pos, open) && |code| - 1 !in open && Proper(ins)
    requires forall i :: 0 <= i < |code| && i !in open && IsJump(code[i]) ==> code[i].t != |code|
    requires !IsJump(code[|code| - 1]) && (isOpen <==> IsJump(ins))
    requires Expand(ins, to) == Expand(code[|code| - 1], 0) + extra
    ensures var n := |code| - 1;
      Emitted(code[n := ins], plain + extra, pos[n + 1 := |plain + extra|], if isOpen then open + {n} else open)
  {
    hide Expand, Proper, BlockAt, OpenAt;
    var n := |code| - 1;
    var code', plain' := code[n := ins], plain + extra;
    var pos', open' := pos[n + 1 := |plain'|], if isOpen then open + {n} else open;
    LastBlock(code, plain, pos);
    assert plain'[pos[n]..] == plain[pos[n]..] + extra;
    NewBlock(code', plain', pos', n, to);
    forall i | 0 <= i < |code'| && i !in open'
      ensures BlockAt(code', plain', pos', i)
    {
      if i < n {
        TargetInRange(code, plain, pos, i);
        OldBlock(code, plain, pos, code', plain', pos', i);
      }
    }
    forall i | i in open'
      ensures OpenAt(code', plain', pos', i)
    {
      if i < n {
        OldOpen(code, plain, pos, code', plain', pos', i);
      }
    }
  }

  lemma LastBlock(code: seq<Instr>, plain: seq<Instr>, pos: seq<nat>)
    requires code != [] && |pos| == |code| + 1 && BlockAt(code, plain, pos, |code| - 1) && pos[|code|] == |plain|
    requires !IsJump(code[|code| - 1])
    ensures pos[|code| - 1] <= |plain| && plain[pos[|code| - 1]..] == Expand(code[|code| - 1], 0)
  {
    hide Expand, Proper;
    var n := |code| - 1;
    ExpandAnywhere(code[n], 0, pos[Target(code[n])]);
    assert plain[pos[n]..pos[n + 1]] == plain[pos[n]..];
  }

  function WithTarget(ins: Instr, t: nat): Instr
    requires IsJump(ins)
  {
    ins.(t := t)
  }

  /** The jump at j gets the end of the code as its target. */
  lemma Patched(code: seq<Instr>, plain: seq<Instr>, pos: seq<nat>, open: set<nat>, j: nat)
    requires Emitted(code, plain, pos, open) && j in open
    requires j < |code| && OpenAt(code, plain, pos, j) && plain[pos[j + 1] - 1].t == |plain|
    ensures Emitted(code[j := WithTarget(code[j], |code|)], plain, pos, open - {j})
  {
    var code' := code[j := WithTarget(code[j], |code|)];
    ExpandTarget(code[j], |code|, |plain|);
    forall i | 0 <= i < |code'| && i !in open - {j}
      ensures BlockAt(code', plain, pos, i)
    {
      if i != j {
        assert BlockAt(code, plain, pos, i);
      }
    }
    forall i | i in open - {j}
      ensures OpenAt(code', plain, pos, i)
    {
      assert OpenAt(code, plain, pos, i);
    }
  }

  lemma ExpandTarget(ins: Instr, t: nat, to: nat)
    requires IsJump(ins)
    ensures IsJump(WithTarget(ins, t)) && WithTarget(ins, t).t == t && Expand(WithTarget(ins, t), to) == Expand(ins, to)
    ensures Proper(WithTarget(ins, t)) == Proper(ins)
  {}

  // ----- programs -----

  /** Expressions after names are resolved. `Leaf` pushes a value by an instruction that is never fused (a literal, a
      global or captured variable, a function); `Apply` evaluates some expressions and then calls, invokes or the like. */
  datatype Expr =
    | Leaf(op: nat)
    | Constant(v: Value)
    | Local(i: nat)
    | AssignLocal(i: nat, e: Expr)
    | AssignGlobal(g: nat, e: Expr)
    | AssignOther(op: nat, e: Expr)
    | Unary(op: nat, e: Expr)
    | Operator(bop: BinOp, l: Expr, r: Expr)
    | And(l: Expr, r: Expr)
    | Or(l: Expr, r: Expr)
    | Get(e: Expr, name: nat, site: nat)
    | Set(e: Expr, name: nat, site: nat, r: Expr)
    | Apply(e: Expr, args: seq<Expr>, op: nat)

  datatype Maybe<T> = None | Some(value: T)

  /** `Eval` covers printing, returning and variable declarations with an initialiser, `Emit` what needs no expression;
      the instructions `ends` leave a scope. */
  datatype Stmt =
    | Expression(e: Expr)
    | Eval(e: Expr, ops: seq<nat>)
    | Emit(ops: seq<nat>)
    | Block(ss: seq<Stmt>, ends: seq<Instr>)
    | If(c: Expr, t: Stmt, f: Maybe<Stmt>)
    | While(c: Expr, body: Stmt)
    | For(init: Stmt, cond: Maybe<Expr>, inc: Maybe<Expr>, body: Stmt, ends: seq<Instr>)

  predicate ScopeEnd(ins: Instr) {
    ins.Pop? || ins.Other?
  }

  /** Scopes end with pops and closing of captured variables. */
  predicate Scoped(s: Stmt) {
    match s
    case Block(ss, ends) => (forall i :: 0 <= i < |ends| ==> ScopeEnd(ends[i])) && forall i :: 0 <= i < |ss| ==> Scoped(ss[i])
    case If(_, t, f) => Scoped(t) && (f.Some? ==> Scoped(f.value))
    case While(_, body) => Scoped(body)
    case For(init, _, _, body, ends) => Scoped(init) && Scoped(body) && forall i :: 0 <= i < |ends| ==> ScopeEnd(ends[i])
    case _ => true
  }

  function Others(ops: seq<nat>): seq<Instr> {
    seq(|ops|, i requires 0 <= i < |ops| => Other(ops[i]))
  }

  // ----- a compiler that does not fuse -----

  /** The code of an expression, `at` being where it starts. */
  function PlainExpr(e: Expr, at: nat): (r: seq<Instr>)
    ensures r != []
    decreases e, 0
  {
    match e
    case Leaf(op) => [Other(op)]
    case Constant(v) => [Const(v)]
    case Local(i) => [GetLocal(i)]
    case AssignLocal(i, x) => PlainExpr(x, at) + [SetLocal(i)]
    case AssignGlobal(g, x) => PlainExpr(x, at) + [SetGlobal(g)]
    case AssignOther(op, x) => PlainExpr(x, at) + [Other(op)]
    case Unary(op, x) => PlainExpr(x, at) + [Other(op)]
    case Operator(op, l, r) =>
      var a := PlainExpr(l, at);
      a + PlainExpr(r, at + |a|) + [Binary(op)]
    case And(l, r) =>
      var a := PlainExpr(l, at);
      var b := PlainExpr(r, at + |a| + 2);
      a + [JumpIfFalse(at + |a| + 2 + |b|), Pop] + b
    case Or(l, r) =>
      var a := PlainExpr(l, at);
      var b := PlainExpr(r, at + |a| + 3);
      a + [JumpIfFalse(at + |a| + 2), Jump(at + |a| + 3 + |b|), Pop] + b
    case Get(x, name, site) => PlainExpr(x, at) + [GetProperty(name, site)]
    case Set(x, name, site, v) =>
      var a := PlainExpr(x, at);
      a + PlainExpr(v, at + |a|) + [SetProperty(name, site)]
    case Apply(x, args, op) =>
      var a := PlainExpr(x, at);
      a + PlainExprs(args, at + |a|) + [Other(op)]
  }

  function PlainExprs(es: seq<Expr>, at: nat): seq<Instr>
    decreases es, 1
  {
    if es == [] then []
    else
      var n := |es| - 1;
      var a := PlainExprs(es[..n], at);
      a + PlainExpr(es[n], at + |a|)
  }

  function PlainStmt(s: Stmt, at: nat): seq<Instr>
    decreases s, 0
  {
    match s
    case Expression(e) => PlainExpr(e, at) + [Pop]
    case Eval(e, ops) => PlainExpr(e, at) + Others(ops)
    case Emit(ops) => Others(ops)
    case Block(ss, ends) => PlainStmts(ss, at) + ends
    case If(c, t, f) =>
      var a := PlainExpr(c, at);
      var b := PlainStmt(t, at + |a| + 1);
      if f.None? then a + [JumpIfFalsePop(at + |a| + 1 + |b|)] + b
      else
        var d := PlainStmt(f.value, at + |a| + 2 + |b|);
        a + [JumpIfFalsePop(at + |a| + 2 + |b|)] + b + [Jump(at + |a| + 2 + |b| + |d|)] + d
    case While(c, body) =>
      var a := PlainExpr(c, at);
      var b := PlainStmt(body, at + |a| + 1);
      a + [JumpIfFalsePop(at + |a| + 2 + |b|)] + b + [Loop(at)]
    case For(init, cond, inc, body, ends) =>
      var i := PlainStmt(init, at);
      i + PlainLoop(cond, inc, body, at + |i|) + ends
  }

  /** Condition, step and body of a `for`: the step is placed before the body. */
  function PlainLoop(cond: Maybe<Expr>, inc: Maybe<Expr>, body: Stmt, at: nat): seq<Instr>
    decreases body, 1
  {
    var c := if cond.Some? then PlainExpr(cond.value, at) else [];
    var a := at + |c| + (if cond.Some? then 1 else 0);
    var p := PlainStep(inc, at, a);
    var b := PlainStmt(body, a + |p|);
    var back := if inc.Some? then a + 1 else at;
    c + (if cond.Some? then [JumpIfFalsePop(a + |p| + |b| + 1)] else []) + p + b + [Loop(back)]
  }

  function PlainStep(inc: Maybe<Expr>, start: nat, at: nat): seq<Instr> {
    if inc.None? then []
    else
      var x := PlainExpr(inc.value, at + 1);
      [Jump(at + |x| + 3)] + x + [Pop, Loop(start)]
  }

  function PlainStmts(ss: seq<Stmt>, at: nat): seq<Instr>
    decreases ss, 1
  {
    if ss == [] then []
    else
      var n := |ss| - 1;
      var a := PlainStmts(ss[..n], at);
      a + PlainStmt(ss[n], at + |a|)
  }

  // ----- emission -----

  predicate ConstantForm(op: BinOp) {
    op.Add? || op.Subtract? || Compares(op)
  }

  predicate JumpForm(ins: Instr) {
    (ins.Binary? && (Compares(ins.bop) || ins.bop.Equal? || ins.bop.NotEqual?)) || (ins.BinaryC? && Compares(ins.bop))
  }

  function CompareAndJump(ins: Instr): Instr
    requires JumpForm(ins)
  {
    if ins.Binary? then CompareJump(ins.bop, 0) else CompareCJump(ins.bop, ins.v, 0)
  }

  class Emitter {
    var code: seq<Instr>
    var lastOp: int  // the last instruction, if it may still be fused
    var jumpTarget: int  // where the latest patched jump leads
    ghost var plain: seq<Instr>
    ghost var pos: seq<nat>
    ghost var open: set<nat>

    ghost predicate Valid()
      reads this
    {
      && Emitted(code, plain, pos, open) && EndGuarded(code, open, jumpTarget)
      && -1 <= lastOp && (lastOp >= 0 ==> lastOp == |code| - 1)
    }

    /** The plain code has the jump at j going to `to`. */
    ghost predicate OpenTo(j: nat, to: nat)
      reads this
    {
      j + 1 < |pos| && 0 < pos[j + 1] <= |plain| && IsJump(plain[pos[j + 1] - 1]) && plain[pos[j + 1] - 1].t == to
    }

    constructor ()
      ensures Valid() && code == [] && plain == [] && open == {} && pos == [0]
    {
      code, lastOp, jumpTarget := [], -1, -1;
      plain, pos, open := [], [0], {};
    }

    /** An instruction that is neither a jump nor fused. */
    method EmitOp(ins: Instr)
      requires Valid() && !IsJump(ins) && !IsFused(ins)
      modifies this
      ensures Valid() && open == old(open) && plain == old(plain) + [ins] && |code| == |old(code)| + 1
      ensures Kept(old(pos), pos, |old(code)|)
    {
      hide Emitted;
      Appended(code, plain, pos, open, ins, 0, false);
      PosLength(code, plain, pos, open);
      GuardedAppend(code, open, jumpTarget, ins);
      lastOp := |code|;
      code, plain := code + [ins], plain + [ins];
      pos := pos + [|plain|];
    }

    /** A jump whose target is patched later; in the plain code it is `to`. */
    method EmitJump(ins: Instr, ghost to: nat) returns (j: nat)
      requires Valid() && IsJump(ins) && !IsFused(ins)
      modifies this
      ensures Valid() && j !in old(open) && open == old(open) + {j} && j == |old(code)| && |code| == j + 1
      ensures plain == old(plain) + Expand(ins, to) && Kept(old(pos), pos, j)
      ensures OpenTo(j, to) && pos[j + 1] == |plain|
    {
      hide Emitted, Expand;
      Appended(code, plain, pos, open, ins, to, true);
      PosLength(code, plain, pos, open);
      GuardedOpen(code, open, jumpTarget, ins);
      j := |code|;
      lastOp := j;
      code, plain, open := code + [ins], plain + Expand(ins, to), open + {j};
      pos := pos + [|plain|];
      ExpandLast(ins, to);
      assert plain[|plain| - 1] == Expand(ins, to)[|Expand(ins, to)| - 1];
    }

    /** A jump back to a place reached before. */
    method EmitLoop(t: nat)
      requires Valid() && t <= |code| == |pos| - 1
      modifies this
      ensures Valid() && open == old(open) && plain == old(plain) + [Loop(old(pos)[t])] && |code| == |old(code)| + 1
      ensures Kept(old(pos), pos, |old(code)|)
    {
      hide Emitted;
      PosLength(code, plain, pos, open);
      Appended(code, plain, pos, open, Loop(t), pos[t], false);
      GuardedAppend(code, open, jumpTarget, Loop(t));
      lastOp := |code|;
      code, plain := code + [Loop(t)], plain + [Loop(pos[t])];
      pos := pos + [|plain|];
    }

    /** Lets the jump at j lead here. */
    method PatchJump(j: nat)
      requires Valid() && j in open && pos[j + 1] > 0 && IsJump(plain[pos[j + 1] - 1]) && plain[pos[j + 1] - 1].t == |plain|
      modifies this`code, this`jumpTarget, this`open
      ensures Valid() && open == old(open) - {j} && |code| == |old(code)|
    {
      hide Expand, BlockAt, EndGuarded;
      Patched(code, plain, pos, open, j);
      GuardedPatch(code, open, j);
      jumpTarget := |code|;
      code := code[j := WithTarget(code[j], |code|)];
      open := open - {j};
    }

    /** Whether the last instruction may be rewritten: no jump leads behind it. */
    predicate Fusable()
      reads this
    {
      lastOp >= 0 && jumpTarget != |code|
    }

    /** Replaces the last instruction by one that also does `extra`. */
    method Fuse(ins: Instr, ghost extra: seq<Instr>, ghost to: nat)
      requires Valid() && Fusable() && lastOp !in open && Proper(ins) && !IsJump(code[lastOp])
      requires Expand(ins, to) == Expand(code[lastOp], 0) + extra
      modifies this`code, this`plain, this`pos, this`open
      ensures Valid() && |code| == |old(code)| && plain == old(plain) + extra && code[|code| - 1] == ins
      ensures open == if IsJump(ins) then old(open) + {|code| - 1} else old(open)
      ensures Kept(old(pos), pos, |code| - 1) && |pos| == |code| + 1 && pos[|code|] == |plain|
    {
      hide Emitted, Expand, Proper;
      FusedLast(code, plain, pos, open, ins, extra, to, IsJump(ins));
      PosLength(code, plain, pos, open);
      GuardedFuse(code, open, jumpTarget, ins);
      if IsJump(ins) {
        open := open + {lastOp};
      }
      code, plain := code[lastOp := ins], plain + extra;
      pos := pos[|code| := |plain|];
    }

    /** Drops the value on top, together with an assignment just emitted if possible. */
    method EmitPop()
      requires Valid() && |code| > 0
      modifies this
      ensures Valid() && open == old(open) && plain == old(plain) + [Pop] && |code| >= |old(code)|
      ensures Kept(old(pos), pos, |old(code)| - 1)
    {
      hide Emitted;
      PosLength(code, plain, pos, open);
      if Fusable() && code[lastOp].SetLocal? {
        Fuse(SetLocalPop(code[lastOp].i), [Pop], 0);
      } else if Fusable() && code[lastOp].SetGlobal? {
        Fuse(SetGlobalPop(code[lastOp].g), [Pop], 0);
      } else if Fusable() && code[lastOp].SetProperty? {
        Fuse(SetPropertyPop(code[lastOp].name, code[lastOp].site), [Pop], 0);
      } else {
        EmitOp(Pop);
        return;
      }
      lastOp := -1;
    }

    /** A binary operator, taking in a number just emitted as its right operand if possible. */
    method EmitBinary(op: BinOp)
      requires Valid() && |code| > 0
      modifies this
      ensures Valid() && open == old(open) && plain == old(plain) + [Binary(op)] && |code| >= |old(code)|
      ensures Kept(old(pos), pos, |old(code)| - 1)
    {
      hide Emitted;
      PosLength(code, plain, pos, open);
      if ConstantForm(op) && Fusable() && code[lastOp].Const? && code[lastOp].v.Num? {
        Fuse(BinaryC(op, code[lastOp].v), [Binary(op)], 0);
        return;
      }
      EmitOp(Binary(op));
    }

    /** A jump taken if the condition is falsey, taking in a comparison just emitted if possible. */
    method EmitCondJump(ghost to: nat) returns (j: nat)
      requires Valid() && |code| > 0
      modifies this
      ensures Valid() && j !in old(open) && open == old(open) + {j} && j == |code| - 1 && |code| >= |old(code)|
      ensures plain == old(plain) + [JumpIfFalsePop(to)]
      ensures Kept(old(pos), pos, |old(code)| - 1) && OpenTo(j, to) && pos[j + 1] == |plain|
    {
      hide Emitted;
      PosLength(code, plain, pos, open);
      if Fusable() && JumpForm(code[lastOp]) {
        Fuse(CompareAndJump(code[lastOp]), [JumpIfFalsePop(to)], to);
        return |code| - 1;
      }
      j := EmitJump(JumpIfFalsePop(0), to);
    }

    /** Reads a property, taking in a local variable just emitted as the receiver if possible. */
    method EmitGetProperty(name: nat, site: nat)
      requires Valid() && |code| > 0
      modifies this
      ensures Valid() && open == old(open) && plain == old(plain) + [GetProperty(name, site)] && |code| >= |old(code)|
      ensures Kept(old(pos), pos, |old(code)| - 1)
    {
      hide Emitted;
      PosLength(code, plain, pos, open);
      if Fusable() && code[lastOp].GetLocal? {
        Fuse(GetLocalProperty(code[lastOp].i, name, site), [GetProperty(name, site)], 0);
        return;
      }
      EmitOp(GetProperty(name, site));
    }

    // ----- expressions -----

    method CompileExpr(e: Expr)
      requires Valid()
      modifies this
      ensures Valid() && open == old(open) && plain == old(plain) + PlainExpr(e, |old(plain)|)
      ensures |code| > |old(code)| && Kept(old(pos), pos, |old(code)|)
      decreases e, 1
    {
      hide Emitted, EndGuarded;
      match e
      case Leaf(op) => EmitOp(Other(op));
      case Constant(v) => EmitOp(Const(v));
      case Local(i) => EmitOp(GetLocal(i));
      case AssignLocal(i, x) =>
        CompileExpr(x);
        EmitOp(SetLocal(i));
      case AssignGlobal(g, x) =>
        CompileExpr(x);
        EmitOp(SetGlobal(g));
      case AssignOther(op, x) =>
        CompileExpr(x);
        EmitOp(Other(op));
      case Unary(op, x) =>
        CompileExpr(x);
        EmitOp(Other(op));
      case Operator(op, l, r) => CompileOperator(op, l, r);
      case And(l, r) => CompileAnd(l, r);
      case Or(l, r) => CompileOr(l, r);
      case Get(x, name, site) =>
        CompileExpr(x);
        EmitGetProperty(name, site);
      case Set(x, name, site, r) => CompileSet(x, name, site, r);
      case Apply(x, args, op) => CompileApply(x, args, op);
    }

    method CompileOperator(op: BinOp, l: Expr, r: Expr)
      requires Valid()
      modifies this
      ensures Valid() && open == old(open) && plain == old(plain) + PlainExpr(Operator(op, l, r), |old(plain)|)
      ensures |code| > |old(code)| && Kept(old(pos), pos, |old(code)|)
      decreases Operator(op, l, r), 0
    {
      hide Emitted, EndGuarded, PlainExpr;
      ghost var p0 := plain;
      CompileExpr(l);
      CompileExpr(r);
      EmitBinary(op);
      PlainOperator(p0, op, l, r, plain);
    }

    method CompileSet(x: Expr, name: nat, site: nat, r: Expr)
      requires Valid()
      modifies this
      ensures Valid() && open == old(open) && plain == old(plain) + PlainExpr(Set(x, name, site, r), |old(plain)|)
      ensures |code| > |old(code)| && Kept(old(pos), pos, |old(code)|)
      decreases Set(x, name, site, r), 0
    {
      hide Emitted, EndGuarded, PlainExpr;
      ghost var p0 := plain;
      CompileExpr(x);
      CompileExpr(r);
      EmitOp(SetProperty(name, site));
      PlainSet(p0, x, name, site, r, plain);
    }

    method CompileApply(x: Expr, args: seq<Expr>, op: nat)
      requires Valid()
      modifies this
      ensures Valid() && open == old(open) && plain == old(plain) + PlainExpr(Apply(x, args, op), |old(plain)|)
      ensures |code| > |old(code)| && Kept(old(pos), pos, |old(code)|)
      decreases Apply(x, args, op), 0
    {
      hide Emitted, EndGuarded, PlainExpr, PlainExprs;
      ghost var p0 := plain;
      CompileExpr(x);
      CompileExprs(args);
      EmitOp(Other(op));
      PlainApply(p0, x, args, op, plain);
    }

    method CompileExprs(es: seq<Expr>)
      requires Valid()
      modifies this
      ensures Valid() && open == old(open) && plain == old(plain) + PlainExprs(es, |old(plain)|)
      ensures |code| >= |old(code)| && Kept(old(pos), pos, |old(code)|)
      decreases es, 2
    {
      hide Emitted, EndGuarded;
      PosLength(code, plain, pos, open);
      if es != [] {
        CompileExprs(es[..|es| - 1]);
        CompileExpr(es[|es| - 1]);
      }
    }

    method CompileAnd(l: Expr, r: Expr)
      requires Valid()
      modifies this
      ensures Valid() && open == old(open) && plain == old(plain) + PlainExpr(And(l, r), |old(plain)|)
      ensures |code| > |old(code)| && Kept(old(pos), pos, |old(code)|)
      decreases And(l, r), 0
    {
      hide Emitted, EndGuarded, PlainExpr;
      ghost var p0, at := plain, |plain|;
      ghost var a := PlainExpr(l, at);
      ghost var b := PlainExpr(r, at + |a| + 2);
      CompileExpr(l);
      var j := EmitJump(JumpIfFalse(0), at + |a| + 2 + |b|);
      assert |plain| + 1 == at + |a| + 2;
      CompileTail(r, j);
      PlainAnd(p0, l, r, plain);
    }

    /** Drops the left operand and evaluates the right one; the jump at j leads behind it. */
    method CompileTail(r: Expr, j: nat)
      requires Valid() && j in open && OpenTo(j, |plain| + 1 + |PlainExpr(r, |plain| + 1)|)
      modifies this
      ensures Valid() && open == old(open) - {j} && plain == old(plain) + [Pop] + PlainExpr(r, |old(plain)| + 1)
      ensures |code| > |old(code)| && Kept(old(pos), pos, |old(code)|)
      decreases r, 2
    {
      hide Emitted, EndGuarded, PlainExpr;
      PosLength(code, plain, pos, open);
      EmitOp(Pop);
      CompileExpr(r);
      PatchJump(j);
    }

    method CompileOr(l: Expr, r: Expr)
      requires Valid()
      modifies this
      ensures Valid() && open == old(open) && plain == old(plain) + PlainExpr(Or(l, r), |old(plain)|)
      ensures |code| > |old(code)| && Kept(old(pos), pos, |old(code)|)
      decreases Or(l, r), 0
    {
      hide Emitted, EndGuarded, PlainExpr;
      ghost var p0, at := plain, |plain|;
      ghost var a := PlainExpr(l, at);
      ghost var b := PlainExpr(r, at + |a| + 3);
      CompileExpr(l);
      var j := EmitJump(JumpIfFalse(0), at + |a| + 2);
      var k := EmitJump(Jump(0), at + |a| + 3 + |b|);
      PatchJump(j);
      assert |plain| + 1 == at + |a| + 3;
      CompileTail(r, k);
      PlainOr(p0, l, r, plain);
    }

    // ----- statements -----

    /** Instructions that are not fused, one after the other. */
    method EmitAll(ins: seq<Instr>)
      requires Valid() && forall i :: 0 <= i < |ins| ==> ScopeEnd(ins[i])
      modifies this
      ensures Valid() && open == old(open) && plain == old(plain) + ins
      ensures |code| >= |old(code)| && Kept(old(pos), pos, |old(code)|)
    {
      hide Emitted, EndGuarded;
      PosLength(code, plain, pos, open);
      for i := 0 to |ins|
        invariant Valid() && open == old(open) && plain == old(plain) + ins[..i]
        invariant |code| >= |old(code)| && Kept(old(pos), pos, |old(code)|)
      {
        assert ins[..i + 1] == ins[..i] + [ins[i]];
        EmitOp(ins[i]);
      }
      assert ins[..|ins|] == ins;
    }

    method CompileStmt(s: Stmt)
      requires Valid() && Scoped(s)
      modifies this
      ensures Valid() && open == old(open) && plain == old(plain) + PlainStmt(s, |old(plain)|)
      ensures |code| >= |old(code)| && Kept(old(pos), pos, |old(code)|)
      decreases s, 1
    {
      hide Emitted, EndGuarded, PlainExpr, PlainStmts;
      ghost var p0 := plain;
      match s
      case Expression(e) =>
        CompileExpr(e);
        EmitPop();
      case Eval(e, ops) =>
        CompileExpr(e);
        EmitAll(Others(ops));
      case Emit(ops) => EmitAll(Others(ops));
      case Block(ss, ends) =>
        CompileStmts(ss);
        EmitAll(ends);
      case If(c, t, f) =>
        if f.None? {
          CompileIf(c, t);
        } else {
          CompileIfElse(c, t, f.value);
        }
      case While(c, body) => CompileWhile(c, body);
      case For(init, cond, inc, body, ends) =>
        CompileStmt(init);
        CompileLoop(cond, inc, body);
        EmitAll(ends);
        PlainFor(p0, init, cond, inc, body, ends, plain);
    }

    method CompileStmts(ss: seq<Stmt>)
      requires Valid() && forall i :: 0 <= i < |ss| ==> Scoped(ss[i])
      modifies this
      ensures Valid() && open == old(open) && plain == old(plain) + PlainStmts(ss, |old(plain)|)
      ensures |code| >= |old(code)| && Kept(old(pos), pos, |old(code)|)
      decreases ss, 2
    {
      hide Emitted, EndGuarded, PlainStmt;
      PosLength(code, plain, pos, open);
      if ss != [] {
        CompileStmts(ss[..|ss| - 1]);
        CompileStmt(ss[|ss| - 1]);
      }
    }

    method CompileIf(c: Expr, t: Stmt)
      requires Valid() && Scoped(t)
      modifies this
      ensures Valid() && open == old(open) && plain == old(plain) + PlainStmt(If(c, t, None), |old(plain)|)
      ensures |code| >= |old(code)| && Kept(old(pos), pos, |old(code)|)
      decreases If(c, t, None), 0
    {
      hide Emitted, EndGuarded, PlainExpr, PlainStmt;
      ghost var p0, at := plain, |plain|;
      ghost var a := PlainExpr(c, at);
      ghost var b := PlainStmt(t, at + |a| + 1);
      CompileExpr(c);
      var j := EmitCondJump(at + |a| + 1 + |b|);
      CompileStmt(t);
      PatchJump(j);
      PlainIf(p0, c, t, plain);
    }

    method CompileIfElse(c: Expr, t: Stmt, f: Stmt)
      requires Valid() && Scoped(t) && Scoped(f)
      modifies this
      ensures Valid() && open == old(open) && plain == old(plain) + PlainStmt(If(c, t, Some(f)), |old(plain)|)
      ensures |code| >= |old(code)| && Kept(old(pos), pos, |old(code)|)
      decreases If(c, t, Some(f)), 0
    {
      hide Emitted, EndGuarded, PlainExpr, PlainStmt;
      ghost var p0, at := plain, |plain|;
      ghost var a := PlainExpr(c, at);
      ghost var b := PlainStmt(t, at + |a| + 1);
      ghost var d := PlainStmt(f, at + |a| + 2 + |b|);
      CompileExpr(c);
      var j := EmitCondJump(at + |a| + 2 + |b|);
      CompileStmt(t);
      CompileElse(f, j);
      PlainIfElse(p0, c, t, f, plain);
    }

    /** The jump at j leads to the alternative, which the branch just compiled jumps over. */
    method CompileElse(f: Stmt, j: nat)
      requires Valid() && Scoped(f) && j in open && OpenTo(j, |plain| + 1)
      modifies this
      ensures var d := PlainStmt(f, |old(plain)| + 1);
        Valid() && open == old(open) - {j} && plain == old(plain) + [Jump(|old(plain)| + 1 + |d|)] + d
      ensures |code| >= |old(code)| && Kept(old(pos), pos, |old(code)|)
      decreases f, 2
    {
      hide Emitted, EndGuarded, PlainStmt;
      ghost var d := PlainStmt(f, |plain| + 1);
      PosLength(code, plain, pos, open);
      var k := EmitJump(Jump(0), |plain| + 1 + |d|);
      PatchJump(j);
      CompileStmt(f);
      PatchJump(k);
    }

    method CompileWhile(c: Expr, body: Stmt)
      requires Valid() && Scoped(body)
      modifies this
      ensures Valid() && open == old(open) && plain == old(plain) + PlainStmt(While(c, body), |old(plain)|)
      ensures |code| >= |old(code)| && Kept(old(pos), pos, |old(code)|)
      decreases While(c, body), 0
    {
      hide Emitted, EndGuarded, PlainExpr, PlainStmt;
      PosLength(code, plain, pos, open);
      ghost var p0, at := plain, |plain|;
      ghost var a := PlainExpr(c, at);
      ghost var b := PlainStmt(body, at + |a| + 1);
      var loopStart := |code|;
      CompileExpr(c);
      var j := EmitCondJump(at + |a| + 2 + |b|);
      CompileStmt(body);
      PosLength(code, plain, pos, open);
      EmitLoop(loopStart);
      PatchJump(j);
      PlainWhile(p0, c, body, plain);
    }

    /** Condition, step and body of a `for`. */
    method CompileLoop(cond: Maybe<Expr>, inc: Maybe<Expr>, body: Stmt)
      requires Valid() && Scoped(body)
      modifies this
      ensures Valid() && open == old(open) && plain == old(plain) + PlainLoop(cond, inc, body, |old(plain)|)
      ensures |code| >= |old(code)| && Kept(old(pos), pos, |old(code)|)
      decreases body, 2
    {
      hide Emitted, EndGuarded, PlainExpr, PlainStmt, PlainStep;
      PosLength(code, plain, pos, open);
      ghost var p0, at := plain, |plain|;
      ghost var c := if cond.Some? then PlainExpr(cond.value, at) else [];
      ghost var a := at + |c| + (if cond.Some? then 1 else 0);
      ghost var p := PlainStep(inc, at, a);
      ghost var b := PlainStmt(body, a + |p|);
      var loopStart := |code|;
      var exit: int := -1;
      if cond.Some? {
        CompileExpr(cond.value);
        exit := EmitCondJump(a + |p| + |b| + 1);
      }
      loopStart := CompileStep(inc, loopStart, at);
      PosLength(code, plain, pos, open);
      CompileStmt(body);
      PosLength(code, plain, pos, open);
      EmitLoop(loopStart);
      if exit != -1 {
        PatchJump(exit);
      }
      PlainLoopIs(p0, cond, inc, body, plain);
    }

    /** The step of a `for`, jumped over on entry; the body then loops back to it. */
    method CompileStep(inc: Maybe<Expr>, loopStart: nat, ghost start: nat) returns (back: nat)
      requires Valid() && loopStart < |pos| && pos[loopStart] == start
      modifies this
      ensures Valid() && open == old(open) && plain == old(plain) + PlainStep(inc, start, |old(plain)|)
      ensures |code| >= |old(code)| && Kept(old(pos), pos, |old(code)|)
      ensures back < |pos| && pos[back] == if inc.Some? then |old(plain)| + 1 else start
    {
      hide Emitted, EndGuarded, PlainExpr, PlainStep;
      PosLength(code, plain, pos, open);
      back := loopStart;
      PlainStepIs(plain, inc, start);
      if inc.Some? {
        ghost var p0, at := plain, |plain|;
        ghost var x := PlainExpr(inc.value, at + 1);
        var j := EmitJump(Jump(0), at + |x| + 3);
        back := |code|;
        CompileExpr(inc.value);
        EmitPop();
        PosLength(code, plain, pos, open);
        EmitLoop(loopStart);
        PatchJump(j);
      }
    }
  }

  lemma PlainIf(p: seq<Instr>, c: Expr, t: Stmt, q: seq<Instr>)
    requires var a := PlainExpr(c, |p|);
      var b := PlainStmt(t, |p| + |a| + 1);
      q == p + a + [JumpIfFalsePop(|p| + |a| + 1 + |b|)] + b
    ensures q == p + PlainStmt(If(c, t, None), |p|)
  {
    hide PlainExpr;
  }

  lemma PlainIfElse(p: seq<Instr>, c: Expr, t: Stmt, f: Stmt, q: seq<Instr>)
    requires var a := PlainExpr(c, |p|);
      var b := PlainStmt(t, |p| + |a| + 1);
      var d := PlainStmt(f, |p| + |a| + 2 + |b|);
      q == p + a + [JumpIfFalsePop(|p| + |a| + 2 + |b|)] + b + [Jump(|p| + |a| + 2 + |b| + |d|)] + d
    ensures q == p + PlainStmt(If(c, t, Some(f)), |p|)
  {
    hide PlainExpr;
  }

  lemma PlainWhile(p: seq<Instr>, c: Expr, body: Stmt, q: seq<Instr>)
    requires var a := PlainExpr(c, |p|);
      var b := PlainStmt(body, |p| + |a| + 1);
      q == p + a + [JumpIfFalsePop(|p| + |a| + 2 + |b|)] + b + [Loop(|p|)]
    ensures q == p + PlainStmt(While(c, body), |p|)
  {
    hide PlainExpr;
  }

  lemma PlainFor(p: seq<Instr>, init: Stmt, cond: Maybe<Expr>, inc: Maybe<Expr>, body: Stmt, ends: seq<Instr>, q: seq<Instr>)
    requires var i := PlainStmt(init, |p|); q == p + i + PlainLoop(cond, inc, body, |p| + |i|) + ends
    ensures q == p + PlainStmt(For(init, cond, inc, body, ends), |p|)
  {
    hide PlainLoop;
  }

  lemma PlainStepIs(p: seq<Instr>, inc: Maybe<Expr>, start: nat)
    ensures inc.None? ==> p + PlainStep(inc, start, |p|) == p
    ensures inc.Some? ==>
      var x := PlainExpr(inc.value, |p| + 1);
      p + PlainStep(inc, start, |p|) == p + [Jump(|p| + |x| + 3)] + x + [Pop] + [Loop(start)]
  {
    hide PlainExpr;
  }

  lemma PlainLoopIs(q0: seq<Instr>, cond: Maybe<Expr>, inc: Maybe<Expr>, body: Stmt, q: seq<Instr>)
    requires var at := |q0|;
      var c := if cond.Some? then PlainExpr(cond.value, at) else [];
      var a := at + |c| + (if cond.Some? then 1 else 0);
      var p := PlainStep(inc, at, a);
      var b := PlainStmt(body, a + |p|);
      q == (if cond.Some? then q0 + c + [JumpIfFalsePop(a + |p| + |b| + 1)] else q0) + p + b +
           [Loop(if inc.Some? then a + 1 else at)]
    ensures q == q0 + PlainLoop(cond, inc, body, |q0|)
  {
    hide PlainExpr, PlainStmt, PlainStep;
  }

  lemma PlainOperator(p: seq<Instr>, op: BinOp, l: Expr, r: Expr, q: seq<Instr>)
    requires var a := PlainExpr(l, |p|); q == p + a + PlainExpr(r, |p| + |a|) + [Binary(op)]
    ensures q == p + PlainExpr(Operator(op, l, r), |p|)
  {}

  lemma PlainSet(p: seq<Instr>, x: Expr, name: nat, site: nat, r: Expr, q: seq<Instr>)
    requires var a := PlainExpr(x, |p|); q == p + a + PlainExpr(r, |p| + |a|) + [SetProperty(name, site)]
    ensures q == p + PlainExpr(Set(x, name, site, r), |p|)
  {}

  lemma PlainApply(p: seq<Instr>, x: Expr, args: seq<Expr>, op: nat, q: seq<Instr>)
    requires var a := PlainExpr(x, |p|); q == p + a + PlainExprs(args, |p| + |a|) + [Other(op)]
    ensures q == p + PlainExpr(Apply(x, args, op), |p|)
  {}

  lemma PlainAnd(p: seq<Instr>, l: Expr, r: Expr, q: seq<Instr>)
    requires var a := PlainExpr(l, |p|);
      var b := PlainExpr(r, |p| + |a| + 2);
      q == p + a + [JumpIfFalse(|p| + |a| + 2 + |b|)] + [Pop] + b
    ensures q == p + PlainExpr(And(l, r), |p|)
  {
    hide PlainExpr;
    var a := PlainExpr(l, |p|);
    var b := PlainExpr(r, |p| + |a| + 2);
    PlainAndIs(l, r, |p|);
    Regroup(p, a, JumpIfFalse(|p| + |a| + 2 + |b|), Pop, [], b);
  }

  lemma Regroup(p: seq<Instr>, a: seq<Instr>, j: Instr, k: Instr, m: seq<Instr>, b: seq<Instr>)
    ensures p + a + [j] + [k] + b == p + (a + [j, k] + b)
    ensures p + a + [j] + [k] + m + b == p + (a + ([j, k] + m) + b)
  {}

  lemma PlainAndIs(l: Expr, r: Expr, at: nat)
    ensures var a := PlainExpr(l, at);
      var b := PlainExpr(r, at + |a| + 2);
      PlainExpr(And(l, r), at) == a + [JumpIfFalse(at + |a| + 2 + |b|), Pop] + b
  {}

  lemma PlainOrIs(l: Expr, r: Expr, at: nat)
    ensures var a := PlainExpr(l, at);
      var b := PlainExpr(r, at + |a| + 3);
      PlainExpr(Or(l, r), at) == a + [JumpIfFalse(at + |a| + 2), Jump(at + |a| + 3 + |b|), Pop] + b
  {}

  lemma PlainOr(p: seq<Instr>, l: Expr, r: Expr, q: seq<Instr>)
    requires var a := PlainExpr(l, |p|);
      var b := PlainExpr(r, |p| + |a| + 3);
      q == p + a + [JumpIfFalse(|p| + |a| + 2)] + [Jump(|p| + |a| + 3 + |b|)] + [Pop] + b
    ensures q == p + PlainExpr(Or(l, r), |p|)
  {
    hide PlainExpr;
    var a := PlainExpr(l, |p|);
    var b := PlainExpr(r, |p| + |a| + 3);
    var j, k := JumpIfFalse(|p| + |a| + 2), Jump(|p| + |a| + 3 + |b|);
    PlainOrIs(l, r, |p|);
    Regroup(p, a, j, k, [Pop], b);
    assert [j, k] + [Pop] == [j, k, Pop];
  }

  lemma PosLength(code: seq<Instr>, plain: seq<Instr>, pos: seq<nat>, open: set<nat>)
    requires Emitted(code, plain, pos, open)
    ensures |pos| == |code| + 1 && pos[|code|] == |plain| && forall i :: i in open ==> i < |code| && IsJump(code[i])
    ensures forall i :: 0 <= i < |code| && i !in open && IsJump(code[i]) ==> code[i].t <= |code|
    ensures forall i :: 0 <= i < |code| && i !in open ==> Proper(code[i])
  {
    forall i | 0 <= i < |code| && i !in open
      ensures (IsJump(code[i]) ==> code[i].t <= |code|) && Proper(code[i])
    {
      TargetInRange(code, plain, pos, i);
    }
  }

  lemma GuardedAppend(code: seq<Instr>, open: set<nat>, jumpTarget: int, ins: Instr)
    requires IsJump(ins) ==> ins.t <= |code|
    requires forall i :: 0 <= i < |code| && i !in open && IsJump(code[i]) ==> code[i].t <= |code|
    ensures EndGuarded(code + [ins], open, jumpTarget)
  {}

  lemma GuardedOpen(code: seq<Instr>, open: set<nat>, jumpTarget: int, ins: Instr)
    requires forall i :: 0 <= i < |code| && i !in open && IsJump(code[i]) ==> code[i].t <= |code|
    ensures EndGuarded(code + [ins], open + {|code|}, jumpTarget)
  {}

  lemma GuardedPatch(code: seq<Instr>, open: set<nat>, j: nat)
    requires j < |code| && IsJump(code[j])
    ensures EndGuarded(code[j := WithTarget(code[j], |code|)], open - {j}, |code|)
  {}

  lemma GuardedFuse(code: seq<Instr>, open: set<nat>, jumpTarget: int, ins: Instr)
    requires code != [] && EndGuarded(code, open, jumpTarget)
    ensures EndGuarded(code[|code| - 1 := ins], if IsJump(ins) then open + {|code| - 1} else open, jumpTarget)
  {}

  // ----- whole programs -----

  /** Compiles the body of a function, return included. */
  method CompileFunction(body: Stmt) returns (code: seq<Instr>, ghost pos: seq<nat>)
    requires Scoped(body)
    ensures Fuses(code, PlainStmt(body, 0), pos)
  {
    hide BlockAt, PlainStmt;
    var em := new Emitter();
    em.CompileStmt(body);
    code, pos := em.code, em.pos;
    assert [] + PlainStmt(body, 0) == PlainStmt(body, 0);
  }

  function PlainProgram(bodies: seq<Stmt>): Program {
    seq(|bodies|, f requires 0 <= f < |bodies| => PlainStmt(bodies[f], 0))
  }

  /** The code of every function is a fusion of the plain code. */
  ghost predicate FusionOf(p: Program, q: Program) {
    exists poss :: FusesAll(p, q, poss)
  }

  method CompileProgram(bodies: seq<Stmt>) returns (p: Program)
    requires forall f :: 0 <= f < |bodies| ==> Scoped(bodies[f])
    ensures FusionOf(p, PlainProgram(bodies))
  {
    hide Fuses, PlainStmt;
    ghost var poss: seq<seq<nat>> := [];
    p := [];
    for f := 0 to |bodies|
      invariant |p| == |poss| == f && forall g :: 0 <= g < f ==> Fuses(p[g], PlainStmt(bodies[g], 0), poss[g])
    {
      var code;
      ghost var pos;
      code, pos := CompileFunction(bodies[f]);
      p, poss := p + [code], poss + [pos];
    }
    assert FusesAll(p, PlainProgram(bodies), poss);
  }

  /** The start of a program: the first function at its first instruction. */
  function Start<W>(st: seq<Value>, w: W): State<W> {
    Running([Frame(0, 0, 0, 0)], st, w)
  }

  /** Whatever the rest of the machine does, the fused program ends as the plain one does, with the same output and the
      same error, or neither ends. */
  lemma FusionPreservesMeaning<W(!new)>(bodies: seq<Stmt>, p: Program, sem: Sem<W>, st: seq<Value>, w: W, r: State<W>)
    requires FusionOf(p, PlainProgram(bodies))
    ensures Ends(p, sem, Start(st, w), r) <==> Ends(PlainProgram(bodies), sem, Start(st, w), r)
  {
    var poss :| FusesAll(p, PlainProgram(bodies), poss);
    FirstPositions(p, PlainProgram(bodies), poss);
    SameEnd(p, PlainProgram(bodies), poss, sem, Start(st, w), Start(st, w), r);
  }
}
