/** Fused code does what the plain code does. */
module LoxFusion {
  import opened LoxVm

  // ----- how the two are related -----

  /** The plain instructions that an instruction stands for; `to` is where its jump, if any, goes in the plain code. */
  function Expand(ins: Instr, to: nat): seq<Instr> {
    match ins
    case Jump(_) => [Jump(to)]
    case JumpIfFalse(_) => [JumpIfFalse(to)]
    case JumpIfFalsePop(_) => [JumpIfFalsePop(to)]
    case Loop(_) => [Loop(to)]
    case SetLocalPop(i) => [SetLocal(i), Pop]
    case SetGlobalPop(g) => [SetGlobal(g), Pop]
    case SetPropertyPop(name, site) => [SetProperty(name, site), Pop]
    case GetLocalProperty(i, name, site) => [GetLocal(i), GetProperty(name, site)]
    case CompareJump(op, _) => [Binary(op), JumpIfFalsePop(to)]
    case BinaryC(op, v) => [Const(v), Binary(op)]
    case CompareCJump(op, v, _) => [Const(v), Binary(op), JumpIfFalsePop(to)]
    case _ => [ins]
  }

  /** Operands that the fused forms are made for. */
  predicate Proper(ins: Instr) {
    match ins
    case CompareJump(op, _) => Compares(op) || op.Equal? || op.NotEqual?
    case BinaryC(op, v) => v.Num? && (Compares(op) || op.Add? || op.Subtract?)
    case CompareCJump(op, v, _) => v.Num? && Compares(op)
    case _ => true
  }

  function Target(ins: Instr): nat {
    if IsJump(ins) then ins.t else 0
  }

  /** Instruction i of `code` stands for the plain instructions from pos[i] to pos[i + 1]. */
  ghost predicate BlockAt(code: seq<Instr>, plain: seq<Instr>, pos: seq<nat>, i: nat)
    requires i < |code| && |pos| == |code| + 1
  {
    && Proper(code[i]) && Target(code[i]) <= |code|
    && var blk := Expand(code[i], pos[Target(code[i])]);
    pos[i + 1] == pos[i] + |blk| && pos[i + 1] <= |plain| && plain[pos[i]..pos[i + 1]] == blk
  }

  /** `pos` maps the code to the plain code it stands for. */
  ghost predicate Fuses(code: seq<Instr>, plain: seq<Instr>, pos: seq<nat>) {
    && |pos| == |code| + 1 && pos[0] == 0 && pos[|code|] == |plain|
    && forall i :: 0 <= i < |code| ==> BlockAt(code, plain, pos, i)
  }

  // ----- one block -----

  /** Runs instructions in order as long as each goes on to the next. */
  function ExecAll<W>(sem: Sem<W>, blk: seq<Instr>, base: nat, env: nat, st: seq<Value>, w: W): Act<W> {
    if blk == [] then Next(st, w)
    else
      var a := Exec(sem, blk[0], base, env, st, w);
      if a.Next? then ExecAll(sem, blk[1..], base, env, a.stack, a.w) else a
  }

  function Retarget<W>(a: Act<W>, to: nat): Act<W> {
    if a.Goto? then a.(t := to) else a
  }

  lemma ExecOne<W>(sem: Sem<W>, a: Instr, base: nat, env: nat, st: seq<Value>, w: W)
    ensures ExecAll(sem, [a], base, env, st, w) == Exec(sem, a, base, env, st, w)
  {
    assert [a][1..] == [];
  }

  lemma ExecTwo<W>(sem: Sem<W>, a: Instr, b: Instr, base: nat, env: nat, st: seq<Value>, w: W)
    ensures ExecAll(sem, [a, b], base, env, st, w) ==
      var x := Exec(sem, a, base, env, st, w);
      if x.Next? then Exec(sem, b, base, env, x.stack, x.w) else x
  {
    assert [a, b][1..] == [b];
    var x := Exec(sem, a, base, env, st, w);
    if x.Next? {
      ExecOne(sem, b, base, env, x.stack, x.w);
    }
  }

  lemma ExecThree<W>(sem: Sem<W>, a: Instr, b: Instr, c: Instr, base: nat, env: nat, st: seq<Value>, w: W)
    ensures ExecAll(sem, [a, b, c], base, env, st, w) ==
      var x := Exec(sem, a, base, env, st, w);
      if x.Next? then ExecAll(sem, [b, c], base, env, x.stack, x.w) else x
  {
    assert [a, b, c][1..] == [b, c];
  }

  /** An instruction does what the plain instructions it stands for do one after the other. */
  lemma ExpandExec<W>(sem: Sem<W>, ins: Instr, to: nat, base: nat, env: nat, st: seq<Value>, w: W)
    requires Proper(ins)
    ensures ExecAll(sem, Expand(ins, to), base, env, st, w) == Retarget(Exec(sem, ins, base, env, st, w), to)
  {
    hide ExecAll, Exec;
    if !IsFused(ins) {
      UnfusedExec(sem, ins, to, base, env, st, w);
    } else if ins.SetLocalPop? {
      SetLocalPopExec(sem, ins.i, base, env, st, w);
    } else if ins.SetGlobalPop? {
      SetGlobalPopExec(sem, ins.g, base, env, st, w);
    } else if ins.SetPropertyPop? {
      SetPropertyPopExec(sem, ins.name, ins.site, base, env, st, w);
    } else if ins.GetLocalProperty? {
      GetLocalPropertyExec(sem, ins.i, ins.name, ins.site, base, env, st, w);
    } else if ins.CompareJump? {
      CompareJumpExec(sem, ins, to, base, env, st, w);
    } else if ins.BinaryC? {
      BinaryCExec(sem, ins, base, env, st, w);
    } else {
      CompareCJumpExec(sem, ins, to, base, env, st, w);
    }
  }

  lemma UnfusedExec<W>(sem: Sem<W>, ins: Instr, to: nat, base: nat, env: nat, st: seq<Value>, w: W)
    requires !IsFused(ins)
    ensures ExecAll(sem, Expand(ins, to), base, env, st, w) == Retarget(Exec(sem, ins, base, env, st, w), to)
  {
    var e := Expand(ins, to);
    assert e == [e[0]];
    ExecOne(sem, e[0], base, env, st, w);
  }

  lemma SetLocalPopExec<W>(sem: Sem<W>, i: nat, base: nat, env: nat, st: seq<Value>, w: W)
    ensures ExecAll(sem, [SetLocal(i), Pop], base, env, st, w) == Retarget(Exec(sem, SetLocalPop(i), base, env, st, w), 0)
    ensures !Exec(sem, SetLocalPop(i), base, env, st, w).Goto?
  {
    var n := |st|;
    ExecTwo(sem, SetLocal(i), Pop, base, env, st, w);
    if n >= 1 && base + i < n {
      assert st[base + i := st[n - 1]][..n - 1] == if base + i == n - 1 then st[..n - 1] else st[..n - 1][base + i := st[n - 1]];
    }
  }

  lemma SetGlobalPopExec<W>(sem: Sem<W>, g: nat, base: nat, env: nat, st: seq<Value>, w: W)
    ensures ExecAll(sem, [SetGlobal(g), Pop], base, env, st, w) == Exec(sem, SetGlobalPop(g), base, env, st, w)
    ensures !Exec(sem, SetGlobalPop(g), base, env, st, w).Goto?
  {
    ExecTwo(sem, SetGlobal(g), Pop, base, env, st, w);
  }

  lemma SetPropertyPopExec<W>(sem: Sem<W>, name: nat, site: nat, base: nat, env: nat, st: seq<Value>, w: W)
    ensures ExecAll(sem, [SetProperty(name, site), Pop], base, env, st, w) == Exec(sem, SetPropertyPop(name, site), base, env, st, w)
    ensures !Exec(sem, SetPropertyPop(name, site), base, env, st, w).Goto?
  {
    var n := |st|;
    ExecTwo(sem, SetProperty(name, site), Pop, base, env, st, w);
    if n >= 2 {
      assert (st[..n - 2] + [st[n - 1]])[..n - 2] == st[..n - 2];
    }
  }

  lemma GetLocalPropertyExec<W>(sem: Sem<W>, i: nat, name: nat, site: nat, base: nat, env: nat, st: seq<Value>, w: W)
    ensures ExecAll(sem, [GetLocal(i), GetProperty(name, site)], base, env, st, w) ==
      Exec(sem, GetLocalProperty(i, name, site), base, env, st, w)
    ensures !Exec(sem, GetLocalProperty(i, name, site), base, env, st, w).Goto?
  {
    var n := |st|;
    ExecTwo(sem, GetLocal(i), GetProperty(name, site), base, env, st, w);
    if base + i < n {
      assert (st + [st[base + i]])[..n] == st;
    }
  }

  lemma CompareJumpExec<W>(sem: Sem<W>, ins: Instr, to: nat, base: nat, env: nat, st: seq<Value>, w: W)
    requires ins.CompareJump? && Proper(ins)
    ensures ExecAll(sem, Expand(ins, to), base, env, st, w) == Retarget(Exec(sem, ins, base, env, st, w), to)
  {
    ExecTwo(sem, Binary(ins.bop), JumpIfFalsePop(to), base, env, st, w);
    var n := |st|;
    if n >= 2 && Compute(ins.bop, st[n - 2], st[n - 1]).Val? {
      var v := Compute(ins.bop, st[n - 2], st[n - 1]).v;
      assert (st[..n - 2] + [v])[..n - 2] == st[..n - 2];
    }
  }

  lemma BinaryCExec<W>(sem: Sem<W>, ins: Instr, base: nat, env: nat, st: seq<Value>, w: W)
    requires ins.BinaryC? && Proper(ins)
    ensures ExecAll(sem, [Const(ins.v), Binary(ins.bop)], base, env, st, w) == Exec(sem, ins, base, env, st, w)
    ensures !Exec(sem, ins, base, env, st, w).Goto?
  {
    ExecTwo(sem, Const(ins.v), Binary(ins.bop), base, env, st, w);
    var n := |st|;
    if n >= 1 {
      assert (st + [ins.v])[..n - 1] == st[..n - 1];
    }
  }

  lemma CompareCJumpExec<W>(sem: Sem<W>, ins: Instr, to: nat, base: nat, env: nat, st: seq<Value>, w: W)
    requires ins.CompareCJump? && Proper(ins)
    ensures ExecAll(sem, Expand(ins, to), base, env, st, w) == Retarget(Exec(sem, ins, base, env, st, w), to)
  {
    hide ExecAll;
    var st' := st + [ins.v];
    ExecThree(sem, Const(ins.v), Binary(ins.bop), JumpIfFalsePop(to), base, env, st, w);
    CompareJumpExec(sem, CompareJump(ins.bop, ins.t), to, base, env, st', w);
    PushedConstant(sem, ins, base, env, st, w);
  }

  /** Comparing with a constant is comparing with the constant pushed. */
  lemma PushedConstant<W>(sem: Sem<W>, ins: Instr, base: nat, env: nat, st: seq<Value>, w: W)
    requires ins.CompareCJump? && Proper(ins)
    ensures Exec(sem, CompareJump(ins.bop, ins.t), base, env, st + [ins.v], w) == Exec(sem, ins, base, env, st, w)
  {
    var n := |st|;
    var st' := st + [ins.v];
    if n >= 1 {
      assert st'[..n - 1] == st[..n - 1] && st'[n - 1] == st[n - 1] && st'[n] == ins.v;
    }
  }

  // ----- the machine -----

  ghost predicate FusesAll(p: Program, q: Program, poss: seq<seq<nat>>) {
    |p| == |q| == |poss| && forall f :: 0 <= f < |p| ==> Fuses(p[f], q[f], poss[f])
  }

  ghost predicate SameFrame(poss: seq<seq<nat>>, a: Frame, b: Frame) {
    && a.fn == b.fn && a.base == b.base && a.env == b.env
    && (a.fn < |poss| ==> a.ip < |poss[a.fn]| && b.ip == poss[a.fn][a.ip])
  }

  /** The same values and world; every frame is at corresponding instructions. */
  ghost predicate Same<W>(poss: seq<seq<nat>>, s: State<W>, t: State<W>) {
    match s
    case Running(frames, stack, w) =>
      && t.Running? && t.stack == stack && t.w == w && |t.frames| == |frames|
      && forall k :: 0 <= k < |frames| ==> SameFrame(poss, frames[k], t.frames[k])
    case Finished(w) => t == Finished(w)
    case Failed(e, w) => t == Failed(e, w)
  }

  /** Instructions that either go on to the next one or fail. */
  predicate Straight(ins: Instr) {
    ins.Const? || ins.Binary? || ins.GetLocal? || ins.SetLocal? || ins.SetGlobal? || ins.SetProperty?
  }

  lemma RunFrom<W>(p: Program, sem: Sem<W>, s: State<W>, n: nat)
    requires n > 0
    ensures Run(p, sem, s, n) == Run(p, sem, Step(p, sem, s), n - 1)
  {}

  lemma {:induction false} RunStopped<W>(p: Program, sem: Sem<W>, s: State<W>, n: nat)
    requires !s.Running?
    ensures Run(p, sem, s, n) == s
    decreases n
  {
    if n > 0 {
      RunStopped(p, sem, s, n - 1);
    }
  }

  lemma {:induction false} RunMore<W>(p: Program, sem: Sem<W>, s: State<W>, m: nat, n: nat)
    ensures Run(p, sem, Run(p, sem, s, m), n) == Run(p, sem, s, m + n)
    decreases m
  {
    if m > 0 {
      RunMore(p, sem, Step(p, sem, s), m - 1, n);
    }
  }

  /** Running the instructions of a block one by one. */
  lemma {:induction false} RunBlock<W>(p: Program, sem: Sem<W>, frames: seq<Frame>, st: seq<Value>, w: W, blk: seq<Instr>)
    requires frames != [] && blk != []
    requires var top := frames[|frames| - 1];
      top.fn < |p| && top.ip + |blk| <= |p[top.fn]| && p[top.fn][top.ip..top.ip + |blk|] == blk
    requires forall i :: 0 <= i < |blk| - 1 ==> Straight(blk[i])
    ensures var top := frames[|frames| - 1];
      Run(p, sem, Running(frames, st, w), |blk|) ==
      Apply(frames, top.ip + |blk|, ExecAll(sem, blk, top.base, top.env, st, w))
    decreases |blk|
  {
    hide Exec;
    var top := frames[|frames| - 1];
    var s := Running(frames, st, w);
    assert p[top.fn][top.ip] == p[top.fn][top.ip..top.ip + |blk|][0] == blk[0];
    var a := Exec(sem, blk[0], top.base, top.env, st, w);
    RunFrom(p, sem, s, |blk|);
    if |blk| == 1 {
      assert blk == [blk[0]];
      ExecOne(sem, blk[0], top.base, top.env, st, w);
    } else {
      StraightGoesOn(sem, blk[0], top.base, top.env, st, w);
      if a.Stop? {
        RunStopped(p, sem, Step(p, sem, s), |blk| - 1);
      } else {
        var frames' := frames[..|frames| - 1] + [top.(ip := top.ip + 1)];
        assert p[top.fn][top.ip + 1..top.ip + 1 + |blk[1..]|] == p[top.fn][top.ip..top.ip + |blk|][1..];
        RunBlock(p, sem, frames', a.stack, a.w, blk[1..]);
        assert frames'[..|frames| - 1] == frames[..|frames| - 1];
      }
    }
  }

  lemma StraightGoesOn<W>(sem: Sem<W>, ins: Instr, base: nat, env: nat, st: seq<Value>, w: W)
    requires Straight(ins)
    ensures var a := Exec(sem, ins, base, env, st, w); a.Next? || a.Stop?
  {}

  lemma ExpandStraight(ins: Instr, to: nat)
    ensures Expand(ins, to) != [] && forall i :: 0 <= i < |Expand(ins, to)| - 1 ==> Straight(Expand(ins, to)[i])
  {}

  lemma GotoTarget<W>(sem: Sem<W>, ins: Instr, base: nat, env: nat, st: seq<Value>, w: W)
    ensures var a := Exec(sem, ins, base, env, st, w); a.Goto? ==> IsJump(ins) && a.t == ins.t
  {}

  ghost predicate SameFrames(poss: seq<seq<nat>>, fs: seq<Frame>, gs: seq<Frame>) {
    |fs| == |gs| && forall k :: 0 <= k < |fs| ==> SameFrame(poss, fs[k], gs[k])
  }

  lemma SameFramesPush(poss: seq<seq<nat>>, fs: seq<Frame>, gs: seq<Frame>, f: Frame, g: Frame)
    requires SameFrames(poss, fs, gs) && SameFrame(poss, f, g)
    ensures SameFrames(poss, fs + [f], gs + [g])
  {}

  lemma ApplySame<W>(poss: seq<seq<nat>>, fs: seq<Frame>, gs: seq<Frame>, next: nat, next': nat, a: Act<W>, to: nat)
    requires SameFrames(poss, fs, gs) && fs != [] && fs[|fs| - 1].fn < |poss|
    requires var pos := poss[fs[|fs| - 1].fn];
      next < |pos| && next' == pos[next] && (a.Goto? ==> a.t < |pos| && to == pos[a.t])
    requires forall f :: 0 <= f < |poss| ==> |poss[f]| > 0 && poss[f][0] == 0
    ensures Same(poss, Apply(fs, next, a), Apply(gs, next', Retarget(a, to)))
  {
    var n := |fs| - 1;
    var f, g := fs[n], gs[n];
    assert SameFrame(poss, f, g);
    assert SameFrames(poss, fs[..n], gs[..n]);
    match a
    case Next(st, w) => SameFramesPush(poss, fs[..n], gs[..n], f.(ip := next), g.(ip := next'));
    case Goto(t, st, w) => SameFramesPush(poss, fs[..n], gs[..n], f.(ip := t), g.(ip := to));
    case Call(fn, base, env, st, w) =>
      SameFramesPush(poss, fs[..n], gs[..n], f.(ip := next), g.(ip := next'));
      var h := Frame(fn, 0, base, env);
      SameFramesPush(poss, fs[..n] + [f.(ip := next)], gs[..n] + [g.(ip := next')], h, h);
      assert fs[..n] + [f.(ip := next), h] == fs[..n] + [f.(ip := next)] + [h];
      assert gs[..n] + [g.(ip := next'), h] == gs[..n] + [g.(ip := next')] + [h];
    case Return(st, w) =>
    case Stop(e, w) =>
  }

  /** One instruction of the fused code corresponds to one to three of the plain code. */
  lemma StepSame<W>(p: Program, q: Program, poss: seq<seq<nat>>, sem: Sem<W>, s: State<W>, t: State<W>) returns (k: nat)
    requires FusesAll(p, q, poss) && Same(poss, s, t)
    ensures 1 <= k && Same(poss, Step(p, sem, s), Run(q, sem, t, k))
  {
    hide Exec, Expand, ExecAll, Apply, Run;
    k := 1;
    if !s.Running? {
      RunStopped(q, sem, t, 1);
    } else if s.frames == [] {
      RunOnce(q, sem, t);
    } else {
      var n := |s.frames| - 1;
      var f, g := s.frames[n], t.frames[n];
      assert SameFrame(poss, f, g);
      if f.fn >= |p| {
        RunOnce(q, sem, t);
      } else if f.ip >= |p[f.fn]| {
        assert Fuses(p[f.fn], q[f.fn], poss[f.fn]);
        RunOnce(q, sem, t);
      } else {
        k := StepBlock(p, q, poss, sem, s, t);
      }
    }
  }

  lemma RunOnce<W>(p: Program, sem: Sem<W>, s: State<W>)
    ensures Run(p, sem, s, 1) == Step(p, sem, s)
  {
    assert Run(p, sem, Step(p, sem, s), 0) == Step(p, sem, s);
  }

  lemma StepBlock<W>(p: Program, q: Program, poss: seq<seq<nat>>, sem: Sem<W>, s: State<W>, t: State<W>) returns (k: nat)
    requires FusesAll(p, q, poss) && Same(poss, s, t) && s.Running? && s.frames != []
    requires var f := s.frames[|s.frames| - 1]; f.fn < |p| && f.ip < |p[f.fn]|
    ensures 1 <= k && Same(poss, Step(p, sem, s), Run(q, sem, t, k))
  {
    hide Exec, Expand, ExecAll, Apply, Run, Same;
    var n := |s.frames| - 1;
    SameMeans(poss, s, t);
    var f, g := s.frames[n], t.frames[n];
    assert SameFrame(poss, f, g);
    var code, pos := p[f.fn], poss[f.fn];
    assert Fuses(code, q[f.fn], pos) && BlockAt(code, q[f.fn], pos, f.ip);
    var ins := code[f.ip];
    var to := pos[Target(ins)];
    var blk := Expand(ins, to);
    k := |blk|;
    ExpandStraight(ins, to);
    RunBlock(q, sem, t.frames, t.stack, t.w, blk);
    ExpandExec(sem, ins, to, f.base, f.env, s.stack, s.w);
    GotoTarget(sem, ins, f.base, f.env, s.stack, s.w);
    FirstPositions(p, q, poss);
    ApplySame(poss, s.frames, t.frames, f.ip + 1, g.ip + k, Exec(sem, ins, f.base, f.env, s.stack, s.w), to);
  }

  lemma SameMeans<W>(poss: seq<seq<nat>>, s: State<W>, t: State<W>)
    requires Same(poss, s, t) && s.Running?
    ensures t.Running? && t.stack == s.stack && t.w == s.w && SameFrames(poss, s.frames, t.frames)
    ensures t == Running(t.frames, s.stack, s.w)
  {}

  lemma FirstPositions(p: Program, q: Program, poss: seq<seq<nat>>)
    requires FusesAll(p, q, poss)
    ensures forall f :: 0 <= f < |poss| ==> |poss[f]| > 0 && poss[f][0] == 0
  {
    forall f | 0 <= f < |poss|
      ensures |poss[f]| > 0 && poss[f][0] == 0
    {
      assert Fuses(p[f], q[f], poss[f]);
    }
  }

  /** However long the fused code runs, the plain code gets to the same state, in at least as many steps. */
  lemma {:induction false} RunSame<W>(p: Program, q: Program, poss: seq<seq<nat>>, sem: Sem<W>, s: State<W>, t: State<W>, n: nat)
    returns (m: nat)
    requires FusesAll(p, q, poss) && Same(poss, s, t)
    ensures n <= m && Same(poss, Run(p, sem, s, n), Run(q, sem, t, m))
    decreases n
  {
    hide Step, FusesAll, Same;
    if n == 0 {
      m := 0;
    } else {
      var k := StepSame(p, q, poss, sem, s, t);
      var l := RunSame(p, q, poss, sem, Step(p, sem, s), Run(q, sem, t, k), n - 1);
      RunMore(q, sem, t, k, l);
      m := k + l;
    }
  }

  ghost predicate Ends<W>(p: Program, sem: Sem<W>, s: State<W>, r: State<W>) {
    !r.Running? && exists n: nat :: Run(p, sem, s, n) == r
  }

  lemma {:induction false} StaysStopped<W>(p: Program, sem: Sem<W>, s: State<W>, n: nat, m: nat)
    requires n <= m && !Run(p, sem, s, n).Running?
    ensures Run(p, sem, s, m) == Run(p, sem, s, n)
  {
    RunMore(p, sem, s, n, m - n);
    RunStopped(p, sem, Run(p, sem, s, n), m - n);
  }

  /** The fused program ends with a result or an error exactly if the plain one does, with the same world. */
  lemma SameEnd<W(!new)>(p: Program, q: Program, poss: seq<seq<nat>>, sem: Sem<W>, s: State<W>, t: State<W>, r: State<W>)
    requires FusesAll(p, q, poss) && Same(poss, s, t)
    ensures Ends(p, sem, s, r) <==> Ends(q, sem, t, r)
  {
    hide Run, FusesAll;
    if Ends(p, sem, s, r) {
      var n: nat :| Run(p, sem, s, n) == r;
      var m := RunSame(p, q, poss, sem, s, t, n);
      assert Run(q, sem, t, m) == r;
    }
    if Ends(q, sem, t, r) {
      var n: nat :| Run(q, sem, t, n) == r;
      var m := RunSame(p, q, poss, sem, s, t, n);
      StaysStopped(q, sem, t, n, m);
      assert Run(p, sem, s, n) == r;
    }
  }
}
