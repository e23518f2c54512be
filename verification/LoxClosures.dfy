/** Running compiled code on the stack with its upvalues: the pops that the compiler emits never drop a variable that a
    closure still shares, so every variable is one cell for as long as anything can reach it. */
module LoxClosures {
  import opened LoxScopes
  import opened LoxUpvalues
  import LoxParser

  /** A function value has the upvalues of its closure; all other values are alike here. */
  datatype Value = Plain(n: int) | Func(fn: nat, ups: seq<nat>)

  datatype Frame = Frame(fn: nat, pc: nat, bp: nat, ups: seq<nat>)

  /** What the code does not say: the value that an instruction produces, whether it fails, whether a jump is taken, and
      what a call does: something native, or entering `v` with `self` in its first slot. */
  datatype Choice = Choice(v: Value, fail: bool, take: bool, native: bool, self: Value)

  /** The upvalues of a function value are there. */
  predicate Usable(prog: seq<Code>, v: Value, n: nat) {
    v.Func? ==> v.fn < |prog| && |v.ups| == prog[v.fn].ups && forall i :: 0 <= i < |v.ups| ==> v.ups[i] < n
  }

  ghost predicate AllUsable(prog: seq<Code>, vs: seq<Value>, n: nat) {
    forall i :: 0 <= i < |vs| ==> Usable(prog, vs[i], n)
  }

  ghost predicate FrameOk(prog: seq<Code>, f: Frame, n: nat) {
    && f.fn < |prog| && f.pc < |prog[f.fn].instrs| && |f.ups| == prog[f.fn].ups
    && forall i :: 0 <= i < |f.ups| ==> f.ups[i] < n
  }

  ghost predicate FramesOk(prog: seq<Code>, frames: seq<Frame>, n: nat) {
    forall k :: 0 <= k < |frames| ==> FrameOk(prog, frames[k], n)
  }

  /** What is known where a frame is. */
  ghost function At(prog: seq<Code>, f: Frame): Here {
    if f.fn < |prog| && f.pc < |prog[f.fn].here| then prog[f.fn].here[f.pc] else Here([], 0)
  }

  /** Frames lie one above the other: the callee's first slot is where the caller gets the result. */
  ghost predicate Stacked(prog: seq<Code>, frames: seq<Frame>, height: nat) {
    && (forall k :: 0 <= k < |frames| - 1 ==> frames[k + 1].bp == frames[k].bp + At(prog, frames[k]).height - 1)
    && (forall j, k :: 0 <= j < k < |frames| ==> frames[j].bp <= frames[k].bp)
    && (frames != [] ==> frames[0].bp == 0 && height == frames[|frames| - 1].bp + At(prog, frames[|frames| - 1]).height)
  }

  /** The slot holds a variable of frame k that is flagged as captured. */
  ghost predicate Owns(prog: seq<Code>, frames: seq<Frame>, k: nat, slot: int)
    requires k < |frames|
  {
    && frames[k].fn < |prog| && frames[k].bp <= slot && (k + 1 < |frames| ==> slot < frames[k + 1].bp)
    && slot - frames[k].bp < |At(prog, frames[k]).vars|
    && At(prog, frames[k]).vars[slot - frames[k].bp] in prog[frames[k].fn].caught
  }

  ghost predicate Owned(prog: seq<Code>, frames: seq<Frame>, slot: int) {
    exists k :: 0 <= k < |frames| && Owns(prog, frames, k, slot)
  }

  /** Every open upvalue is at a captured variable of a frame that is still there. */
  ghost predicate OpenOk(prog: seq<Code>, frames: seq<Frame>, ups: seq<Upvalue<Value>>) {
    forall u :: 0 <= u < |ups| && ups[u].slot >= 0 ==> Owned(prog, frames, ups[u].slot)
  }

  /** No upvalue is open above the variables of the last frame. */
  lemma OpenBelow(prog: seq<Code>, frames: seq<Frame>, height: nat, ups: seq<Upvalue<Value>>)
    requires Stacked(prog, frames, height) && OpenOk(prog, frames, ups) && frames != []
    ensures var f := frames[|frames| - 1]; forall u :: 0 <= u < |ups| ==> ups[u].slot < f.bp + |At(prog, f).vars|
  {
    var f := frames[|frames| - 1];
    forall u | 0 <= u < |ups|
      ensures ups[u].slot < f.bp + |At(prog, f).vars|
    {
      if ups[u].slot >= 0 {
        assert Owned(prog, frames, ups[u].slot);
        var k :| 0 <= k < |frames| && Owns(prog, frames, k, ups[u].slot);
        assert k < |frames| - 1 ==> frames[k + 1].bp <= f.bp;
      }
    }
  }

  lemma LastOwns(prog: seq<Code>, frames: seq<Frame>, height: nat, slot: int)
    requires Stacked(prog, frames, height) && Owned(prog, frames, slot) && frames != [] && slot >= frames[|frames| - 1].bp
    ensures Owns(prog, frames, |frames| - 1, slot)
  {
    var k :| 0 <= k < |frames| && Owns(prog, frames, k, slot);
    assert frames[if k + 1 < |frames| then k + 1 else k].bp <= frames[|frames| - 1].bp;
  }

  /** Nor at a variable of the last frame that is dropped by a pop. */
  lemma DeadNotOpen(prog: seq<Code>, frames: seq<Frame>, height: nat, ups: seq<Upvalue<Value>>)
    requires Stacked(prog, frames, height) && OpenOk(prog, frames, ups) && frames != []
    requires var f := frames[|frames| - 1];
      var vars := At(prog, f).vars;
      f.fn < |prog| && prog[f.fn].caught !! prog[f.fn].dead && vars != [] && vars[|vars| - 1] in prog[f.fn].dead
    ensures var f := frames[|frames| - 1]; forall u :: 0 <= u < |ups| ==> ups[u].slot < f.bp + |At(prog, f).vars| - 1
  {
    OpenBelow(prog, frames, height, ups);
    var f := frames[|frames| - 1];
    var n := |At(prog, f).vars| - 1;
    forall u | 0 <= u < |ups|
      ensures ups[u].slot != f.bp + n
    {
      if ups[u].slot == f.bp + n {
        LastOwns(prog, frames, height, ups[u].slot);
      }
    }
  }

  /** The last frame moves on: variables below `base` stay, and those above have no open upvalue. */
  lemma MovesOn(prog: seq<Code>, frames: seq<Frame>, height: nat, ups: seq<Upvalue<Value>>, pc: nat, base: nat)
    requires Stacked(prog, frames, height) && OpenOk(prog, frames, ups) && frames != []
    requires var f := frames[|frames| - 1]; base <= |At(prog, f).vars| && base <= |At(prog, f.(pc := pc)).vars|
    requires var f := frames[|frames| - 1]; At(prog, f).vars[..base] == At(prog, f.(pc := pc)).vars[..base]
    requires forall u :: 0 <= u < |ups| ==> ups[u].slot < frames[|frames| - 1].bp + base
    ensures var n := |frames| - 1;
      OpenOk(prog, frames[n := frames[n].(pc := pc)], ups) &&
      Stacked(prog, frames[n := frames[n].(pc := pc)], frames[n].bp + At(prog, frames[n].(pc := pc)).height)
  {
    var n := |frames| - 1;
    var frames' := frames[n := frames[n].(pc := pc)];
    forall u | 0 <= u < |ups| && ups[u].slot >= 0
      ensures Owned(prog, frames', ups[u].slot)
    {
      assert Owned(prog, frames, ups[u].slot);
      var k :| 0 <= k < |frames| && Owns(prog, frames, k, ups[u].slot);
      if k == n {
        var i := ups[u].slot - frames[n].bp;
        assert At(prog, frames[n]).vars[..base][i] == At(prog, frames'[n]).vars[..base][i];
      }
      assert Owns(prog, frames', k, ups[u].slot);
    }
  }

  /** The compiled program. */
  class Vm {
    const prog: seq<Code>
    const m: Machine<Value>
    var frames: seq<Frame>
    var halted: bool

    ghost predicate Valid()
      reads this, m
    {
      && ProgOk(prog) && m.Valid() && |m.env| == |m.stack| && |m.cellOf| == |m.ups|
      && FramesOk(prog, frames, |m.ups|)
      && Stacked(prog, frames, |m.stack|) && OpenOk(prog, frames, m.ups) && AllUsable(prog, m.cells, |m.ups|)
      && (frames == [] ==> halted)
    }

    constructor (p: seq<Code>)
      requires ProgOk(p) && |p| > 0 && p[|p| - 1].arity == 0 && p[|p| - 1].ups == 0
      ensures Valid() && fresh(m) && !halted && prog == p
    {
      hide Machine.Valid, CodeOk, OpenOk, Stacked;
      prog := p;
      var mach := new Machine<Value>();
      mach.Push(Plain(0));
      m := mach;
      frames, halted := [Frame(|p| - 1, 0, 0, [])], false;
      new;
      Started(p);
    }

    function Last(): Frame
      requires frames != []
      reads this
    {
      frames[|frames| - 1]
    }

    /** The instruction to run. */
    function Ins(): Instr
      requires frames != [] && Last().fn < |prog| && Last().pc < |prog[Last().fn].instrs|
      reads this
    {
      prog[Last().fn].instrs[Last().pc]
    }

    /** All is well except for where the last frame is; h is the height that belongs to that place. */
    ghost predicate Between(h: nat)
      reads this, m
    {
      && ProgOk(prog) && m.Valid() && |m.env| == |m.stack| && |m.cellOf| == |m.ups| && frames != []
      && FramesOk(prog, frames, |m.ups|)
      && Stacked(prog, frames, h) && OpenOk(prog, frames, m.ups) && AllUsable(prog, m.cells, |m.ups|)
    }

    /** Control goes to t: the first `base` variables stay, and no upvalue is open above them. */
    method Goto(t: nat, ghost h: nat, ghost base: nat)
      requires Between(h) && t < |prog[Last().fn].instrs|
      requires base <= |At(prog, Last()).vars| && base <= |At(prog, Last().(pc := t)).vars|
      requires At(prog, Last()).vars[..base] == At(prog, Last().(pc := t)).vars[..base]
      requires |m.stack| == Last().bp + At(prog, Last().(pc := t)).height
      requires forall u :: 0 <= u < |m.ups| ==> m.ups[u].slot < Last().bp + base
      modifies `frames
      ensures Valid() && frames == old(frames)[|old(frames)| - 1 := old(Last()).(pc := t)]
    {
      hide ProgOk, Machine.Valid, Stacked, OpenOk, At;
      MovesOn(prog, frames, h, m.ups, t, base);
      frames := frames[|frames| - 1 := Last().(pc := t)];
    }

    /** Drops n temporaries. */
    method PopTemps(n: nat)
      requires m.Valid() && |m.env| == |m.stack| && n <= |m.stack|
      requires forall u :: 0 <= u < |m.ups| ==> m.ups[u].slot < |m.stack| - n
      modifies m
      ensures m.Valid() && |m.env| == |m.stack| && m.stack == old(m.stack)[..|old(m.stack)| - n]
      ensures m.cells == old(m.cells) && m.cellOf == old(m.cellOf) && m.ups == old(m.ups)
    {
      hide Machine.Valid;
      for i := 0 to n
        invariant m.Valid() && |m.env| == |m.stack| && m.stack == old(m.stack)[..|old(m.stack)| - i]
        invariant m.cells == old(m.cells) && m.cellOf == old(m.cellOf) && m.ups == old(m.ups)
      {
        m.Pop();
      }
    }

    /** An instruction that takes temporaries and perhaps leaves a value. */
    method StepUse(pops: nat, push: bool, v: Value)
      requires Valid() && frames != [] && Usable(prog, v, |m.ups|)
      requires Fits(prog, Last(), pops, push)
      modifies `frames, m
      ensures Valid() && m.cells == old(m.cells) + (if push then [v] else []) && m.ups == old(m.ups) && m.cellOf == old(m.cellOf)
      ensures pops <= |old(m.stack)| && m.stack == old(m.stack)[..|old(m.stack)| - pops] + if push then [v] else []
    {
      hide ProgOk, Machine.Valid, OpenOk;
      ghost var h := |m.stack|;
      OpenBelow(prog, frames, h, m.ups);
      PopTemps(pops);
      if push {
        m.Push(v);
      }
      Goto(Last().pc + 1, h, |At(prog, Last()).vars|);
    }

    /** Drops a temporary, or a variable at the end of its scope: no upvalue is open there. */
    method StepPop()
      requires Valid() && frames != [] && Ins().Pop?
      modifies `frames, m
      ensures Valid() && m.cells == old(m.cells) && m.ups == old(m.ups) && m.cellOf == old(m.cellOf)
      ensures |old(m.stack)| > 0 && m.stack == old(m.stack)[..|old(m.stack)| - 1]
    {
      hide ProgOk, Machine.Valid, OpenOk, Stacked, FramesOk, AllUsable;
      PopMoves(prog, frames, |m.stack|, m.ups);
      m.Pop();
      frames := frames[|frames| - 1 := Last().(pc := Last().pc + 1)];
    }

    /** The end of a scope: a variable that was captured. Its upvalue keeps what it holds. */
    method StepClose()
      requires Valid() && frames != [] && Ins().CloseUp?
      modifies `frames, m
      ensures Valid() && m.cells == old(m.cells) && m.cellOf == old(m.cellOf)
      ensures |old(m.stack)| > 0 && m.stack == old(m.stack)[..|old(m.stack)| - 1]
    {
      hide ProgOk, Machine.Valid, OpenOk, Stacked, At, FramesOk, AllUsable;
      var f := Last();
      LastOk(prog, frames, |m.ups|);
      AtClose(prog, f, |m.ups|);
      ghost var h, ups := |m.stack|, m.ups;
      HeightAt(prog, frames, h);
      m.CloseFrom(|m.stack| - 1);
      ClosedMoves(prog, frames, h, ups, m.ups);
      frames := frames[|frames| - 1 := f.(pc := f.pc + 1)];
    }

    method StepJump(t: nat)
      requires Valid() && frames != [] && IsJump(Ins()) && Ins().t == t && !Ins().Branch?
      modifies `frames
      ensures Valid()
    {
      hide ProgOk, Machine.Valid, OpenOk, CodeOk, Stacked;
      LastOk(prog, frames, |m.ups|);
      InsOkay(prog, Last(), |m.ups|);
      ghost var h := |m.stack|;
      HeightAt(prog, frames, h);
      OpenBelow(prog, frames, h, m.ups);
      Goto(t, h, |At(prog, Last()).vars|);
    }

    /** A branch that is taken. */
    method StepBranch()
      requires Valid() && frames != [] && Ins().Branch?
      modifies `frames, m
      ensures Valid() && m.cells == old(m.cells) && m.cellOf == old(m.cellOf)
    {
      hide ProgOk, Machine.Valid, OpenOk, CodeOk, Stacked;
      LastOk(prog, frames, |m.ups|);
      InsOkay(prog, Last(), |m.ups|);
      ghost var h := |m.stack|;
      HeightAt(prog, frames, h);
      OpenBelow(prog, frames, h, m.ups);
      var t := Ins().t;
      PopTemps(1);
      Goto(t, h, |At(prog, Last()).vars|);
    }

    /** Assigns a local variable: its cell changes, and no other. */
    method StepSetLocal(i: nat)
      requires Valid() && frames != [] && Ins() == Instr.SetLocal(i)
      modifies `frames, m
      ensures Valid() && m.ups == old(m.ups) && m.cellOf == old(m.cellOf) && |old(m.stack)| > 0
      ensures old(Last().bp) + i < |old(m.env)| && old(m.env)[old(Last().bp) + i] < |old(m.cells)|
      ensures m.cells == old(m.cells)[old(m.env)[old(Last().bp) + i] := old(m.stack)[|old(m.stack)| - 1]]
    {
      hide ProgOk, Machine.Valid, OpenOk, Stacked, FramesOk, AllUsable, Usable, At, Fits;
      LastOk(prog, frames, |m.ups|);
      FitsIns(prog, Last(), |m.ups|);
      HeightAt(prog, frames, |m.stack|);
      StackUsable(m, prog);
      EnvOk(m);
      var v := m.stack[|m.stack| - 1];
      UsableSet(prog, m.cells, m.env[Last().bp + i], v, |m.ups|);
      m.SetLocal(Last().bp + i, v);
      PlainUsable(prog, |m.ups|);
      StepUse(0, false, Plain(0));
    }

    /** Assigns through an upvalue: the cell it stands for changes, and no other. */
    method StepSetUp(u: nat)
      requires Valid() && frames != [] && Ins() == SetUp(u)
      modifies `frames, m
      ensures Valid() && m.cellOf == old(m.cellOf) && |old(m.stack)| > 0
      ensures u < |old(Last().ups)| && old(Last().ups[u]) < |m.cellOf| && m.cellOf[old(Last().ups[u])] < |old(m.cells)|
      ensures m.cells == old(m.cells)[m.cellOf[old(Last().ups[u])] := old(m.stack)[|old(m.stack)| - 1]]
    {
      hide ProgOk, Machine.Valid, OpenOk, Stacked, FramesOk, AllUsable, Usable, At, Fits;
      LastOk(prog, frames, |m.ups|);
      FitsIns(prog, Last(), |m.ups|);
      HeightAt(prog, frames, |m.stack|);
      StackUsable(m, prog);
      var v, w := m.stack[|m.stack| - 1], Last().ups[u];
      CellInRange(m, w);
      UsableSet(prog, m.cells, m.cellOf[w], v, |m.ups|);
      ghost var ups := m.ups;
      m.Store(w, v);
      FewerOpen(prog, frames, ups, m.ups);
      PlainUsable(prog, |m.ups|);
      StepUse(0, false, Plain(0));
    }

    /** Makes a closure: for a variable of the enclosing function it gets the variable's own cell, otherwise one that the
        enclosing closure has. */
    method StepClosure(fn: nat, refs: seq<Ref>) returns (ups: seq<nat>)
      requires Valid() && frames != [] && Ins() == Closure(fn, refs)
      modifies `frames, m
      ensures Valid() && |ups| == |refs| && m.cells == old(m.cells) + [Func(fn, ups)] && m.stack == old(m.stack) + [Func(fn, ups)]
      ensures old(m.env) <= m.env && old(m.cellOf) <= m.cellOf
      ensures forall i :: 0 <= i < |refs| ==> ups[i] < |m.cellOf|
      ensures forall i :: 0 <= i < |refs| && refs[i].isLocal ==>
        old(Last().bp) + refs[i].index < |m.env| && m.cellOf[ups[i]] == m.env[old(Last().bp) + refs[i].index]
      ensures forall i :: 0 <= i < |refs| && !refs[i].isLocal ==>
        refs[i].index < |old(Last().ups)| && ups[i] == old(Last().ups)[refs[i].index]
    {
      hide ProgOk, Machine.Valid, OpenOk, Stacked, FramesOk, AllUsable, Usable, At, NewOpen, Captures;
      var f, h := Last(), |m.stack|;
      LastOk(prog, frames, |m.ups|);
      AtClosure(prog, f, |m.ups|);
      ghost var ups0, cells := m.ups, m.cells;
      HeightAt(prog, frames, h);
      m.Push(Plain(0));
      ups := CaptureAll(f, fn, refs);
      m.SetLocal(h, Func(fn, ups));
      ClosureMoves(prog, frames, h, ups0, m.ups, fn, refs);
      UsableMore(prog, cells, |ups0|, |m.ups|);
      CapturesCount(prog, f, fn, refs);
      FuncUsable(prog, fn, ups, |m.ups|);
      UsablePush(prog, cells, Func(fn, ups), |m.ups|);
      assert m.cells == cells + [Func(fn, ups)];
      Lengths(m);
      frames := frames[|frames| - 1 := f.(pc := f.pc + 1)];
    }

    /** The upvalues of a closure that is about to be on top of the stack. */
    method CaptureAll(f: Frame, ghost fn: nat, refs: seq<Ref>) returns (ups: seq<nat>)
      requires m.Valid() && Captures(prog, f, fn, refs) && |m.stack| == f.bp + At(prog, f).height + 1
      requires forall i :: 0 <= i < |f.ups| ==> f.ups[i] < |m.ups|
      modifies m
      ensures m.Valid() && m.cells == old(m.cells) && m.stack == old(m.stack) && m.env == old(m.env) && old(m.cellOf) <= m.cellOf
      ensures |m.env| == |m.stack| && |m.cellOf| == |m.ups| && |old(m.ups)| <= |m.ups| && NewOpen(prog, f, old(m.ups), m.ups)
      ensures |ups| == |refs| && forall i :: 0 <= i < |refs| ==> ups[i] < |m.ups|
      ensures forall i :: 0 <= i < |refs| && refs[i].isLocal ==>
        f.bp + refs[i].index < |m.env| && m.cellOf[ups[i]] == m.env[f.bp + refs[i].index]
      ensures forall i :: 0 <= i < |refs| && !refs[i].isLocal ==> refs[i].index < |f.ups| && ups[i] == f.ups[refs[i].index]
    {
      hide Machine.Valid, At, NewOpen, Captures;
      ups := [];
      Lengths(m);
      NewOpenNone(prog, f, m.ups);
      for i := 0 to |refs|
        invariant m.Valid() && m.cells == old(m.cells) && m.stack == old(m.stack) && m.env == old(m.env) && old(m.cellOf) <= m.cellOf
        invariant |m.env| == |m.stack| && |m.cellOf| == |m.ups| && |old(m.ups)| <= |m.ups| && NewOpen(prog, f, old(m.ups), m.ups)
        invariant |ups| == i && forall j :: 0 <= j < i ==> ups[j] < |m.ups|
        invariant forall j :: 0 <= j < i && refs[j].isLocal ==>
          f.bp + refs[j].index < |m.env| && m.cellOf[ups[j]] == m.env[f.bp + refs[j].index]
        invariant forall j :: 0 <= j < i && !refs[j].isLocal ==> refs[j].index < |f.ups| && ups[j] == f.ups[refs[j].index]
      {
        CapturesOne(prog, f, fn, refs, i);
        var u;
        if refs[i].isLocal {
          ghost var was := m.ups;
          u := m.Capture(f.bp + refs[i].index);
          Lengths(m);
          NewOpenMore(prog, f, old(m.ups), was, m.ups, refs[i].index);
        } else {
          u := f.ups[refs[i].index];
        }
        ups := ups + [u];
      }
    }

    /** Enters a function; its frame starts at the callee's slot. */
    method StepEnter(argc: nat, f: Value, self: Value)
      requires Valid() && frames != [] && Ins() == Call(argc) && f.Func? && Usable(prog, f, |m.ups|) && Usable(prog, self, |m.ups|)
      requires prog[f.fn].arity == argc
      modifies `frames, m
      ensures Valid() && |m.cells| == |old(m.cells)| && m.cellOf == old(m.cellOf)
      ensures forall x :: 0 <= x < |m.cells| && m.cells[x] != old(m.cells)[x] ==> x == Callee(old(m.env), argc) && x !in old(m.cellOf)
    {
      hide Machine.Valid, OpenOk, CodeOk, Stacked, At, Calls, Usable, FramesOk, AllUsable;
      LastOk(prog, frames, |m.ups|);
      AtCall(prog, Last(), |m.ups|);
      ghost var h := |m.stack|;
      HeightAt(prog, frames, h);
      var bp: nat := |m.stack| - argc - 1;
      EnvOk(m);
      TempsAbove(prog, Last(), argc);
      OpenBelow(prog, frames, h, m.ups);
      NotCaught(m, bp);
      UsableSet(prog, m.cells, m.env[bp], self, |m.ups|);
      m.SetLocal(bp, self);
      FramesEntered(prog, frames, |m.ups|, f, bp);
      Entered(prog, frames, h, m.ups, Frame(f.fn, 0, bp, f.ups), argc);
      frames := frames[|frames| - 1 := Last().(pc := Last().pc + 1)] + [Frame(f.fn, 0, bp, f.ups)];
    }

    /** One instruction. Only an assignment changes what a variable holds, and it changes that variable alone; a variable
        whose scope has ended, or whose function has returned, keeps its contents for the closures that share it. */
    method Step(c: Choice)
      requires Valid() && !halted && Usable(prog, c.v, |m.ups|) && Usable(prog, c.self, |m.ups|)
      modifies this, m
      ensures Valid() && |old(m.cells)| <= |m.cells| && old(m.cellOf) <= m.cellOf
      ensures Changes(prog, old(Last()), old(m.env), old(m.cellOf), old(m.cells), m.cells)
    {
      hide ProgOk, Machine.Valid, OpenOk, Stacked, FramesOk, AllUsable, Usable, At, Fits;
      LastOk(prog, frames, |m.ups|);
      FitsIns(prog, Last(), |m.ups|);
      HeightAt(prog, frames, |m.stack|);
      if c.fail {
        halted := true;
        return;
      }
      match Ins()
      case Use(pops, push) => StepUse(pops, push, c.v);
      case GetLocal(i) =>
        StackUsable(m, prog);
        StepUse(0, true, m.stack[Last().bp + i]);
      case SetLocal(i) => StepSetLocal(i);
      case GetUp(u) =>
        var v := LoadUp(u);
        StepUse(0, true, v);
      case SetUp(u) => StepSetUp(u);
      case Pop => StepPop();
      case CloseUp => StepClose();
      case Jump(t) => StepJump(t);
      case JumpIfFalse(t) =>
        if c.take {
          StepJump(t);
        } else {
          StepUse(0, false, c.v);
        }
      case Branch(_) =>
        if c.take {
          StepBranch();
        } else {
          StepUse(1, false, c.v);
        }
      case Closure(fn, refs) => var ups := StepClosure(fn, refs);
      case Call(argc) => StepCall(argc, c);
      case Return => StepReturn();
    }

    /** What a variable captured by the running closure holds. */
    method LoadUp(u: nat) returns (v: Value)
      requires Valid() && frames != [] && Ins() == GetUp(u)
      ensures Usable(prog, v, |m.ups|) && u < |Last().ups| && Last().ups[u] < |m.cellOf| && m.cellOf[Last().ups[u]] < |m.cells|
      ensures v == m.cells[m.cellOf[Last().ups[u]]]
    {
      hide ProgOk, Machine.Valid, OpenOk, Stacked, FramesOk, Usable, At, Fits;
      LastOk(prog, frames, |m.ups|);
      FitsIns(prog, Last(), |m.ups|);
      CellInRange(m, Last().ups[u]);
      v := m.Load(Last().ups[u]);
    }

    /** A call of something native, of a function, or of what cannot be called. */
    method StepCall(argc: nat, c: Choice)
      requires Valid() && frames != [] && Ins() == Call(argc) && Usable(prog, c.v, |m.ups|) && Usable(prog, c.self, |m.ups|)
      modifies this, m
      ensures Valid() && old(m.cellOf) <= m.cellOf && |old(m.cells)| <= |m.cells|
      ensures forall x :: 0 <= x < |old(m.cells)| && m.cells[x] != old(m.cells)[x] ==> x == Callee(old(m.env), argc) && x !in old(m.cellOf)
    {
      hide ProgOk, Machine.Valid, OpenOk, Stacked, FramesOk, AllUsable, At, Fits;
      LastOk(prog, frames, |m.ups|);
      FitsIns(prog, Last(), |m.ups|);
      if c.native {
        StepUse(argc + 1, true, c.v);
      } else if c.v.Func? && prog[c.v.fn].arity == argc {
        StepEnter(argc, c.v, c.self);
      } else {
        halted := true;
      }
    }

    /** Leaves a function: what it captured is closed, and the caller gets the result. */
    method StepReturn()
      requires Valid() && frames != [] && Ins().Return?
      modifies `frames, `halted, m
      ensures Valid() && old(m.cells) <= m.cells && |frames| == |old(frames)| - 1 && m.cellOf == old(m.cellOf)
    {
      hide ProgOk, Machine.Valid, OpenOk, Stacked, At, FramesOk, AllUsable, Usable;
      LastOk(prog, frames, |m.ups|);
      AtReturn(prog, Last(), |m.ups|);
      ghost var h, ups := |m.stack|, m.ups;
      HeightAt(prog, frames, h);
      var result := m.stack[|m.stack| - 1];
      StackUsable(m, prog);
      var n := |frames| - 1;
      m.CloseFrom(Last().bp);
      Returned(prog, frames, h, ups, m.ups);
      FramesDropped(prog, frames, |m.ups|);
      frames := frames[..n];
      if n == 0 {
        halted := true;
        return;
      }
      UsablePush(prog, m.cells, result, |m.ups|);
      m.Push(result);
    }
  }

  /** The instruction of a frame fits what is known there. */
  lemma InsOkay(prog: seq<Code>, f: Frame, n: nat)
    requires ProgOk(prog) && FrameOk(prog, f, n)
    ensures var c := prog[f.fn];
      && |c.here| == |c.instrs| + 1 && Okay(prog, c.ups, c.here, c.caught, c.dead, f.pc, c.instrs[f.pc]) && c.caught !! c.dead
      && (!c.instrs[f.pc].Return? ==> f.pc + 1 < |c.instrs|) && (IsJump(c.instrs[f.pc]) ==> c.instrs[f.pc].t < |c.instrs|)
  {
    assert CodeOk(prog, prog[f.fn]);
  }

  /** Where a pop is: nothing is open in the slot it drops. */
  lemma PopMoves(prog: seq<Code>, frames: seq<Frame>, height: nat, ups: seq<Upvalue<Value>>)
    requires ProgOk(prog) && frames != [] && FramesOk(prog, frames, |ups|) && Stacked(prog, frames, height) && OpenOk(prog, frames, ups)
    requires var f := frames[|frames| - 1]; prog[f.fn].instrs[f.pc].Pop?
    ensures height > 0 && forall u :: 0 <= u < |ups| ==> ups[u].slot != height - 1
    ensures var n := |frames| - 1;
      var frames' := frames[n := frames[n].(pc := frames[n].pc + 1)];
      FramesOk(prog, frames', |ups|) && Stacked(prog, frames', height - 1) && OpenOk(prog, frames', ups)
  {
    var n := |frames| - 1;
    var f := frames[n];
    InsOkay(prog, f, |ups|);
    HeightAt(prog, frames, height);
    OpenBelow(prog, frames, height, ups);
    var vars := At(prog, f).vars;
    var temp := |vars| < At(prog, f).height;
    if !temp {
      DeadNotOpen(prog, frames, height, ups);
    }
    hide ProgOk, OpenOk, Stacked;
    MovesOn(prog, frames, height, ups, f.pc + 1, if temp then |vars| else |vars| - 1);
  }

  /** What the instructions that only take temporaries need. */
  lemma FitsIns(prog: seq<Code>, f: Frame, n: nat)
    requires ProgOk(prog) && FrameOk(prog, f, n)
    ensures var ins, h := prog[f.fn].instrs[f.pc], At(prog, f).height;
      && (ins.Use? ==> Fits(prog, f, ins.pops, ins.push))
      && (ins.GetLocal? ==> Fits(prog, f, 0, true) && ins.i < h)
      && (ins.SetLocal? ==> Fits(prog, f, 0, false) && ins.i < h)
      && (ins.GetUp? ==> Fits(prog, f, 0, true) && ins.u < |f.ups|)
      && (ins.SetUp? ==> Fits(prog, f, 0, false) && ins.u < |f.ups| && h > 0)
      && (ins.JumpIfFalse? ==> Fits(prog, f, 0, false))
      && (ins.Branch? ==> Fits(prog, f, 1, false))
      && (ins.Call? ==> Fits(prog, f, ins.argc + 1, true))
  {
    InsOkay(prog, f, n);
  }

  lemma PlainUsable(prog: seq<Code>, n: nat)
    ensures Usable(prog, Plain(0), n)
  {}

  lemma FuncUsable(prog: seq<Code>, fn: nat, ups: seq<nat>, n: nat)
    requires fn < |prog| && |ups| == prog[fn].ups && forall i :: 0 <= i < |ups| ==> ups[i] < n
    ensures Usable(prog, Func(fn, ups), n)
  {}

  lemma UsableMore(prog: seq<Code>, cells: seq<Value>, n: nat, n': nat)
    requires AllUsable(prog, cells, n) && n <= n'
    ensures AllUsable(prog, cells, n')
  {}

  lemma Lengths(m: Machine<Value>)
    requires m.Valid()
    ensures |m.env| == |m.stack| && |m.cellOf| == |m.ups|
  {}

  lemma CellInRange(m: Machine<Value>, u: nat)
    requires m.Valid() && u < |m.ups|
    ensures u < |m.cellOf| && m.cellOf[u] < |m.cells|
  {
    assert Shows(m.ups[u], m.cellOf[u], m.env, m.cells);
  }

  /** Behind a closure instruction there is one slot more; the variables it captures are flagged. */
  ghost predicate Captures(prog: seq<Code>, f: Frame, fn: nat, refs: seq<Ref>) {
    && f.fn < |prog| && f.pc + 1 < |prog[f.fn].instrs| && fn < |prog| && |refs| == prog[fn].ups && |f.ups| == prog[f.fn].ups
    && var h, next := At(prog, f), At(prog, f.(pc := f.pc + 1));
    && h.vars <= next.vars && next.height == h.height + 1 && |next.vars| <= next.height
    && Catches(refs, next.vars, prog[f.fn].ups, prog[f.fn].caught)
  }

  lemma AtClosure(prog: seq<Code>, f: Frame, n: nat)
    requires ProgOk(prog) && FrameOk(prog, f, n) && prog[f.fn].instrs[f.pc].Closure?
    ensures Captures(prog, f, prog[f.fn].instrs[f.pc].fn, prog[f.fn].instrs[f.pc].refs) && f.pc + 1 < |prog[f.fn].instrs|
  {
    InsOkay(prog, f, n);
  }

  lemma CapturesOne(prog: seq<Code>, f: Frame, fn: nat, refs: seq<Ref>, i: nat)
    requires Captures(prog, f, fn, refs) && i < |refs|
    ensures refs[i].isLocal ==> refs[i].index < At(prog, f).height + 1 && Catch(prog, f, refs[i].index)
    ensures !refs[i].isLocal ==> refs[i].index < |f.ups|
  {}

  lemma CapturesCount(prog: seq<Code>, f: Frame, fn: nat, refs: seq<Ref>)
    requires Captures(prog, f, fn, refs)
    ensures fn < |prog| && |refs| == prog[fn].ups
  {}

  /** The slot holds a flagged variable at the next place. */
  ghost predicate Catch(prog: seq<Code>, f: Frame, i: int) {
    var next := At(prog, f.(pc := f.pc + 1)).vars;
    f.fn < |prog| && 0 <= i < |next| && next[i] in prog[f.fn].caught
  }

  /** The upvalues opened since are at flagged variables of the frame. */
  ghost predicate NewOpen(prog: seq<Code>, f: Frame, ups: seq<Upvalue<Value>>, ups': seq<Upvalue<Value>>) {
    && |ups| <= |ups'| && (forall u :: 0 <= u < |ups| ==> ups'[u].slot == ups[u].slot)
    && (forall u :: |ups| <= u < |ups'| ==> Catch(prog, f, ups'[u].slot - f.bp))
  }

  lemma NewOpenNone(prog: seq<Code>, f: Frame, ups: seq<Upvalue<Value>>)
    ensures NewOpen(prog, f, ups, ups)
  {}

  lemma NewOpenMore(prog: seq<Code>, f: Frame, ups: seq<Upvalue<Value>>, mid: seq<Upvalue<Value>>, ups': seq<Upvalue<Value>>, i: nat)
    requires NewOpen(prog, f, ups, mid) && Catch(prog, f, i) && |mid| <= |ups'|
    requires forall u :: 0 <= u < |mid| ==> ups'[u].slot == mid[u].slot
    requires forall u :: |mid| <= u < |ups'| ==> ups'[u].slot == f.bp + i
    ensures NewOpen(prog, f, ups, ups')
  {
    hide Catch;
    forall u | |ups| <= u < |ups'|
      ensures Catch(prog, f, ups'[u].slot - f.bp)
    {
      if u < |mid| {
        assert Catch(prog, f, mid[u].slot - f.bp);
      }
    }
  }

  lemma ClosureMoves(prog: seq<Code>, frames: seq<Frame>, height: nat, ups: seq<Upvalue<Value>>, ups': seq<Upvalue<Value>>, fn: nat,
                     refs: seq<Ref>)
    requires frames != [] && FramesOk(prog, frames, |ups|) && Stacked(prog, frames, height) && OpenOk(prog, frames, ups)
    requires Captures(prog, frames[|frames| - 1], fn, refs) && NewOpen(prog, frames[|frames| - 1], ups, ups')
    ensures var n := |frames| - 1;
      var frames' := frames[n := frames[n].(pc := frames[n].pc + 1)];
      FramesOk(prog, frames', |ups'|) && Stacked(prog, frames', height + 1) && OpenOk(prog, frames', ups')
  {
    var n := |frames| - 1;
    var f := frames[n];
    var frames' := frames[n := f.(pc := f.pc + 1)];
    HeightAt(prog, frames, height);
    hide At;
    forall u | 0 <= u < |ups'| && ups'[u].slot >= 0
      ensures Owned(prog, frames', ups'[u].slot)
    {
      if u < |ups| {
        assert Owned(prog, frames, ups[u].slot);
        var k :| 0 <= k < |frames| && Owns(prog, frames, k, ups[u].slot);
        StillOwns(prog, frames, frames', k, ups[u].slot);
      } else {
        assert Catch(prog, f, ups'[u].slot - f.bp);
        assert Owns(prog, frames', n, ups'[u].slot);
      }
    }
  }

  lemma LastOk(prog: seq<Code>, frames: seq<Frame>, n: nat)
    requires FramesOk(prog, frames, n) && frames != []
    ensures FrameOk(prog, frames[|frames| - 1], n)
  {}

  lemma HeightAt(prog: seq<Code>, frames: seq<Frame>, height: nat)
    requires Stacked(prog, frames, height) && frames != []
    ensures height == frames[|frames| - 1].bp + At(prog, frames[|frames| - 1]).height
  {}

  lemma UsablePush(prog: seq<Code>, cells: seq<Value>, v: Value, n: nat)
    requires AllUsable(prog, cells, n) && Usable(prog, v, n)
    ensures AllUsable(prog, cells + [v], n)
  {}

  lemma UsableSet(prog: seq<Code>, cells: seq<Value>, i: nat, v: Value, n: nat)
    requires AllUsable(prog, cells, n) && Usable(prog, v, n)
    ensures i < |cells| ==> AllUsable(prog, cells[i := v], n)
  {}

  lemma FramesEntered(prog: seq<Code>, frames: seq<Frame>, n: nat, f: Value, bp: nat)
    requires FramesOk(prog, frames, n) && frames != [] && frames[|frames| - 1].pc + 1 < |prog[frames[|frames| - 1].fn].instrs|
    requires ProgOk(prog) && f.Func? && Usable(prog, f, n)
    ensures var k := |frames| - 1; FramesOk(prog, frames[k := frames[k].(pc := frames[k].pc + 1)] + [Frame(f.fn, 0, bp, f.ups)], n)
    ensures f.fn < |prog| && CodeOk(prog, prog[f.fn])
  {
    assert CodeOk(prog, prog[f.fn]);
  }

  /** The cell of a slot without an open upvalue is that of no upvalue. */
  lemma NotCaught(m: Machine<Value>, slot: nat)
    requires m.Valid() && slot < |m.env| && forall u :: 0 <= u < |m.ups| ==> m.ups[u].slot != slot
    ensures m.env[slot] !in m.cellOf
  {
    forall u | 0 <= u < |m.cellOf|
      ensures m.cellOf[u] != m.env[slot]
    {
      assert Shows(m.ups[u], m.cellOf[u], m.env, m.cells);
    }
  }

  lemma TempsAbove(prog: seq<Code>, f: Frame, argc: nat)
    requires Calls(prog, f, argc)
    ensures |At(prog, f).vars| + argc + 1 <= At(prog, f).height
  {}

  lemma EnvOk(m: Machine<Value>)
    requires m.Valid()
    ensures forall i :: 0 <= i < |m.env| ==> m.env[i] < |m.cells|
  {}

  lemma FramesDropped(prog: seq<Code>, frames: seq<Frame>, n: nat)
    requires FramesOk(prog, frames, n) && frames != []
    ensures FramesOk(prog, frames[..|frames| - 1], n)
  {}

  /** A captured variable was closed at the end of its scope. */
  lemma ClosedMoves(prog: seq<Code>, frames: seq<Frame>, height: nat, ups: seq<Upvalue<Value>>, ups': seq<Upvalue<Value>>)
    requires ProgOk(prog) && frames != [] && FramesOk(prog, frames, |ups|) && Stacked(prog, frames, height) && OpenOk(prog, frames, ups)
    requires var f := frames[|frames| - 1]; prog[f.fn].instrs[f.pc].CloseUp? && height > 0 && |ups'| == |ups|
    requires forall u :: 0 <= u < |ups| ==> ups'[u].slot == if ups[u].slot >= height - 1 then -1 else ups[u].slot
    ensures var n := |frames| - 1;
      var frames' := frames[n := frames[n].(pc := frames[n].pc + 1)];
      FramesOk(prog, frames', |ups|) && Stacked(prog, frames', height - 1) && OpenOk(prog, frames', ups')
  {
    var n := |frames| - 1;
    var f := frames[n];
    AtClose(prog, f, |ups|);
    HeightAt(prog, frames, height);
    OpenBelow(prog, frames, height, ups);
    FewerOpen(prog, frames, ups, ups');
    hide ProgOk, At, OpenOk, Stacked;
    MovesOn(prog, frames, height, ups', f.pc + 1, height - f.bp - 1);
  }

  lemma FewerOpen(prog: seq<Code>, frames: seq<Frame>, ups: seq<Upvalue<Value>>, ups': seq<Upvalue<Value>>)
    requires OpenOk(prog, frames, ups) && |ups'| == |ups|
    requires forall u :: 0 <= u < |ups| ==> ups'[u].slot == ups[u].slot || ups'[u].slot < 0
    ensures OpenOk(prog, frames, ups')
  {}

  lemma StackUsable(m: Machine<Value>, prog: seq<Code>)
    requires m.Valid() && AllUsable(prog, m.cells, |m.ups|)
    ensures forall i :: 0 <= i < |m.stack| ==> Usable(prog, m.stack[i], |m.ups|)
  {
    forall i | 0 <= i < |m.stack|
      ensures Usable(prog, m.stack[i], |m.ups|)
    {
      assert Usable(prog, m.cells[m.env[i]], |m.ups|);
    }
  }

  lemma AtClose(prog: seq<Code>, f: Frame, n: nat)
    requires ProgOk(prog) && FrameOk(prog, f, n) && prog[f.fn].instrs[f.pc].CloseUp?
    ensures f.pc + 1 < |prog[f.fn].instrs|
    ensures var h, next := At(prog, f), At(prog, f.(pc := f.pc + 1));
      |h.vars| == h.height && h.height > 0 && next == Here(h.vars[..h.height - 1], h.height - 1)
  {
    InsOkay(prog, f, n);
  }

  lemma AtReturn(prog: seq<Code>, f: Frame, n: nat)
    requires ProgOk(prog) && FrameOk(prog, f, n) && prog[f.fn].instrs[f.pc].Return?
    ensures At(prog, f).height > 0
  {
    InsOkay(prog, f, n);
  }

  /** Behind a call the arguments are gone and the result is in the callee's place. */
  ghost predicate Calls(prog: seq<Code>, f: Frame, argc: nat) {
    && f.fn < |prog| && f.pc + 1 < |prog[f.fn].instrs|
    && var h, next := At(prog, f), At(prog, f.(pc := f.pc + 1));
    && |h.vars| + argc + 1 <= h.height && h.vars <= next.vars && next.height == h.height - argc
  }

  lemma AtCall(prog: seq<Code>, f: Frame, n: nat)
    requires ProgOk(prog) && FrameOk(prog, f, n) && prog[f.fn].instrs[f.pc].Call?
    ensures Calls(prog, f, prog[f.fn].instrs[f.pc].argc) && At(prog, f).height >= prog[f.fn].instrs[f.pc].argc + 1
    ensures f.pc + 1 < |prog[f.fn].instrs|
  {
    InsOkay(prog, f, n);
  }

  /** A new frame on top; the caller is behind its call. */
  lemma Entered(prog: seq<Code>, frames: seq<Frame>, height: nat, ups: seq<Upvalue<Value>>, g: Frame, argc: nat)
    requires Stacked(prog, frames, height) && OpenOk(prog, frames, ups) && frames != [] && g.fn < |prog| && CodeOk(prog, prog[g.fn])
    requires Calls(prog, frames[|frames| - 1], argc) && g.pc == 0 && g.bp == height - argc - 1 && prog[g.fn].arity == argc
    ensures var n := |frames| - 1;
      var frames' := frames[n := frames[n].(pc := frames[n].pc + 1)] + [g];
      Stacked(prog, frames', height) && OpenOk(prog, frames', ups)
  {
    var n := |frames| - 1;
    var f := frames[n];
    var frames' := frames[n := f.(pc := f.pc + 1)] + [g];
    OpenBelow(prog, frames, height, ups);
    assert At(prog, g).height == argc + 1;
    hide At, CodeOk;
    forall u | 0 <= u < |ups| && ups[u].slot >= 0
      ensures Owned(prog, frames', ups[u].slot)
    {
      assert Owned(prog, frames, ups[u].slot);
      var k :| 0 <= k < |frames| && Owns(prog, frames, k, ups[u].slot);
      StillOwns(prog, frames, frames', k, ups[u].slot);
    }
  }

  lemma StillOwns(prog: seq<Code>, frames: seq<Frame>, frames': seq<Frame>, k: nat, slot: int)
    requires k < |frames| <= |frames'| && Owns(prog, frames, k, slot) && frames'[k].fn == frames[k].fn && frames'[k].bp == frames[k].bp
    requires At(prog, frames[k]).vars <= At(prog, frames'[k]).vars && (k + 1 < |frames'| ==> slot < frames'[k + 1].bp)
    ensures Owns(prog, frames', k, slot)
  {}

  /** Without the last frame, whose upvalues are closed. */
  lemma Returned(prog: seq<Code>, frames: seq<Frame>, height: nat, ups: seq<Upvalue<Value>>, ups': seq<Upvalue<Value>>)
    requires Stacked(prog, frames, height) && OpenOk(prog, frames, ups) && frames != [] && |ups'| == |ups|
    requires forall u :: 0 <= u < |ups| ==> ups'[u].slot == if ups[u].slot >= frames[|frames| - 1].bp then -1 else ups[u].slot
    ensures var n := |frames| - 1;
      && OpenOk(prog, frames[..n], ups') && (n > 0 ==> Stacked(prog, frames[..n], frames[n].bp + 1)) && (n == 0 ==> frames[n].bp == 0)
      && (n == 0 ==> Stacked(prog, frames[..n], 0))
  {
    var n := |frames| - 1;
    forall u | 0 <= u < |ups| && ups'[u].slot >= 0
      ensures Owned(prog, frames[..n], ups'[u].slot)
    {
      assert Owned(prog, frames, ups[u].slot);
      var k :| 0 <= k < |frames| && Owns(prog, frames, k, ups[u].slot);
      assert Owns(prog, frames[..n], k, ups[u].slot);
    }
  }

  /** The temporary that a call finds in the callee's place; a method gets its instance there. */
  function Callee(env: seq<nat>, argc: nat): int {
    if argc < |env| then env[|env| - argc - 1] else -1
  }

  /** How one instruction changes the cells that there were: an assignment sets the cell of its variable to the value on
      top, a call may set that of a temporary, and no other instruction changes any. */
  ghost predicate Changes(prog: seq<Code>, f: Frame, env: seq<nat>, cellOf: seq<nat>, cells: seq<Value>, cells': seq<Value>)
    requires |cells| <= |cells'|
  {
    forall x :: 0 <= x < |cells| && cells'[x] != cells[x] ==> Assigns(prog, f, env, cellOf, x)
  }

  ghost predicate Assigns(prog: seq<Code>, f: Frame, env: seq<nat>, cellOf: seq<nat>, x: nat) {
    && f.fn < |prog| && f.pc < |prog[f.fn].instrs|
    && var ins := prog[f.fn].instrs[f.pc];
    || (ins.SetLocal? && f.bp + ins.i < |env| && x == env[f.bp + ins.i])
    || (ins.SetUp? && ins.u < |f.ups| && f.ups[ins.u] < |cellOf| && x == cellOf[f.ups[ins.u]])
    || (ins.Call? && x == Callee(env, ins.argc) && x !in cellOf)
  }

  /** The next place is where the stack is with so many temporaries less and perhaps one more. */
  ghost predicate Fits(prog: seq<Code>, f: Frame, pops: nat, push: bool) {
    && f.fn < |prog| && f.pc + 1 < |prog[f.fn].instrs| && |prog[f.fn].here| == |prog[f.fn].instrs| + 1
    && |At(prog, f).vars| + pops <= At(prog, f).height
    && Onto(prog[f.fn].here[f.pc + 1], At(prog, f).vars, At(prog, f).height - pops + if push then 1 else 0)
  }

  /** Runs compiled code with any choices for n steps or until it ends or fails. */
  method Execute(p: seq<Code>, choices: nat -> Choice, n: nat) returns (vm: Vm)
    requires ProgOk(p) && |p| > 0 && p[|p| - 1].arity == 0 && p[|p| - 1].ups == 0
    ensures fresh(vm) && vm.Valid() && vm.prog == p
  {
    hide ProgOk, Vm.Valid;
    vm := new Vm(p);
    for i := 0 to n
      invariant fresh(vm) && fresh(vm.m) && vm.Valid() && vm.prog == p
    {
      if vm.halted {
        return;
      }
      var c := choices(i);
      vm.Step(c.(v := Sound(p, c.v, |vm.m.ups|), self := Sound(p, c.self, |vm.m.ups|)));
    }
  }

  /** Any program that compiles, run with any choices for n steps. */
  method Interpret(s: LoxParser.Stmt, choices: nat -> Choice, n: nat) returns (ok: bool, vm: Vm?)
    requires LoxParser.Grammar(s)
    ensures ok <==> vm != null
    ensures ok ==> fresh(vm) && vm.Valid()
  {
    var p;
    p, ok := LoxParser.Compile(s);
    vm := null;
    if ok {
      vm := Execute(p, choices, n);
    }
  }

  /** Values that do not exist are not chosen. */
  function Sound(prog: seq<Code>, v: Value, n: nat): (r: Value)
    ensures Usable(prog, r, n) && (Usable(prog, v, n) ==> r == v)
  {
    if Usable(prog, v, n) then v else Plain(0)
  }

  lemma Started(p: seq<Code>)
    requires |p| > 0 && CodeOk(p, p[|p| - 1]) && p[|p| - 1].arity == 0
    ensures p[|p| - 1].instrs != [] && Stacked(p, [Frame(|p| - 1, 0, 0, [])], 1) && OpenOk(p, [Frame(|p| - 1, 0, 0, [])], [])
  {}
}
