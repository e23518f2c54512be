/** The compiler's handling of variables, statement by statement: what it emits keeps captured and dropped variables apart. */
module LoxParser {
  import opened LoxScopes

  // ----- programs -----

  /** `Unary` and `Binary` also stand for reading and setting properties. */
  datatype Expr =
    | Literal
    | Name(x: string)
    | Assign(x: string, e: Expr)
    | Unary(a: Expr)
    | Binary(a: Expr, b: Expr)
    | And(a: Expr, b: Expr)
    | Or(a: Expr, b: Expr)
    | Invoke(f: Expr, args: Args)

  datatype Args = NoArgs | Arg(e: Expr, rest: Args)

  datatype Stmt =
    | Empty
    | Then(first: Stmt, rest: Stmt)
    | Expression(e: Expr)
    | Print(e: Expr)
    | Var(x: string, e: Expr)
    | Fun(x: string, params: seq<string>, body: Stmt)
    | Class(x: string, sup: Super, methods: Methods)
    | Block(body: Stmt)
    | If(c: Expr, t: Stmt)
    | IfElse(c: Expr, t: Stmt, f: Stmt)
    | While(c: Expr, body: Stmt)
    | For(init: Stmt, c: Expr, inc: Expr, body: Stmt)
    | Give(e: Expr)
    | GiveNone

  datatype Super = NoSuper | Super(x: string)

  datatype Methods = NoMethods | Method(init: bool, params: seq<string>, body: Stmt, rest: Methods)

  predicate Declares(s: Stmt) {
    s.Then? || s.Var? || s.Fun? || s.Class?
  }

  /** Branches and loop bodies are statements, not declarations; only a `for` may declare a variable of its own. */
  predicate Grammar(s: Stmt) {
    match s
    case Then(a, b) => Grammar(a) && Grammar(b)
    case Fun(_, _, body) => Grammar(body)
    case Class(_, _, ms) => GrammarAll(ms)
    case Block(body) => Grammar(body)
    case If(_, t) => Grammar(t) && !Declares(t)
    case IfElse(_, t, f) => Grammar(t) && Grammar(f) && !Declares(t) && !Declares(f)
    case While(_, body) => Grammar(body) && !Declares(body)
    case For(init, _, _, body) => Grammar(init) && (init.Var? || !Declares(init)) && Grammar(body) && !Declares(body)
    case _ => true
  }

  predicate GrammarAll(ms: Methods) {
    ms.Method? ==> Grammar(ms.body) && GrammarAll(ms.rest)
  }

  // ----- what a name stands for -----

  /** The last local of that name. */
  function FindLocal(ls: seq<Local>, x: string): (r: int)
    ensures -1 <= r < |ls|
  {
    if ls == [] then -1 else if ls[|ls| - 1].name == x then |ls| - 1 else FindLocal(ls[..|ls| - 1], x)
  }

  datatype Place = Nowhere | Place(level: nat, slot: nat)

  /** The variable that a name stands for in function k, outside of it: that of the innermost enclosing function that has one. */
  function Binder(cs: seq<Compiler>, k: nat, x: string): Place
    requires k < |cs|
  {
    if k == 0 then Nowhere
    else
      var i := FindLocal(cs[k - 1].locals, x);
      if i >= 0 then Place(k - 1, i) else Binder(cs, k - 1, x)
  }

  /** The variable that an upvalue of function k leads to. */
  function Origin(cs: seq<Compiler>, k: nat, u: nat): Place
    requires k < |cs|
  {
    if k == 0 || u >= |cs[k].upvalues| then Nowhere
    else
      var r := cs[k].upvalues[u];
      if r.isLocal then Place(k - 1, r.index) else Origin(cs, k - 1, r.index)
  }

  lemma {:induction false} OriginSame(cs: seq<Compiler>, ds: seq<Compiler>, k: nat, u: nat)
    requires k < |cs| == |ds| && forall j :: 0 <= j <= k ==> cs[j].upvalues == ds[j].upvalues
    ensures Origin(ds, k, u) == Origin(cs, k, u)
  {
    if k > 0 && u < |cs[k].upvalues| && !cs[k].upvalues[u].isLocal {
      OriginSame(cs, ds, k - 1, cs[k].upvalues[u].index);
    }
  }

  lemma {:induction false} LastLocal(ls: seq<Local>, n: nat, x: string)
    requires n <= |ls| && forall i :: n <= i < |ls| ==> ls[i].name != x
    ensures FindLocal(ls, x) == FindLocal(ls[..n], x)
    decreases |ls|
  {
    if n == |ls| {
      assert ls[..n] == ls;
    } else {
      LastLocal(ls[..|ls| - 1], n, x);
      assert ls[..|ls| - 1][..n] == ls[..n];
    }
  }

  method ResolveLocal(ls: seq<Local>, x: string) returns (r: int)
    ensures r == FindLocal(ls, x)
  {
    var i := |ls| - 1;
    while i >= 0
      invariant -1 <= i < |ls| && forall j :: i < j < |ls| ==> ls[j].name != x
    {
      if ls[i].name == x {
        LastLocal(ls, i + 1, x);
        assert ls[..i + 1][i] == ls[i];
        return i;
      }
      i := i - 1;
    }
    LastLocal(ls, 0, x);
    r := -1;
  }

  /** A declaration of that name in the same scope. */
  method Redeclares(ls: seq<Local>, x: string, depth: int) returns (again: bool)
    ensures again <==>
      exists i :: 0 <= i < |ls| && ls[i].name == x && forall j :: i <= j < |ls| ==> ls[j].depth == -1 || ls[j].depth >= depth
  {
    again := false;
    var i := |ls| - 1;
    while i >= 0
      invariant -1 <= i < |ls| && forall j :: i < j < |ls| ==> ls[j].depth == -1 || ls[j].depth >= depth
      invariant again <==> exists k :: i < k < |ls| && ls[k].name == x
    {
      if ls[i].depth != -1 && ls[i].depth < depth {
        return;
      }
      if ls[i].name == x {
        again := true;
      }
      i := i - 1;
    }
  }

  // ----- the parser -----

  class Parser {
    var compilers: seq<Compiler>
    var prog: seq<Code>
    var failed: bool

    ghost predicate Valid()
      reads this
    {
      |compilers| > 0 && AllOk(prog, compilers) && ProgOk(prog)
    }

    function Cur(): Compiler
      requires |compilers| > 0
      reads this
    {
      compilers[|compilers| - 1]
    }

    constructor ()
      ensures Valid() && |compilers| == 1 && Settled(Cur()) && !failed && prog == [] && compilers == [Fresh("this", false)]
    {
      compilers, prog, failed := [Fresh("this", false)], [], false;
      FreshOk([], "this", false);
    }

    /** The function being compiled changes; the ones around it do not. */
    method Replace(c: Compiler)
      requires Valid() && CompOk(prog, c) && c.upvalues == Cur().upvalues
      modifies this
      ensures Valid() && compilers == old(compilers)[|old(compilers)| - 1 := c] && prog == old(prog) && failed == old(failed)
      ensures Cur() == c && Below(old(compilers), compilers)
    {
      hide CompOk;
      compilers := compilers[|compilers| - 1 := c];
      forall k | 0 <= k < |compilers| - 1
        ensures Flagged(compilers[k], compilers[k])
      {
        FlaggedSelf(compilers[k]);
      }
    }

    method AddUpvalue(k: nat, r: Ref) returns (u: nat)
      requires Valid() && 0 < k < |compilers| && RefOk(r, compilers[k - 1])
      modifies this
      ensures Valid() && |compilers| == |old(compilers)| && prog == old(prog) && failed == old(failed)
      ensures u < |compilers[k].upvalues| && compilers[k].upvalues[u] == r && Flagged(old(compilers[k]), compilers[k])
      ensures compilers == old(compilers)[k := compilers[k]]
    {
      hide CompOk;
      var us := compilers[k].upvalues;
      FlaggedSelf(compilers[k]);
      u := 0;
      while u < |us|
        invariant u <= |us|
      {
        if us[u] == r {
          return;
        }
        u := u + 1;
      }
      AddRefOk(prog, compilers[k], r);
      ghost var was := compilers;
      compilers := compilers[k := compilers[k].(upvalues := us + [r])];
      RefsAfter(prog, was, compilers, k);
    }

    method Capture(k: nat, i: nat)
      requires Valid() && k < |compilers| && i < |compilers[k].locals|
      modifies this
      ensures Valid() && compilers == old(compilers)[k := Mark(old(compilers[k]), i)] && prog == old(prog) && failed == old(failed)
      ensures Flagged(old(compilers[k]), compilers[k]) && RefOk(Ref(i, true), compilers[k])
    {
      hide CompOk, ProgOk;
      ghost var was := compilers;
      MarkOk(prog, compilers[k], i);
      compilers := compilers[k := Mark(compilers[k], i)];
      RefsAfter(prog, was, compilers, k);
    }

    /** Resolves a name in the functions around function k. A local found there is flagged as captured. */
    method ResolveUpvalue(k: nat, x: string) returns (r: int)
      requires Valid() && k < |compilers|
      modifies this
      ensures Valid() && |compilers| == |old(compilers)| && prog == old(prog) && failed == old(failed)
      ensures forall j :: 0 <= j < |compilers| ==>
        if j <= k then Flagged(old(compilers[j]), compilers[j]) else compilers[j] == old(compilers[j])
      ensures -1 <= r < |compilers[k].upvalues|
      ensures r >= 0 <==> Binder(old(compilers), k, x) != Nowhere
      ensures r >= 0 ==> Origin(compilers, k, r) == Binder(old(compilers), k, x)
      decreases k
    {
      hide CompOk, ProgOk;
      forall j | 0 <= j < |compilers|
        ensures Flagged(compilers[j], compilers[j])
      {
        FlaggedSelf(compilers[j]);
      }
      if k == 0 {
        return -1;
      }
      var i := ResolveLocal(compilers[k - 1].locals, x);
      if i != -1 {
        Capture(k - 1, i);
        r := AddUpvalue(k, Ref(i, true));
        return;
      }
      ghost var was := compilers;
      r := ResolveUpvalue(k - 1, x);
      if r != -1 {
        ghost var mid := compilers;
        r := AddUpvalue(k, Ref(r, false));
        OriginSame(mid, compilers, k - 1, compilers[k].upvalues[r].index);
      }
    }

    // ----- emission -----

    method Emit(ins: Instr)
      requires Valid() && !IsJump(ins) && Ready(Cur(), ins)
      modifies this
      ensures Valid() && prog == old(prog) && Pushed(old(compilers), compilers, Delta(ins))
      ensures Cur() == Emitted(old(Cur()), ins, After(Top(old(Cur())), |old(Cur()).upvalues|, ins))
    {
      hide AllOkay, ProgOk, RefsOk;
      var c := Cur();
      PlainOk(prog, c, ins);
      Replace(Emitted(c, ins, After(Top(c), |c.upvalues|, ins)));
    }

    /** A return; what follows it is reached otherwise, without the value. */
    method EmitReturn()
      requires Valid() && Ready(Cur(), Return)
      modifies this
      ensures Valid() && prog == old(prog) && Pushed(old(compilers), compilers, -1)
    {
      hide AllOkay, ProgOk, RefsOk;
      var c := Cur();
      EmittedOk(prog, c, Return, Here(Top(c).vars, Top(c).height - 1));
      Replace(Emitted(c, Return, Here(Top(c).vars, Top(c).height - 1)));
    }

    /** A jump whose target comes later. */
    method EmitJump(ins: Instr) returns (at: nat)
      requires Valid() && IsJump(ins) && Ready(Cur(), ins)
      modifies this
      ensures Valid() && Below(old(compilers), compilers) && prog == old(prog) && at == |old(Cur()).code|
      ensures Cur() == Pending(old(Cur()), ins, After(Top(old(Cur())), |old(Cur()).upvalues|, ins)) && Reaches(old(Cur()), Cur())
      ensures at !in old(Cur()).open
    {
      hide AllOkay, ProgOk, RefsOk;
      var c := Cur();
      at := |c.code|;
      PendingOk(prog, c, ins);
      Replace(Pending(c, ins, After(Top(c), |c.upvalues|, ins)));
    }

    /** The jump leads to the end of the code so far. */
    method PatchJump(at: nat)
      requires Valid() && CanPatch(Cur(), at)
      modifies this
      ensures Valid() && Below(old(compilers), compilers) && prog == old(prog) && at < |old(Cur()).code| && IsJump(old(Cur()).code[at])
      ensures compilers == old(compilers)[|old(compilers)| - 1 := Patched(old(Cur()), at)]
    {
      hide AllOkay, ProgOk, RefsOk;
      var c := Cur();
      assert Okay(prog, |c.upvalues|, c.here, c.caught, c.dead, at, WithTarget(c.code[at], |c.code|));
      PatchedOk(prog, c, at);
      Replace(Patched(c, at));
    }

    /** A jump back. */
    method EmitLoop(start: nat)
      requires Valid() && Back(Cur(), start)
      modifies this
      ensures Valid() && prog == old(prog) && Pushed(old(compilers), compilers, 0)
      ensures Cur() == Emitted(old(Cur()), Jump(start), Top(old(Cur())))
    {
      hide AllOkay, ProgOk, RefsOk;
      var c := Cur();
      EmittedOk(prog, c, Jump(start), Top(c));
      Replace(Emitted(c, Jump(start), Top(c)));
    }

    // ----- names -----

    /** Looks a name up: how to read and how to assign it. */
    method Resolve(x: string) returns (get: Instr, put: Instr)
      requires Valid() && Unread(Cur())
      modifies this
      ensures Valid() && prog == old(prog) && Pushed(old(compilers), compilers, 0) && Unread(Cur())
      ensures Means(old(compilers), compilers, x, get, put) && Cur().code == old(Cur()).code
    {
      hide AllOk, ProgOk, HasNames, Flagged, Pushed, Unread, FindLocal, Binder, Origin;
      var k := |compilers| - 1;
      ghost var cs := compilers;
      var i := ResolveLocal(Cur().locals, x);
      if i != -1 {
        PushedNone(cs);
        if Cur().locals[i].depth == -1 {
          failed := true;
          return Use(0, true), Use(0, false);
        }
        return GetLocal(i), SetLocal(i);
      }
      var u := ResolveUpvalue(k, x);
      AllFlagged(cs, compilers);
      FlaggedCode(cs[k], compilers[k]);
      if u != -1 {
        return GetUp(u), SetUp(u);
      }
      return Use(0, true), Use(0, false);
    }

    method CompileName(x: string)
      requires Valid() && Unread(Cur())
      modifies this
      ensures Valid() && prog == old(prog) && Pushed(old(compilers), compilers, 1) && Unread(Cur())
      ensures Quiet(old(Cur()).code, Cur().code)
    {
      hide AllOk, ProgOk, HasNames, Pushed;
      ghost var cs := compilers;
      var get, put := Resolve(x);
      ghost var ds := compilers;
      NamesOf(prog, ds);
      MeansReady(cs, ds, x, get, put);
      Emit(get);
      PushedTwice(cs, ds, compilers, 0, 1);
      UnreadKept(ds, compilers, 1);
    }

    // ----- expressions -----

    /** An instruction after code that left n temporaries. */
    method EmitOn(ghost cs: seq<Compiler>, ghost n: int, ins: Instr)
      requires Valid() && Unread(Cur()) && Pushed(cs, compilers, n) && !IsJump(ins) && Ready(Cur(), ins)
      modifies this
      ensures Valid() && prog == old(prog) && Pushed(cs, compilers, n + Delta(ins)) && Unread(Cur())
      ensures Cur().code == old(Cur()).code + [ins]
    {
      hide AllOk, ProgOk, HasNames, Pushed, Unread, Ready;
      ghost var ds := compilers;
      Emit(ins);
      PushedTwice(cs, ds, compilers, n, Delta(ins));
      UnreadKept(ds, compilers, Delta(ins));
    }

    /** Compiles an expression: it leaves one temporary more. */
    method CompileExpr(e: Expr)
      requires Valid() && Unread(Cur())
      modifies this
      ensures Valid() && prog == old(prog) && Pushed(old(compilers), compilers, 1) && Unread(Cur())
      decreases e, 1
    {
      hide AllOk, ProgOk, HasNames, Pushed, Unread, Ready;
      ghost var cs := compilers;
      NamesOf(prog, cs);
      match e
      case Literal =>
        PushedNone(cs);
        Temps(cs, cs, 0);
        EmitOn(cs, 0, Use(0, true));
      case Name(x) => CompileName(x);
      case Assign(_, _) => CompileAssign(e);
      case Unary(a) =>
        CompileExpr(a);
        Temps(cs, compilers, 1);
        EmitOn(cs, 1, Use(1, true));
      case Binary(a, b) =>
        CompileExpr(a);
        ghost var ds := compilers;
        CompileExpr(b);
        PushedTwice(cs, ds, compilers, 1, 1);
        Temps(cs, compilers, 2);
        EmitOn(cs, 2, Use(2, true));
      case And(_, _) => CompileAnd(e);
      case Or(_, _) => CompileOr(e);
      case Invoke(f, args) =>
        CompileExpr(f);
        ghost var ds := compilers;
        var n := CompileArgs(args);
        PushedTwice(cs, ds, compilers, 1, n);
        Temps(cs, compilers, n + 1);
        EmitOn(cs, n + 1, LoxScopes.Call(n));
    }

    method CompileAssign(e: Expr)
      requires Valid() && Unread(Cur()) && e.Assign?
      modifies this
      ensures Valid() && prog == old(prog) && Pushed(old(compilers), compilers, 1) && Unread(Cur())
      decreases e, 0
    {
      hide AllOk, ProgOk, HasNames, Pushed, Unread, Ready, Means;
      ghost var cs := compilers;
      var get, put := Resolve(e.x);
      ghost var ds := compilers;
      NamesOf(prog, ds);
      CompileExpr(e.e);
      PushedTwice(cs, ds, compilers, 0, 1);
      MeansReady(cs, ds, e.x, get, put);
      MeansPut(cs, ds, e.x, get, put, compilers);
      EmitOn(cs, 1, put);
    }

    method CompileArgs(args: Args) returns (n: nat)
      requires Valid() && Unread(Cur())
      modifies this
      ensures Valid() && prog == old(prog) && Pushed(old(compilers), compilers, n) && Unread(Cur())
      decreases args, 1
    {
      hide AllOk, ProgOk, HasNames, Pushed, Unread;
      ghost var cs := compilers;
      match args
      case NoArgs =>
        PushedNone(cs);
        n := 0;
      case Arg(e, rest) =>
        CompileExpr(e);
        ghost var ds := compilers;
        n := CompileArgs(rest);
        PushedTwice(cs, ds, compilers, 1, n);
        n := n + 1;
    }

    /** `a and b`: the second operand is skipped if the first is false. */
    method CompileAnd(e: Expr)
      requires Valid() && Unread(Cur()) && e.And?
      modifies this
      ensures Valid() && prog == old(prog) && Pushed(old(compilers), compilers, 1) && Unread(Cur())
      decreases e, 0
    {
      hide AllOk, ProgOk, HasNames, Pushed, Unread, Ready, Extends, Flagged;
      ghost var cs := compilers;
      NamesOf(prog, cs);
      CompileExpr(e.a);
      ghost var c1 := compilers;
      Temps(cs, c1, 1);
      var at := EmitJump(JumpIfFalse(0));
      ghost var c2 := compilers;
      AfterJump(prog, c1, c2, JumpIfFalse(0));
      EmitOn(c2, 0, LoxScopes.Pop);
      ghost var c3 := compilers;
      CompileExpr(e.b);
      PushedTwice(c2, c3, compilers, -1, 1);
      Skipped(c1, c2, compilers, JumpIfFalse(0), at, 0);
      PatchJump(at);
      PushedTwice(cs, c1, compilers, 1, 0);
      UnreadKept(c1, compilers, 0);
    }

    /** `a or b`: the second operand is skipped if the first is true. */
    method CompileOr(e: Expr)
      requires Valid() && Unread(Cur()) && e.Or?
      modifies this
      ensures Valid() && prog == old(prog) && Pushed(old(compilers), compilers, 1) && Unread(Cur())
      decreases e, 0
    {
      hide AllOk, ProgOk, HasNames, Pushed, Unread, Ready, Extends, Flagged, CanPatch;
      ghost var cs := compilers;
      NamesOf(prog, cs);
      CompileExpr(e.a);
      ghost var c1 := compilers;
      Temps(cs, c1, 1);
      var other := EmitJump(JumpIfFalse(0));
      ghost var c2 := compilers;
      NamesOf(prog, c2);
      AfterJump(prog, c1, c2, JumpIfFalse(0));
      Temps(c2, c2, 0);
      var end := EmitJump(Jump(0));
      ghost var c3 := compilers;
      TwoJumps(c1, c2, c2, c3, JumpIfFalse(0));
      PatchJump(other);
      ghost var c4 := compilers;
      AfterPatch(c2, c4);
      EmitOn(c4, 0, LoxScopes.Pop);
      ghost var c5 := compilers;
      CompileExpr(e.b);
      PushedTwice(c4, c5, compilers, -1, 1);
      BelowTwice(c1, c3, c4);
      SkippedSecond(c1, c4, compilers, end, 0);
      PatchJump(end);
      PushedTwice(cs, c1, compilers, 1, 0);
      UnreadKept(c1, compilers, 0);
    }

    // ----- scopes -----

    method BeginScope()
      requires Valid()
      modifies this
      ensures Valid() && prog == old(prog) && Below(old(compilers), compilers)
      ensures compilers == old(compilers)[|old(compilers)| - 1 := old(Cur()).(depth := old(Cur()).depth + 1)]
    {
      hide AllOkay, ProgOk, RefsOk;
      var c := Cur();
      Replace(c.(depth := c.depth + 1));
    }

    /** Leaves a scope: each of its locals is closed if a closure captured it and popped otherwise, the last one first. */
    method EndScope(ghost keep: nat)
      requires Valid() && Settled(Cur()) && Cur().depth > 0 && keep <= |Cur().locals|
      requires forall i :: 0 <= i < |Cur().locals| ==> (Cur().locals[i].depth < Cur().depth <==> i < keep)
      modifies this
      ensures Valid() && prog == old(prog) && Below(old(compilers), compilers) && Settled(Cur())
      ensures Left(old(Cur()), Cur(), keep)
    {
      hide AllOkay, ProgOk, RefsOk, CompOk, Below;
      var depth := Cur().depth - 1;
      ghost var cs := compilers;
      BelowSelf(cs);
      while |Cur().locals| > 0 && Cur().locals[|Cur().locals| - 1].depth > depth
        invariant Valid() && prog == old(prog) && Below(cs, compilers) && Settled(Cur())
        invariant keep <= |Cur().locals| <= |old(Cur()).locals| && LeftSoFar(old(Cur()), Cur())
        decreases |Cur().locals|
      {
        var c := Cur();
        NamesOf(prog, compilers);
        DroppedOk(prog, c);
        ghost var ds := compilers;
        LeftOne(old(Cur()), c);
        Replace(Dropped(c));
        BelowTwice(cs, ds, compilers);
      }
      var c := Cur();
      NamesOf(prog, compilers);
      ShallowOk(prog, c, depth);
      ghost var ds := compilers;
      Replace(c.(depth := depth));
      BelowTwice(cs, ds, compilers);
    }

    // ----- declarations -----

    /** A new local of the scope; it is not initialised until `depth` says so. */
    method Declare(x: string, depth: int)
      requires Valid() && Level(Cur()) && depth <= Cur().depth
      modifies this
      ensures Valid() && prog == old(prog) && Below(old(compilers), compilers)
      ensures compilers == old(compilers)[|old(compilers)| - 1 := Declared(old(Cur()), x, depth)]
    {
      hide AllOkay, ProgOk, RefsOk;
      var c := Cur();
      var again := Redeclares(c.locals, x, c.depth);
      if again {
        failed := true;
      }
      DeclaredOk(prog, c, x, depth);
      Replace(Declared(c, x, depth));
    }

    /** The value on top of the stack becomes the local being declared. */
    method Define()
      requires Valid() && Definable(Cur())
      modifies this
      ensures Valid() && prog == old(prog) && Below(old(compilers), compilers)
      ensures compilers == old(compilers)[|old(compilers)| - 1 := Defined(old(Cur()))]
    {
      hide AllOkay, ProgOk, RefsOk;
      var c := Cur();
      DefinedOk(prog, c);
      Replace(Defined(c));
    }

    method CompileVar(x: string, e: Expr)
      requires Valid() && Settled(Cur())
      modifies this
      ensures Valid() && prog == old(prog) && Grown(old(compilers), compilers) && Settled(Cur())
    {
      hide AllOk, ProgOk, HasNames, Pushed, Ready, Extends, Flagged, Below;
      ghost var cs := compilers;
      NamesOf(prog, cs);
      if Cur().depth == 0 {
        CompileExpr(e);
        Temps(cs, compilers, 1);
        EmitOn(cs, 1, Use(1, false));
        SettledKept(cs, compilers);
        return;
      }
      Declare(x, -1);
      ghost var ds := compilers;
      CompileExpr(e);
      ghost var es := compilers;
      Bound(cs, ds, es, x);
      Define();
    }

    // ----- functions -----

    /** A new function: the callee's slot, then the parameters. */
    method OpenFunction(x: string, init: bool, params: seq<string>)
      requires Valid()
      modifies this
      ensures Valid() && prog == old(prog) && |compilers| == |old(compilers)| + 1 && compilers[..|old(compilers)|] == old(compilers)
      ensures Settled(Cur()) && Cur().open == {} && |Cur().locals| > 0
    {
      hide CompOk, Settled, ProgOk;
      var c := Fresh(x, init);
      FreshOk(prog, x, init);
      DeeperOk(prog, c);
      c := c.(depth := 1);
      for i := 0 to |params|
        invariant CompOk(prog, c) && Settled(c) && c.code == [] && c.open == {} && c.upvalues == [] && |c.locals| > 0 && |c.here| == 1
        invariant prog == old(prog) && compilers == old(compilers)
      {
        var again := Redeclares(c.locals, params[i], c.depth);
        if again {
          failed := true;
        }
        ParamOk(prog, c, params[i]);
        c := WithParam(c, params[i]);
      }
      compilers := compilers + [c];
    }

    /** The function is finished; the enclosing one gets the instruction that makes its closure. */
    method CloseFunction()
      requires Valid() && |compilers| > 1 && Settled(Cur()) && Cur().open == {} && |Cur().locals| > 0
      requires Fills(compilers[|compilers| - 2])
      modifies this
      ensures Valid() && old(prog) <= prog && |compilers| == |old(compilers)| - 1
      ensures var n := |compilers| - 1; compilers == old(compilers)[..n] + [Closed(old(compilers[n]), |old(prog)|, old(Cur()).upvalues)]
      ensures Extends(old(compilers[|compilers| - 2]), Cur())
    {
      hide CompOk, CodeOk, RefOk, Finished, Extends;
      var inner := Cur();
      NamesOf(prog, compilers);
      FinishedOk(prog, inner);
      var n := |compilers| - 1;
      AddCode(inner);
      compilers := compilers[..n];
      var c := Cur();
      ClosedOk(prog, c, |prog| - 1, inner);
      Replace(Closed(c, |prog| - 1, inner.upvalues));
    }

    method AddCode(c: Compiler)
      requires Valid() && |c.here| == |c.code| + 1 && CodeOk(prog, Finished(c))
      modifies `prog
      ensures Valid() && prog == old(prog) + [Finished(c)] && Finished(c).ups == |c.upvalues|
    {
      hide CompOk, CodeOk, RefsOk;
      ghost var p := prog;
      prog := prog + [Finished(c)];
      forall f | 0 <= f < |prog|
        ensures CodeOk(prog, prog[f])
      {
        CodeMore(p, prog[f], prog);
      }
      forall k | 0 <= k < |compilers|
        ensures CompOk(prog, compilers[k])
      {
        ProgMore(p, compilers[k], prog);
      }
    }

    method CompileFunction(x: string, init: bool, params: seq<string>, body: Stmt)
      requires Valid() && Grammar(body) && Fills(Cur())
      modifies this
      ensures Valid() && old(prog) <= prog && Grown(old(compilers), compilers) && |Cur().locals| == |old(Cur()).locals|
      ensures |Cur().here| == |Cur().code| + 1 && Top(Cur()) == Here(Ids(old(Cur()).locals), Top(old(Cur())).height + 1)
      ensures Quiet(old(Cur()).code, Cur().code)
      ensures |Cur().code| == |old(Cur()).code| + 1 && Cur().code[|old(Cur()).code|].Closure?
      decreases body, 2
    {
      hide AllOk, ProgOk, HasNames, Extends, Flagged, Settled, Fills;
      ghost var cs := compilers;
      OpenFunction(x, init, params);
      ghost var ds := compilers;
      CompileStmt(body);
      ghost var es := compilers;
      Inside(cs, ds, es);
      CloseFunction();
      Outside(cs, es, compilers);
      QuietOne(cs[|cs| - 1].code, Cur().code[|Cur().code| - 1]);
    }

    method CompileStmt(s: Stmt)
      requires Valid() && Grammar(s) && Settled(Cur())
      modifies this
      ensures Valid() && old(prog) <= prog && Grown(old(compilers), compilers) && Settled(Cur())
      ensures !Declares(s) ==> Pushed(old(compilers), compilers, 0)
      decreases s, 1
    {
      hide AllOk, ProgOk, HasNames, Pushed, Ready, Extends, Flagged, Settled, Unread;
      ghost var cs := compilers;
      NamesOf(prog, cs);
      GrownSelf(cs);
      SettledFacts(Cur());
      match s
      case Empty =>
      case Then(a, b) =>
        CompileStmt(a);
        ghost var ds := compilers;
        CompileStmt(b);
        GrownTwice(cs, ds, compilers);
      case Expression(e) =>
        CompileExpr(e);
        Temps(cs, compilers, 1);
        EmitOn(cs, 1, LoxScopes.Pop);
        SettledKept(cs, compilers);
      case Print(e) =>
        CompileExpr(e);
        Temps(cs, compilers, 1);
        EmitOn(cs, 1, Use(1, false));
        SettledKept(cs, compilers);
      case Var(x, e) => CompileVar(x, e);
      case Fun(_, _, _) => CompileFun(s);
      case Class(_, _, _) => CompileClass(s);
      case Block(_) => CompileBlock(s);
      case If(_, _) => CompileIf(s);
      case IfElse(_, _, _) => CompileIfElse(s);
      case While(_, _) => CompileWhile(s);
      case For(_, _, _, _) => CompileFor(s);
      case Give(e) =>
        CompileExpr(e);
        Temps(cs, compilers, 1);
        ghost var ds := compilers;
        EmitReturn();
        PushedTwice(cs, ds, compilers, 1, -1);
        SettledKept(cs, compilers);
      case GiveNone =>
        Temps(cs, cs, 0);
        if Cur().init && |Cur().locals| > 0 {
          SlotZero(Cur());
          EmitOn(cs, 0, GetLocal(0));
        } else {
          EmitOn(cs, 0, Use(0, true));
        }
        Temps(cs, compilers, 1);
        ghost var ds := compilers;
        EmitReturn();
        PushedTwice(cs, ds, compilers, 1, -1);
        SettledKept(cs, compilers);
    }

    /** A function declaration: its variable can be used in its own body. */
    method CompileFun(s: Stmt)
      requires Valid() && Grammar(s) && Settled(Cur()) && s.Fun?
      modifies this
      ensures Valid() && old(prog) <= prog && Grown(old(compilers), compilers) && Settled(Cur())
      decreases s, 0
    {
      hide AllOk, ProgOk, HasNames, Ready, Extends, Flagged, Unread;
      ghost var cs := compilers;
      NamesOf(prog, cs);
      SettledFacts(Cur());
      if Cur().depth == 0 {
        CompileFunction("", false, s.params, s.body);
        FunctionPushed(cs, compilers);
        Temps(cs, compilers, 1);
        EmitOn(cs, 1, Use(1, false));
        SettledKept(cs, compilers);
        return;
      }
      Declare(s.x, Cur().depth);
      ghost var ds := compilers;
      NamesOf(prog, ds);
      CompileFunction("", false, s.params, s.body);
      FunctionBound(cs, ds, compilers, s.x);
    }

    /** A statement that may be skipped. */
    method CompileIf(s: Stmt)
      requires Valid() && Grammar(s) && Settled(Cur()) && s.If?
      modifies this
      ensures Valid() && old(prog) <= prog && Pushed(old(compilers), compilers, 0) && Settled(Cur()) && Grown(old(compilers), compilers)
      decreases s, 0
    {
      hide AllOk, ProgOk, HasNames, Pushed, Ready, Extends, Flagged, Settled, Unread, CanPatch;
      ghost var cs := compilers;
      NamesOf(prog, cs);
      SettledFacts(Cur());
      CompileExpr(s.c);
      ghost var c1 := compilers;
      Temps(cs, c1, 1);
      var at := EmitJump(Branch(0));
      ghost var c2 := compilers;
      SettledBranch(cs, c1, c2);
      CompileStmt(s.t);
      Skipped(c1, c2, compilers, Branch(0), at, 0);
      PatchJump(at);
      PushedTwice(cs, c1, compilers, 1, -1);
      SettledKept(cs, compilers);
    }

    method CompileIfElse(s: Stmt)
      requires Valid() && Grammar(s) && Settled(Cur()) && s.IfElse?
      modifies this
      ensures Valid() && old(prog) <= prog && Pushed(old(compilers), compilers, 0) && Settled(Cur()) && Grown(old(compilers), compilers)
      decreases s, 0
    {
      hide AllOk, ProgOk, HasNames, Pushed, Ready, Extends, Flagged, Settled, Unread, CanPatch;
      ghost var cs := compilers;
      NamesOf(prog, cs);
      SettledFacts(Cur());
      CompileExpr(s.c);
      ghost var c1 := compilers;
      Temps(cs, c1, 1);
      var other := EmitJump(Branch(0));
      ghost var c2 := compilers;
      SettledBranch(cs, c1, c2);
      CompileStmt(s.t);
      ghost var c3 := compilers;
      SettledFacts(Cur());
      var end := EmitJump(Jump(0));
      ghost var c4 := compilers;
      TwoJumps(c1, c2, c3, c4, Branch(0));
      PatchJump(other);
      ghost var c5 := compilers;
      SettledPatch(c1, c2, c5);
      CompileStmt(s.f);
      BelowTwice(c1, c4, c5);
      SkippedSecond(c1, c5, compilers, end, -1);
      PatchJump(end);
      PushedTwice(cs, c1, compilers, 1, -1);
      SettledKept(cs, compilers);
    }

    method CompileWhile(s: Stmt)
      requires Valid() && Grammar(s) && Settled(Cur()) && s.While?
      modifies this
      ensures Valid() && old(prog) <= prog && Pushed(old(compilers), compilers, 0) && Settled(Cur()) && Grown(old(compilers), compilers)
      decreases s, 0
    {
      hide AllOk, ProgOk, HasNames, Pushed, Ready, Extends, Flagged, Settled, Unread, CanPatch;
      ghost var cs := compilers;
      NamesOf(prog, cs);
      SettledFacts(Cur());
      var start := |Cur().code|;
      CompileExpr(s.c);
      ghost var c1 := compilers;
      Temps(cs, c1, 1);
      var at := EmitJump(Branch(0));
      ghost var c2 := compilers;
      SettledBranch(cs, c1, c2);
      CompileStmt(s.body);
      ghost var c3 := compilers;
      BackAt(cs, c1, c2);
      BackInto(c2, c3, start);
      EmitLoop(start);
      PushedTwice(c2, c3, compilers, 0, 0);
      Skipped(c1, c2, compilers, Branch(0), at, 0);
      PatchJump(at);
      PushedTwice(cs, c1, compilers, 1, -1);
      SettledKept(cs, compilers);
    }

    method CompileBlock(s: Stmt)
      requires Valid() && Grammar(s) && Settled(Cur()) && s.Block?
      modifies this
      ensures Valid() && old(prog) <= prog && Pushed(old(compilers), compilers, 0) && Settled(Cur()) && Grown(old(compilers), compilers)
      decreases s, 0
    {
      hide AllOk, ProgOk, HasNames, Pushed, Ready, Extends, Flagged, Settled, Unread;
      ghost var cs := compilers;
      NamesOf(prog, cs);
      BeginScope();
      ghost var ds := compilers;
      SettledDeeper(cs, ds);
      CompileStmt(s.body);
      ghost var es := compilers;
      ScopeDepths(cs, ds, es);
      EndScope(|cs[|cs| - 1].locals|);
      ScopeLeft(cs, ds, es, compilers);
      SettledKept(cs, compilers);
    }

    /** `for`: a scope with the initialiser, the condition, the step before the body, and the body. */
    method CompileFor(s: Stmt)
      requires Valid() && Grammar(s) && Settled(Cur()) && s.For?
      modifies this
      ensures Valid() && old(prog) <= prog && Pushed(old(compilers), compilers, 0) && Settled(Cur()) && Grown(old(compilers), compilers)
      decreases s, 0
    {
      hide AllOk, ProgOk, HasNames, Pushed, Ready, Extends, Flagged, Settled, Unread;
      ghost var cs := compilers;
      NamesOf(prog, cs);
      BeginScope();
      ghost var ds := compilers;
      SettledDeeper(cs, ds);
      CompileStmt(s.init);
      ghost var ms := compilers;
      CompileLoop(s);
      GrownTwice(ds, ms, compilers);
      ghost var es := compilers;
      ScopeDepths(cs, ds, es);
      EndScope(|cs[|cs| - 1].locals|);
      ScopeLeft(cs, ds, es, compilers);
      SettledKept(cs, compilers);
    }

    method CompileLoop(s: Stmt)
      requires Valid() && Grammar(s) && Settled(Cur()) && s.For?
      modifies this
      ensures Valid() && old(prog) <= prog && Pushed(old(compilers), compilers, 0) && Settled(Cur()) && Grown(old(compilers), compilers)
      decreases s, -1
    {
      hide AllOk, ProgOk, HasNames, Pushed, Ready, Extends, Flagged, Settled, Unread, CanPatch;
      ghost var cs := compilers;
      NamesOf(prog, cs);
      SettledFacts(Cur());
      var start := |Cur().code|;
      CompileExpr(s.c);
      ghost var c1 := compilers;
      Temps(cs, c1, 1);
      var exit := EmitJump(Branch(0));
      ghost var c2 := compilers;
      SettledBranch(cs, c1, c2);
      BackAt(cs, c1, c2);
      var step := CompileStep(s.inc, start);
      ghost var c6 := compilers;
      CompileStmt(s.body);
      ghost var c7 := compilers;
      BackInto(c6, c7, step);
      EmitLoop(step);
      PushedTwice(c6, c7, compilers, 0, 0);
      PushedTwice(c2, c6, compilers, 0, 0);
      Skipped(c1, c2, compilers, Branch(0), exit, 0);
      PatchJump(exit);
      PushedTwice(cs, c1, compilers, 1, -1);
      SettledKept(cs, compilers);
    }

    /** The step of a `for`, before the body: a jump leads around it, and it ends with a jump back to the condition. */
    method CompileStep(e: Expr, start: nat) returns (step: nat)
      requires Valid() && Settled(Cur()) && Back(Cur(), start)
      modifies this
      ensures Valid() && prog == old(prog) && Pushed(old(compilers), compilers, 0) && Settled(Cur()) && Back(Cur(), step)
    {
      hide AllOk, ProgOk, HasNames, Pushed, Ready, Extends, Flagged, Settled, Unread, CanPatch, Back;
      ghost var c2 := compilers;
      SettledFacts(Cur());
      var at := EmitJump(Jump(0));
      ghost var c3 := compilers;
      NamesOf(prog, c3);
      step := |Cur().code|;
      SettledJump(c2, c3, start);
      CompileExpr(e);
      Temps(c3, compilers, 1);
      EmitOn(c3, 1, LoxScopes.Pop);
      ghost var c4 := compilers;
      BackInto(c3, c4, start);
      BackInto(c3, c4, step);
      EmitLoop(start);
      PushedTwice(c3, c4, compilers, 0, 0);
      ghost var c5 := compilers;
      BackInto(c3, c5, step);
      Skipped(c2, c3, c5, Jump(0), at, 0);
      PatchJump(at);
      BackPatched(c5[|c5| - 1], at, step);
      SettledKept(c2, compilers);
    }

    method CompileMethods(ms: Methods)
      requires Valid() && GrammarAll(ms) && Unread(Cur()) && Level(Cur())
      modifies this
      ensures Valid() && old(prog) <= prog && Pushed(old(compilers), compilers, 0) && Unread(Cur()) && Level(Cur())
      ensures Quiet(old(Cur()).code, Cur().code)
      decreases ms, 1
    {
      hide AllOk, ProgOk, HasNames, Pushed, Ready, Extends, Flagged;
      ghost var cs := compilers;
      NamesOf(prog, cs);
      PushedNone(cs);
      if ms.Method? {
        CompileFunction("this", ms.init, ms.params, ms.body);
        FunctionPushed(cs, compilers);
        Temps(cs, compilers, 1);
        ghost var code := Cur().code;
        EmitOn(cs, 1, Use(1, false));
        QuietOne(code, Use(1, false));
        QuietTwice(cs[|cs| - 1].code, code, Cur().code);
        LevelKept(cs, compilers, 0);
        ghost var ds := compilers;
        CompileMethods(ms.rest);
        PushedTwice(cs, ds, compilers, 0, 0);
        QuietTwice(cs[|cs| - 1].code, ds[|ds| - 1].code, Cur().code);
      }
    }

    /** The class on top of the stack while its methods are added. */
    method CompileBody(x: string, ms: Methods)
      requires Valid() && GrammarAll(ms) && Settled(Cur())
      modifies this
      ensures Valid() && old(prog) <= prog && Pushed(old(compilers), compilers, 0) && Settled(Cur())
      ensures Quiet(old(Cur()).code, Cur().code)
      decreases ms, 2
    {
      hide AllOk, ProgOk, HasNames, Pushed, Ready, Extends, Flagged, Unread, Level, Settled;
      ghost var cs := compilers;
      NamesOf(prog, cs);
      SettledFacts(Cur());
      CompileName(x);
      ghost var ds := compilers;
      LevelKept(cs, ds, 1);
      CompileMethods(ms);
      PushedTwice(cs, ds, compilers, 1, 0);
      QuietTwice(cs[|cs| - 1].code, ds[|ds| - 1].code, Cur().code);
      Temps(cs, compilers, 1);
      ghost var code := Cur().code;
      EmitOn(cs, 1, LoxScopes.Pop);
      QuietOne(code, LoxScopes.Pop);
      QuietTwice(cs[|cs| - 1].code, code, Cur().code);
      SettledKept(cs, compilers);
    }

    /** The class itself, as a local or a global. */
    method NewClass(x: string)
      requires Valid() && Settled(Cur())
      modifies this
      ensures Valid() && prog == old(prog) && Grown(old(compilers), compilers) && Settled(Cur())
      ensures Quiet(old(Cur()).code, Cur().code)
    {
      hide AllOk, ProgOk, HasNames, Pushed, Ready, Extends, Flagged, Below, Settled, Unread;
      ghost var cs := compilers;
      NamesOf(prog, cs);
      SettledFacts(Cur());
      GrownSelf(cs);
      if Cur().depth == 0 {
        Temps(cs, cs, 0);
        EmitOn(cs, 0, Use(0, true));
        Temps(cs, compilers, 1);
        EmitOn(cs, 1, Use(1, false));
        SettledKept(cs, compilers);
        return;
      }
      Declare(x, -1);
      ghost var ds := compilers;
      NamesOf(prog, ds);
      DeclaredUnread(cs, ds, x);
      Temps(ds, ds, 0);
      EmitOn(ds, 0, Use(0, true));
      ghost var es := compilers;
      Bound(cs, ds, es, x);
      Define();
    }

    method CompileClass(s: Stmt)
      requires Valid() && Grammar(s) && Settled(Cur()) && s.Class?
      modifies this
      ensures Valid() && old(prog) <= prog && Grown(old(compilers), compilers) && Settled(Cur())
      ensures Quiet(old(Cur()).code, Cur().code)
      decreases s, 0
    {
      hide AllOk, ProgOk, HasNames, Pushed, Ready, Extends, Flagged, Unread, Level, Settled;
      ghost var cs := compilers;
      NewClass(s.x);
      ghost var ds := compilers;
      if s.sup.NoSuper? {
        CompileBody(s.x, s.methods);
      } else {
        CompileSubclass(s.x, s.sup.x, s.methods);
      }
      SettledGrown(ds, compilers);
      GrownTwice(cs, ds, compilers);
      QuietTwice(cs[|cs| - 1].code, ds[|ds| - 1].code, Cur().code);
    }

    /** The superclass becomes a local of a scope around the methods. */
    method DeclareSuper(y: string) returns (ghost c1: seq<Compiler>)
      requires Valid() && Settled(Cur())
      modifies this
      ensures Valid() && prog == old(prog) && Settled(Cur()) && |old(compilers)| == |c1| == |compilers|
      ensures Pushed(old(compilers), c1, 1) && Below(c1, compilers) && Subclass(c1[|c1| - 1], Cur()) && HasNames(c1[|c1| - 1])
      ensures Quiet(old(Cur()).code, Cur().code)
    {
      hide AllOk, ProgOk, HasNames, Pushed, Ready, Extends, Flagged, Unread, Level, Settled, Definable;
      ghost var cs := compilers;
      SettledFacts(Cur());
      CompileName(y);
      c1 := compilers;
      NamesOf(prog, c1);
      LevelKept(cs, c1, 1);
      BeginScope();
      ghost var c2 := compilers;
      LevelDeeper(c1, c2);
      Declare("super", -1);
      ghost var c3 := compilers;
      SuperBound(cs, c1, c2, c3);
      Define();
      BelowTwice(c1, c2, c3);
      BelowTwice(c1, c3, compilers);
    }

    /** The class inherits from the superclass below it. */
    method Inherit(x: string)
      requires Valid() && Settled(Cur())
      modifies this
      ensures Valid() && prog == old(prog) && Settled(Cur()) && Pushed(old(compilers), compilers, 0)
      ensures Quiet(old(Cur()).code, Cur().code)
    {
      hide AllOk, ProgOk, HasNames, Pushed, Ready, Extends, Flagged, Unread, Level, Settled;
      ghost var cs := compilers;
      NamesOf(prog, cs);
      SettledFacts(Cur());
      CompileName(x);
      Temps(cs, compilers, 1);
      ghost var code := Cur().code;
      EmitOn(cs, 1, Use(1, false));
      QuietOne(code, Use(1, false));
      QuietTwice(cs[|cs| - 1].code, code, Cur().code);
      SettledKept(cs, compilers);
    }

    method CompileSubclass(x: string, y: string, ms: Methods)
      requires Valid() && GrammarAll(ms) && Settled(Cur())
      modifies this
      ensures Valid() && old(prog) <= prog && Pushed(old(compilers), compilers, 0) && Settled(Cur())
      ensures Quiet(old(Cur()).code, Cur().code)
      decreases ms, 3
    {
      hide AllOk, ProgOk, HasNames, Pushed, Ready, Extends, Flagged, Settled, Subclass, Left;
      ghost var cs := compilers;
      if x == y {
        failed := true;
      }
      ghost var c1 := DeclareSuper(y);
      ghost var c4 := compilers;
      Inherit(x);
      ghost var c5 := compilers;
      CompileBody(x, ms);
      PushedTwice(c4, c5, compilers, 0, 0);
      ghost var c6 := compilers;
      SettledGrown(c4, c6);
      QuietTwice(c4[|c4| - 1].code, c5[|c5| - 1].code, c6[|c6| - 1].code);
      QuietTwice(cs[|cs| - 1].code, c4[|c4| - 1].code, c6[|c6| - 1].code);
      SuperDepths(cs, c1, c4, c6);
      EndScope(|cs[|cs| - 1].locals|);
      SuperLeft(cs, c1, c4, c6, compilers);
      LeftCode(c6[|c6| - 1], Cur(), |cs[|cs| - 1].locals|);
      QuietTwice(cs[|cs| - 1].code, c6[|c6| - 1].code, Cur().code);
    }
  }

  /** Every local has its slot. */
  ghost predicate Level(c: Compiler) {
    |c.here| == |c.code| + 1 && |c.locals| == |Top(c).vars|
  }

  /** The value on top can be the local being declared. */
  ghost predicate Definable(c: Compiler) {
    |c.here| == |c.code| + 1 && |c.locals| == |Top(c).vars| + 1 == Top(c).height && |c.code| > 0
  }

  /** A closure pushed now is a temporary, or the slot of the function being declared. */
  ghost predicate Fills(c: Compiler) {
    |c.here| == |c.code| + 1 && (|c.locals| == |Top(c).vars| || |Top(c).vars| == Top(c).height)
  }

  lemma SettledKept(cs: seq<Compiler>, ds: seq<Compiler>)
    requires Pushed(cs, ds, 0) && Settled(cs[|cs| - 1])
    ensures |ds| == |cs| && Settled(ds[|ds| - 1]) && Grown(cs, ds)
  {
    var c, d := cs[|cs| - 1], ds[|cs| - 1];
    assert d.locals[..|c.locals|] == d.locals;
    assert Ids(d.locals) == Ids(c.locals);
  }

  lemma DeclaredUnread(cs: seq<Compiler>, ds: seq<Compiler>, x: string)
    requires |cs| > 0 && Settled(cs[|cs| - 1]) && ds == cs[|cs| - 1 := Declared(cs[|cs| - 1], x, -1)]
    ensures Unread(ds[|ds| - 1]) && Pushed(ds, ds, 0)
  {
    PushedNone(ds);
  }

  /** A local that was declared and is about to be defined. */
  lemma Bound(cs: seq<Compiler>, ds: seq<Compiler>, es: seq<Compiler>, x: string)
    requires |cs| > 0 && Settled(cs[|cs| - 1]) && ds == cs[|cs| - 1 := Declared(cs[|cs| - 1], x, -1)] && Pushed(ds, es, 1)
    ensures Definable(es[|es| - 1])
    ensures var fs := es[|es| - 1 := Defined(es[|es| - 1])]; Grown(cs, fs) && Settled(fs[|fs| - 1])
  {
    hide Flagged;
    var c, d, e := cs[|cs| - 1], ds[|cs| - 1], es[|cs| - 1];
    var f := Defined(e);
    BelowSelf(cs);
    assert e.locals[..|d.locals|] == e.locals;
    assert Ids(f.locals) == Ids(e.locals);
    forall i | 0 <= i < |c.locals|
      ensures f.locals[..|c.locals|][i] == e.locals[i] && d.locals[i] == c.locals[i]
    {}
  }

  lemma DeeperOk(prog: seq<Code>, c: Compiler)
    requires CompOk(prog, c) && Settled(c)
    ensures var d := c.(depth := c.depth + 1); CompOk(prog, d) && Settled(d)
  {
    hide AllOkay;
  }

  lemma CodeMore(prog: seq<Code>, c: Code, prog': seq<Code>)
    requires CodeOk(prog, c) && prog <= prog'
    ensures CodeOk(prog', c)
  {
    hide Okay;
    forall pc | 0 <= pc < |c.instrs|
      ensures Okay(prog', c.ups, c.here, c.caught, c.dead, pc, c.instrs[pc])
    {
      OkayMore(prog, c.ups, c.here, c.caught, c.dead, pc, c.instrs[pc], prog', c.ups, c.here, c.caught, c.dead);
    }
  }

  /** While an inner function is compiled, the enclosing ones are only flagged. */
  lemma Inside(cs: seq<Compiler>, ds: seq<Compiler>, es: seq<Compiler>)
    requires |cs| > 0 && |ds| == |cs| + 1 && ds[..|cs|] == cs && Grown(ds, es) && Fills(cs[|cs| - 1])
    requires ds[|cs|].open == {} && |ds[|cs|].locals| > 0
    ensures |es| == |cs| + 1 && (forall k :: 0 <= k < |cs| ==> Flagged(cs[k], es[k])) && Fills(es[|cs| - 1])
    ensures es[|cs|].open == {} && |es[|cs|].locals| > 0
    ensures var c, e := cs[|cs| - 1], es[|cs| - 1];
      Ids(e.locals) == Ids(c.locals) && e.here == c.here && e.code == c.code && |c.here| == |c.code| + 1
  {
    forall k | 0 <= k < |cs|
      ensures Flagged(cs[k], es[k])
    {
      assert ds[k] == cs[k];
    }
  }

  lemma Outside(cs: seq<Compiler>, es: seq<Compiler>, fs: seq<Compiler>)
    requires |cs| > 0 && |es| == |cs| + 1 && |fs| == |cs| && (forall k :: 0 <= k < |cs| ==> Flagged(cs[k], es[k]))
    requires fs[..|cs| - 1] == es[..|cs| - 1] && Extends(es[|cs| - 1], fs[|cs| - 1])
    ensures Grown(cs, fs)
  {
    var n := |cs| - 1;
    forall k | 0 <= k < n
      ensures Flagged(cs[k], fs[k])
    {
      assert fs[..n][k] == es[..n][k];
    }
    assert es[n].locals[..|cs[n].locals|] == es[n].locals;
    ExtendsTwice(cs[n], es[n], fs[n]);
  }

  lemma SettledGrown(cs: seq<Compiler>, ds: seq<Compiler>)
    requires Pushed(cs, ds, 0)
    ensures Grown(cs, ds)
  {}

  lemma SettledFacts(c: Compiler)
    requires Settled(c)
    ensures Unread(c) && Level(c) && Fills(c) && Ready(c, Jump(0))
  {}

  lemma SlotZero(c: Compiler)
    requires Settled(c) && |c.locals| > 0
    ensures Ready(c, GetLocal(0))
  {}

  /** After a condition and its branch, the stack is as before. */
  lemma SettledBranch(cs: seq<Compiler>, ds: seq<Compiler>, es: seq<Compiler>)
    requires Pushed(cs, ds, 1) && Settled(cs[|cs| - 1]) && |es| == |cs| && Ready(ds[|cs| - 1], Branch(0))
    requires var d := ds[|cs| - 1]; es[|cs| - 1] == Pending(d, Branch(0), After(Top(d), |d.upvalues|, Branch(0)))
    ensures Settled(es[|es| - 1])
  {
    var c, d := cs[|cs| - 1], ds[|cs| - 1];
    assert d.locals[..|c.locals|] == d.locals;
    assert Ids(d.locals) == Ids(c.locals);
  }

  lemma SettledJump(cs: seq<Compiler>, ds: seq<Compiler>, start: nat)
    requires |cs| > 0 && Back(cs[|cs| - 1], start) && |ds| == |cs| && Settled(cs[|cs| - 1]) && Ready(cs[|cs| - 1], Jump(0))
    requires var c := cs[|cs| - 1]; ds[|cs| - 1] == Pending(c, Jump(0), After(Top(c), |c.upvalues|, Jump(0)))
    ensures Settled(ds[|ds| - 1]) && Unread(ds[|ds| - 1]) && Back(ds[|ds| - 1], start) && Back(ds[|ds| - 1], |ds[|ds| - 1].code|)
  {}

  lemma SettledPatch(bs: seq<Compiler>, cs: seq<Compiler>, ds: seq<Compiler>)
    requires |bs| > 0 && |cs| == |bs| && |ds| == |cs| && Settled(cs[|cs| - 1]) && Reaches(bs[|bs| - 1], ds[|ds| - 1])
    requires cs[|cs| - 1].locals == bs[|bs| - 1].locals && |ds[|ds| - 1].locals| == |cs[|cs| - 1].locals|
    requires |ds[|ds| - 1].here| == |ds[|ds| - 1].code| + 1 && Top(ds[|ds| - 1]) == Top(cs[|cs| - 1])
    ensures Settled(ds[|ds| - 1])
  {
    var b, d := bs[|bs| - 1], ds[|ds| - 1];
    assert d.locals[..|b.locals|] == d.locals;
    assert Ids(d.locals) == Ids(b.locals);
  }

  /** The stack is as it was at an earlier place. */
  ghost predicate Back(c: Compiler, start: nat) {
    |c.here| == |c.code| + 1 && start <= |c.code| && Onto(c.here[start], Top(c).vars, Top(c).height)
  }

  /** So it is at the start of a loop behind its condition. */
  lemma BackAt(cs: seq<Compiler>, c1: seq<Compiler>, c2: seq<Compiler>)
    requires Pushed(cs, c1, 1) && |c2| == |cs| && Reaches(c1[|cs| - 1], c2[|cs| - 1]) && Settled(cs[|cs| - 1]) && Settled(c2[|cs| - 1])
    requires |c2[|cs| - 1].locals| == |c1[|cs| - 1].locals|
    ensures Back(c2[|c2| - 1], |cs[|cs| - 1].code|)
  {
    var a, b, c := cs[|cs| - 1], c1[|cs| - 1], c2[|cs| - 1];
    assert b.locals[..|a.locals|] == b.locals && c.locals[..|b.locals|] == c.locals;
    assert Ids(a.locals) == Ids(b.locals) == Ids(c.locals);
    assert c.here[|a.code|] == Top(a);
  }

  lemma BackPatched(c: Compiler, at: nat, start: nat)
    requires Back(c, start) && at < |c.code| && IsJump(c.code[at])
    ensures Back(Patched(c, at), start)
  {}

  lemma BackInto(cs: seq<Compiler>, ds: seq<Compiler>, start: nat)
    requires Pushed(cs, ds, 0) && Back(cs[|cs| - 1], start)
    ensures |ds| == |cs| && Back(ds[|ds| - 1], start)
  {
    var c, d := cs[|cs| - 1], ds[|cs| - 1];
    assert d.here[start] == c.here[start];
  }

  lemma SettledDeeper(cs: seq<Compiler>, ds: seq<Compiler>)
    requires |cs| > 0 && Settled(cs[|cs| - 1]) && ds == cs[|cs| - 1 := cs[|cs| - 1].(depth := cs[|cs| - 1].depth + 1)]
    ensures Settled(ds[|ds| - 1])
  {}

  lemma LevelDeeper(cs: seq<Compiler>, ds: seq<Compiler>)
    requires |cs| > 0 && Level(cs[|cs| - 1]) && ds == cs[|cs| - 1 := cs[|cs| - 1].(depth := cs[|cs| - 1].depth + 1)]
    ensures Level(ds[|ds| - 1])
  {}

  lemma LevelKept(cs: seq<Compiler>, ds: seq<Compiler>, delta: int)
    requires Pushed(cs, ds, delta) && Level(cs[|cs| - 1])
    ensures |ds| == |cs| && Level(ds[|ds| - 1])
  {}

  /** The locals declared since a scope began are exactly those deeper than the scope around it. */
  lemma ScopeDepths(cs: seq<Compiler>, ds: seq<Compiler>, es: seq<Compiler>)
    requires |cs| > 0 && HasNames(cs[|cs| - 1]) && ds == cs[|cs| - 1 := cs[|cs| - 1].(depth := cs[|cs| - 1].depth + 1)] && Grown(ds, es)
    ensures var n, e := |cs[|cs| - 1].locals|, es[|es| - 1];
      && n <= |e.locals| && e.depth > 0
      && forall i :: 0 <= i < |e.locals| ==> (e.locals[i].depth < e.depth <==> i < n)
  {
    var c, d, e := cs[|cs| - 1], ds[|cs| - 1], es[|cs| - 1];
    forall i | 0 <= i < |e.locals|
      ensures e.locals[i].depth < e.depth <==> i < |c.locals|
    {
      assert i < |c.locals| ==> e.locals[..|d.locals|][i] == e.locals[i];
    }
  }

  ghost predicate HasNames(c: Compiler) {
    |c.here| == |c.code| + 1 && NamesOk(c)
  }

  /** A scope that was left: the locals around it are there, and nothing else. */
  lemma ScopeLeft(cs: seq<Compiler>, ds: seq<Compiler>, es: seq<Compiler>, fs: seq<Compiler>)
    requires |cs| > 0 && Settled(cs[|cs| - 1]) && ds == cs[|cs| - 1 := cs[|cs| - 1].(depth := cs[|cs| - 1].depth + 1)] && Grown(ds, es)
    requires Below(cs, ds) && Below(es, fs) && Left(es[|es| - 1], fs[|fs| - 1], |cs[|cs| - 1].locals|) && Settled(fs[|fs| - 1])
    ensures Pushed(cs, fs, 0)
  {
    hide Flagged;
    BelowTwice(cs, ds, es);
    BelowTwice(cs, es, fs);
    var c, d, e, f := cs[|cs| - 1], ds[|cs| - 1], es[|cs| - 1], fs[|cs| - 1];
    assert f.locals == e.locals[..|c.locals|] && f.locals[..|c.locals|] == f.locals;
    assert Ids(f.locals) == Ids(c.locals);
    assert e.code <= f.code;
  }

  /** The superclass, pushed and then declared as a local of a new scope. */
  lemma SuperBound(cs: seq<Compiler>, c1: seq<Compiler>, c2: seq<Compiler>, c3: seq<Compiler>)
    requires Pushed(cs, c1, 1) && Settled(cs[|cs| - 1]) && c2 == c1[|cs| - 1 := c1[|cs| - 1].(depth := c1[|cs| - 1].depth + 1)]
    requires c3 == c2[|cs| - 1 := Declared(c2[|cs| - 1], "super", -1)]
    ensures |c3| == |cs| && Definable(c3[|cs| - 1]) && Settled(Defined(c3[|cs| - 1]))
  {
    var c, d, e := cs[|cs| - 1], c1[|cs| - 1], c3[|cs| - 1];
    assert d.locals[..|c.locals|] == d.locals;
    assert d.here[|c.code|] == Top(c);
    assert Ids(Defined(e).locals) == Ids(e.locals);
  }

  lemma SuperDepths(cs: seq<Compiler>, c1: seq<Compiler>, c4: seq<Compiler>, c6: seq<Compiler>)
    requires Pushed(cs, c1, 1) && |c4| == |cs| && Grown(c4, c6) && HasNames(c1[|cs| - 1]) && Subclass(c1[|cs| - 1], c4[|cs| - 1])
    ensures var n, e := |cs[|cs| - 1].locals|, c6[|c6| - 1];
      && n <= |e.locals| && e.depth > 0
      && forall i :: 0 <= i < |e.locals| ==> (e.locals[i].depth < e.depth <==> i < n)
  {
    var c, d, e := cs[|cs| - 1], c4[|cs| - 1], c6[|cs| - 1];
    forall i | 0 <= i < |e.locals|
      ensures e.locals[i].depth < e.depth <==> i < |c.locals|
    {
      assert i < |d.locals| ==> e.locals[..|d.locals|][i] == e.locals[i];
    }
  }

  /** From a function to the same with the scope of a superclass open. */
  ghost predicate Subclass(c: Compiler, d: Compiler) {
    |c.here| == |c.code| + 1 && d == Defined(Declared(c.(depth := c.depth + 1), "super", -1))
  }

  lemma SuperLeft(cs: seq<Compiler>, c1: seq<Compiler>, c4: seq<Compiler>, c6: seq<Compiler>, c7: seq<Compiler>)
    requires Pushed(cs, c1, 1) && Settled(cs[|cs| - 1]) && Below(c1, c4) && Subclass(c1[|cs| - 1], c4[|cs| - 1]) && Grown(c4, c6)
    requires Below(c6, c7) && Left(c6[|cs| - 1], c7[|cs| - 1], |cs[|cs| - 1].locals|) && Settled(c7[|cs| - 1])
    ensures Pushed(cs, c7, 0)
  {
    hide Flagged;
    BelowTwice(cs, c1, c4);
    BelowTwice(cs, c4, c6);
    BelowTwice(cs, c6, c7);
    SubclassExtends(cs[|cs| - 1], c1[|cs| - 1], c4[|cs| - 1]);
    var c, d, e, f := cs[|cs| - 1], c4[|cs| - 1], c6[|cs| - 1], c7[|cs| - 1];
    ExtendsTwice(c.(depth := d.depth), d, e);
    assert f.locals == e.locals[..|c.locals|] && f.locals[..|c.locals|] == f.locals;
    assert Ids(f.locals) == Ids(c.locals);
    assert e.code <= f.code;
  }

  lemma SubclassExtends(b: Compiler, c: Compiler, d: Compiler)
    requires Extends(b, c) && |b.here| == |b.code| + 1 && Subclass(c, d) && |c.locals| == |b.locals|
    requires Top(c).height == Top(b).height + 1
    ensures Extends(b.(depth := d.depth), d) && d.depth == b.depth + 1
  {
    assert c.locals[..|b.locals|] == c.locals;
    assert c.here[|b.code|] == Top(b);
    forall i | 0 <= i < |b.locals|
      ensures d.locals[..|b.locals|][i] == c.locals[i]
    {}
  }

  lemma FunctionPushed(cs: seq<Compiler>, ds: seq<Compiler>)
    requires Grown(cs, ds) && Level(cs[|cs| - 1]) && |ds[|cs| - 1].locals| == |cs[|cs| - 1].locals| && HasNames(cs[|cs| - 1])
    requires |ds[|cs| - 1].here| == |ds[|cs| - 1].code| + 1
    requires Top(ds[|cs| - 1]) == Here(Ids(cs[|cs| - 1].locals), Top(cs[|cs| - 1]).height + 1)
    ensures Pushed(cs, ds, 1) && (Unread(cs[|cs| - 1]) ==> Unread(ds[|ds| - 1]))
  {
    var c := cs[|cs| - 1];
    assert Ids(c.locals) == Top(c).vars;
    if Unread(c) {
      UnreadKept(cs, ds, 1);
    }
  }

  /** The closure of a function that was declared is its variable. */
  lemma FunctionBound(cs: seq<Compiler>, ds: seq<Compiler>, es: seq<Compiler>, x: string)
    requires |cs| > 0 && Settled(cs[|cs| - 1]) && ds == cs[|cs| - 1 := Declared(cs[|cs| - 1], x, cs[|cs| - 1].depth)] && Grown(ds, es)
    requires |es[|cs| - 1].locals| == |ds[|cs| - 1].locals| && |es[|cs| - 1].here| == |es[|cs| - 1].code| + 1
    requires Top(es[|cs| - 1]) == Here(Ids(ds[|cs| - 1].locals), Top(ds[|cs| - 1]).height + 1)
    ensures Grown(cs, es) && Settled(es[|es| - 1])
  {
    hide Flagged;
    var c, d, e := cs[|cs| - 1], ds[|cs| - 1], es[|cs| - 1];
    BelowSelf(cs);
    assert e.locals[..|d.locals|] == e.locals;
    assert Ids(e.locals) == Ids(d.locals);
    forall i | 0 <= i < |c.locals|
      ensures e.locals[..|c.locals|][i] == e.locals[i] && d.locals[i] == c.locals[i]
    {}
  }

  lemma GrownSelf(cs: seq<Compiler>)
    requires |cs| > 0 && Settled(cs[|cs| - 1])
    ensures Pushed(cs, cs, 0) && Grown(cs, cs)
  {
    PushedNone(cs);
  }

  lemma BelowSelf(cs: seq<Compiler>)
    ensures Below(cs, cs)
  {
    forall k | 0 <= k < |cs| - 1
      ensures Flagged(cs[k], cs[k])
    {
      FlaggedSelf(cs[k]);
    }
  }

  /** How the locals from place n on leave. */
  function Leavings(ls: seq<Local>, n: nat): seq<Instr>
    requires n <= |ls|
  {
    if |ls| == n then [] else [Leaving(ls[|ls| - 1])] + Leavings(ls[..|ls| - 1], n)
  }

  lemma {:induction false} OneMoreLeaves(ls: seq<Local>, n: nat)
    requires 0 < n <= |ls|
    ensures Leavings(ls, n - 1) == Leavings(ls, n) + [Leaving(ls[n - 1])]
    decreases |ls|
  {
    if |ls| == n {
      assert Leavings(ls[..n - 1], n - 1) == [];
    } else {
      OneMoreLeaves(ls[..|ls| - 1], n);
      assert ls[..|ls| - 1][n - 1] == ls[n - 1];
    }
  }

  /** The scope is being left: the last locals are gone, and the code for that is emitted. */
  ghost predicate LeftSoFar(c: Compiler, d: Compiler) {
    && |d.locals| <= |c.locals| && d.locals == c.locals[..|d.locals|] && d.code == c.code + Leavings(c.locals, |d.locals|)
    && c.here <= d.here && c.dead <= d.dead
    && d.depth == c.depth && d.open == c.open && d.upvalues == c.upvalues && d.caught == c.caught && d.made == c.made
    && d.arity == c.arity && d.init == c.init
  }

  ghost predicate Left(c: Compiler, d: Compiler, keep: nat) {
    |d.locals| == keep && c.depth > 0 && d.depth == c.depth - 1 && LeftSoFar(c, d.(depth := c.depth))
  }

  lemma LeftCode(c: Compiler, d: Compiler, keep: nat)
    requires Left(c, d, keep)
    ensures Quiet(c.code, d.code)
  {
    QuietLeavings(c.code, c.locals, keep);
  }

  lemma LeftOne(c: Compiler, d: Compiler)
    requires LeftSoFar(c, d) && |d.locals| > 0 && |d.here| == |d.code| + 1
    ensures LeftSoFar(c, Dropped(d))
  {
    OneMoreLeaves(c.locals, |d.locals|);
  }

  lemma ShallowOk(prog: seq<Code>, c: Compiler, depth: nat)
    requires CompOk(prog, c) && forall i :: 0 <= i < |c.locals| ==> c.locals[i].depth <= depth
    ensures CompOk(prog, c.(depth := depth))
  {
    hide AllOkay;
  }

  lemma AfterPatch(cs: seq<Compiler>, ds: seq<Compiler>)
    requires |cs| > 0 && |ds| == |cs| && Unread(cs[|cs| - 1]) && |ds[|cs| - 1].here| == |ds[|cs| - 1].code| + 1
    requires Ready(cs[|cs| - 1], LoxScopes.Pop)
    requires Top(ds[|cs| - 1]) == Top(cs[|cs| - 1]) && ds[|cs| - 1].locals == cs[|cs| - 1].locals
    ensures Unread(ds[|ds| - 1]) && Pushed(ds, ds, 0) && Ready(ds[|ds| - 1], LoxScopes.Pop)
  {
    PushedNone(ds);
  }

  /** A jump, code, and a second jump; the first is to lead behind the second. */
  lemma TwoJumps(cs: seq<Compiler>, ds: seq<Compiler>, ms: seq<Compiler>, es: seq<Compiler>, ins: Instr)
    requires |cs| > 0 && Below(cs, ds) && Pushed(ds, ms, 0) && Below(ms, es) && IsJump(ins)
    requires var c, d, m := cs[|cs| - 1], ds[|cs| - 1], ms[|cs| - 1];
      && Ready(c, ins) && d == Pending(c, ins, After(Top(c), |c.upvalues|, ins)) && Reaches(c, d) && |c.code| !in c.open
      && Ready(m, Jump(0)) && |m.code| !in m.open && Reaches(m, es[|cs| - 1])
      && es[|cs| - 1] == Pending(m, Jump(0), After(Top(m), |m.upvalues|, Jump(0)))
    ensures var c, d, m, e := cs[|cs| - 1], ds[|cs| - 1], ms[|cs| - 1], es[|cs| - 1];
      && CanPatch(e, |c.code|) && Below(cs, es)
      && var p := Patched(e, |c.code|);
      && Reaches(c, p) && p.open == c.open + {|m.code|} && Top(p) == Top(d) && |p.locals| == |c.locals| && |p.here| == |p.code| + 1
      && |c.code| <= |m.code| < |p.code| && |m.code| !in c.open && p.code[|m.code|] == Jump(0)
      && p.here[|m.code|] == p.here[|m.code| + 1] == Top(d)
  {
    hide Flagged;
    var c, d, m, e := cs[|cs| - 1], ds[|cs| - 1], ms[|cs| - 1], es[|cs| - 1];
    ReachesOn(c, d, m);
    ExtendsTwice(c.(open := e.open), m.(open := e.open), e);
    assert e.code[|c.code|] == ins && e.here[|c.code|] == Top(c) && e.here[|c.code| + 1] == Top(d);
    ReachesPatched(c, e, |c.code|);
    BelowTwice(cs, ds, ms);
    BelowTwice(cs, ms, es);
  }

  /** Behind them, code that the second jump skips. */
  lemma SkippedSecond(cs: seq<Compiler>, ds: seq<Compiler>, es: seq<Compiler>, at: nat, delta: int)
    requires |cs| > 0 && Below(cs, ds) && Pushed(ds, es, 0)
    requires var c, d := cs[|cs| - 1], ds[|cs| - 1];
      && |c.here| == |c.code| + 1 && Reaches(c, d) && d.open == c.open + {at} && |c.code| <= at < |d.code| && at !in c.open
      && d.code[at] == Jump(0) && d.here[at] == d.here[at + 1] == Top(d) && |Top(d).vars| <= Top(d).height
      && Top(d).vars == Top(c).vars && Top(d).height == Top(c).height + delta && |d.locals| == |c.locals|
    ensures var e := es[|es| - 1]; CanPatch(e, at) && Pushed(cs, es[|es| - 1 := Patched(e, at)], delta)
  {
    hide Flagged;
    var c, d, e := cs[|cs| - 1], ds[|cs| - 1], es[|cs| - 1];
    assert e.code[at] == Jump(0) && e.here[at] == Top(d) && e.here[at + 1] == Top(d);
    ReachesOn(c, d, e);
    ReachesPatched(c, e, at);
    BelowTwice(cs, ds, es);
  }

  /** The temporaries that code left can be used. */
  lemma Temps(cs: seq<Compiler>, ds: seq<Compiler>, n: nat)
    requires |cs| > 0 && HasNames(cs[|cs| - 1]) && Pushed(cs, ds, n)
    ensures |ds| == |cs|
    ensures var d := ds[|ds| - 1];
      && Ready(d, Use(n, true)) && Ready(d, Use(n, false)) && (n > 0 ==> Ready(d, LoxScopes.Call(n - 1)) && Ready(d, LoxScopes.Pop))
      && (n > 0 ==> Ready(d, JumpIfFalse(0)) && Ready(d, Branch(0)) && Ready(d, Return)) && Ready(d, Jump(0))
  {}

  /** Behind a jump that is still to be patched. */
  lemma AfterJump(prog: seq<Code>, cs: seq<Compiler>, ds: seq<Compiler>, ins: Instr)
    requires |cs| > 0 && |ds| == |cs| && IsJump(ins) && AllOk(prog, ds) && Ready(cs[|cs| - 1], ins) && Unread(cs[|cs| - 1])
    requires var c := cs[|cs| - 1]; ds[|cs| - 1] == Pending(c, ins, After(Top(c), |c.upvalues|, ins))
    ensures Unread(ds[|ds| - 1]) && Pushed(ds, ds, 0)
    ensures ins.JumpIfFalse? ==> Ready(ds[|ds| - 1], LoxScopes.Pop)
  {
    PushedNone(ds);
  }

  /** Code behind a jump that the jump may skip. */
  lemma Skipped(cs: seq<Compiler>, ds: seq<Compiler>, es: seq<Compiler>, ins: Instr, at: nat, delta: int)
    requires |cs| > 0 && Below(cs, ds) && IsJump(ins) && Ready(cs[|cs| - 1], ins) && Pushed(ds, es, delta)
    requires var c := cs[|cs| - 1]; ds[|cs| - 1] == Pending(c, ins, After(Top(c), |c.upvalues|, ins))
    requires var c := cs[|cs| - 1]; at == |c.code| && at !in c.open && Reaches(c, ds[|cs| - 1]) && Delta(ins) == Delta(ins) + delta
    ensures var e := es[|es| - 1];
      && CanPatch(e, at) && Pushed(cs, es[|es| - 1 := Patched(e, at)], Delta(ins) + delta)
  {
    hide Flagged;
    var c, d, e := cs[|cs| - 1], ds[|cs| - 1], es[|cs| - 1];
    assert d.code[at] == ins && d.here[at] == Top(c) && d.here[at + 1] == Top(d);
    assert e.code[at] == ins && e.here[at] == Top(c) && e.here[at + 1] == Top(d);
    ReachesOn(c, d, e);
    ReachesPatched(c, e, at);
    BelowTwice(cs, ds, es);
  }

  /** A variable being declared is not yet initialised. */
  ghost predicate Unread(c: Compiler) {
    |c.here| == |c.code| + 1 && forall i :: |Top(c).vars| <= i < |c.locals| ==> c.locals[i].depth == -1
  }

  /** The instructions for a name: a local by its slot, an upvalue that leads to the variable, or a global. A name read in
      its own initialiser is an error; what is emitted then is not used. */
  ghost predicate Means(cs: seq<Compiler>, ds: seq<Compiler>, x: string, get: Instr, put: Instr) {
    && |cs| > 0 && |ds| == |cs|
    && var k := |cs| - 1;
    var i := FindLocal(cs[k].locals, x);
    if i >= 0 && cs[k].locals[i].depth != -1 then get == GetLocal(i) && put == SetLocal(i)
    else if i < 0 && Binder(cs, k, x) != Nowhere then
      get.GetUp? && put == SetUp(get.u) && get.u < |ds[k].upvalues| && Origin(ds, k, get.u) == Binder(cs, k, x)
    else get == Use(0, true) && put == Use(0, false)
  }

  lemma MeansReady(cs: seq<Compiler>, ds: seq<Compiler>, x: string, get: Instr, put: Instr)
    requires Means(cs, ds, x, get, put) && Pushed(cs, ds, 0) && Unread(cs[|cs| - 1]) && HasNames(ds[|ds| - 1])
    ensures Ready(ds[|ds| - 1], get) && !IsJump(get) && !IsJump(put)
    ensures Delta(get) == 1 && Delta(put) == 0
  {}

  lemma MeansPut(cs: seq<Compiler>, ds: seq<Compiler>, x: string, get: Instr, put: Instr, es: seq<Compiler>)
    requires Means(cs, ds, x, get, put) && Pushed(cs, ds, 0) && Unread(cs[|cs| - 1]) && HasNames(ds[|ds| - 1]) && Pushed(ds, es, 1)
    ensures Ready(es[|es| - 1], put)
  {}

  /** More code that leaves `delta` more temporaries; no local was declared. */
  ghost predicate Pushed(cs: seq<Compiler>, ds: seq<Compiler>, delta: int) {
    && Grown(cs, ds)
    && var c, d := cs[|cs| - 1], ds[|cs| - 1];
    && |c.here| == |c.code| + 1 && |d.here| == |d.code| + 1 && |d.locals| == |c.locals|
    && Top(d).vars == Top(c).vars && Top(d).height == Top(c).height + delta
  }

  lemma PushedTwice(as0: seq<Compiler>, bs: seq<Compiler>, cs: seq<Compiler>, m: int, n: int)
    requires Pushed(as0, bs, m) && Pushed(bs, cs, n)
    ensures Pushed(as0, cs, m + n)
  {
    hide Flagged, Extends;
    GrownTwice(as0, bs, cs);
  }

  lemma GrownTwice(as0: seq<Compiler>, bs: seq<Compiler>, cs: seq<Compiler>)
    requires Grown(as0, bs) && Grown(bs, cs)
    ensures Grown(as0, cs)
  {
    hide Flagged, Extends;
    BelowTwice(as0, bs, cs);
    ExtendsTwice(as0[|as0| - 1], bs[|as0| - 1], cs[|as0| - 1]);
  }

  lemma UnreadKept(cs: seq<Compiler>, ds: seq<Compiler>, delta: int)
    requires Pushed(cs, ds, delta) && Unread(cs[|cs| - 1])
    ensures |ds| == |cs| && Unread(ds[|ds| - 1])
  {
    var c, d := cs[|cs| - 1], ds[|cs| - 1];
    assert d.locals[..|c.locals|] == d.locals;
  }

  lemma FlaggedCode(c: Compiler, d: Compiler)
    requires Flagged(c, d)
    ensures d.code == c.code
  {}

  /** Code that runs straight through, without calling anything. */
  ghost predicate Quiet(from: seq<Instr>, to: seq<Instr>) {
    from <= to && forall pc :: |from| <= pc < |to| ==> !IsJump(to[pc]) && !to[pc].Call? && !to[pc].Return?
  }

  lemma QuietTwice(a: seq<Instr>, b: seq<Instr>, c: seq<Instr>)
    requires Quiet(a, b) && Quiet(b, c)
    ensures Quiet(a, c)
  {}

  lemma QuietOne(a: seq<Instr>, ins: Instr)
    requires !IsJump(ins) && !ins.Call? && !ins.Return?
    ensures Quiet(a, a + [ins])
  {}

  lemma {:induction false} QuietLeavings(a: seq<Instr>, ls: seq<Local>, n: nat)
    requires n <= |ls|
    ensures Quiet(a, a + Leavings(ls, n))
    decreases |ls|
  {
    if |ls| > n {
      QuietLeavings(a + [Leaving(ls[|ls| - 1])], ls[..|ls| - 1], n);
      assert a + Leavings(ls, n) == a + [Leaving(ls[|ls| - 1])] + Leavings(ls[..|ls| - 1], n);
      QuietOne(a, Leaving(ls[|ls| - 1]));
      QuietTwice(a, a + [Leaving(ls[|ls| - 1])], a + Leavings(ls, n));
    }
  }

  lemma PushedNone(cs: seq<Compiler>)
    requires |cs| > 0 && Unread(cs[|cs| - 1])
    ensures Pushed(cs, cs, 0)
  {
    AllFlagged(cs, cs);
  }

  lemma NamesOf(prog: seq<Code>, cs: seq<Compiler>)
    requires AllOk(prog, cs) && |cs| > 0
    ensures CompOk(prog, cs[|cs| - 1]) && HasNames(cs[|cs| - 1])
  {}

  lemma AllFlagged(cs: seq<Compiler>, ds: seq<Compiler>)
    requires |ds| == |cs| > 0 && (forall k :: 0 <= k < |cs| ==> Flagged(cs[k], ds[k])) && Unread(cs[|cs| - 1])
    ensures Pushed(cs, ds, 0) && Unread(ds[|ds| - 1])
  {
    var c, d := cs[|cs| - 1], ds[|cs| - 1];
    assert d.locals[..|c.locals|] == d.locals;
  }

  /** The instruction finds what it needs at the end of the code. */
  ghost predicate Ready(c: Compiler, ins: Instr) {
    |c.here| == |c.code| + 1 && |Top(c).vars| <= Top(c).height && Applies(Top(c), |c.upvalues|, ins)
  }

  /** The end of the code is where the jump at `at` may lead. */
  ghost predicate CanPatch(c: Compiler, at: nat) {
    && |c.here| == |c.code| + 1 && at in c.open && at < |c.code| && IsJump(c.code[at]) && |c.here[at].vars| <= c.here[at].height
    && Applies(c.here[at], |c.upvalues|, c.code[at]) && c.here[at + 1] == After(c.here[at], |c.upvalues|, c.code[at])
    && Onto(Top(c), c.here[at].vars, c.here[at + 1].height)
  }

  ghost predicate Grown(cs: seq<Compiler>, ds: seq<Compiler>) {
    |cs| > 0 && Below(cs, ds) && Extends(cs[|cs| - 1], ds[|cs| - 1])
  }

  /** More code, some of whose jumps are still to be patched. */
  ghost predicate Reaches(c: Compiler, d: Compiler) {
    Extends(c.(open := d.open), d)
  }

  lemma ReachesOn(a: Compiler, b: Compiler, c: Compiler)
    requires Reaches(a, b) && Extends(b, c)
    ensures Reaches(a, c)
  {
    ExtendsTwice(a.(open := b.open), b, c);
  }

  lemma ReachesPatched(a: Compiler, b: Compiler, at: nat)
    requires Reaches(a, b) && |a.code| <= at < |b.code| && IsJump(b.code[at])
    ensures Reaches(a, Patched(b, at))
  {}

  lemma FlaggedSelf(c: Compiler)
    ensures Flagged(c, c)
  {}

  /** Flagging function k leaves the references to it right. */
  lemma RefsAfter(prog: seq<Code>, cs: seq<Compiler>, ds: seq<Compiler>, k: nat)
    requires AllOk(prog, cs) && k < |cs| == |ds| && ds == cs[k := ds[k]] && CompOk(prog, ds[k]) && Flagged(cs[k], ds[k])
    requires if k > 0 then RefsOk(ds[k], cs[k - 1]) else ds[0].upvalues == []
    ensures AllOk(prog, ds)
  {
    hide CompOk, Flagged, RefsOk;
    if k + 1 < |cs| {
      FlaggedRefs(cs[k + 1], cs[k], ds[k]);
    }
  }

  /** Compiles a program; its top level is the last function. Without an error it may be run. */
  method Compile(s: Stmt) returns (prog: seq<Code>, ok: bool)
    requires Grammar(s)
    ensures ProgOk(prog) && |prog| > 0 && prog[|prog| - 1].arity == 0 && prog[|prog| - 1].ups == 0
  {
    var p := new Parser();
    p.CompileStmt(s);
    hide CodeOk, CompOk, Extends;
    FinishScript(p.prog, p.compilers);
    p.AddCode(p.Cur());
    prog, ok := p.prog, !p.failed;
  }

  lemma FinishScript(prog: seq<Code>, cs: seq<Compiler>)
    requires AllOk(prog, cs) && |cs| == 1 && Settled(cs[0]) && Extends(Fresh("this", false), cs[0])
    ensures CodeOk(prog, Finished(cs[0])) && Finished(cs[0]).arity == 0 && Finished(cs[0]).ups == 0
  {
    FinishedOk(prog, cs[0]);
  }
}
