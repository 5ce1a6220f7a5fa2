/** What a loop nest computes: the C program tests and increments a variable, the Lua program evaluates its bounds
    once and gives every round a local variable (section 2.4.5 of the Lua 5.1 Reference Manual).  Which programs the
    translation is right for is decided by following the C program. */
module LoopSemantics {
  import opened LoopNest
  import opened Options

  type Env = map<nat, int>

  // ---------------------------------------------------------------- expressions, the same in both languages

  /** A variable without a value is uninitialised in C and nil in Lua, where it may stand alone but not be computed
      with. */
  datatype Val = Num(n: int) | Nil | Error

  function TermVal(t: Term, env: Env): Val {
    match t
    case Const(n) => Num(n)
    case Variable(v) => if v in env then Num(env[v]) else Nil
    case Scaled(n, v) => if v in env then Num(n * env[v]) else Error
  }

  function Signed(negative: bool, x: Val): Val {
    if !negative then x else if x.Num? then Num(-x.n) else Error
  }

  function Sum(x: Val, y: Val): Val {
    if x.Num? && y.Num? then Num(x.n + y.n) else Error
  }

  function AffineVal(a: Affine, env: Env): Val {
    match a
    case Start(negative, t) => Signed(negative, TermVal(t, env))
    case Plus(b, negative, t) => Sum(AffineVal(b, env), Signed(negative, TermVal(t, env)))
  }

  /** The functions `max` and `min` that src/atpserver/lua/lua_codex.lua puts before the program. */
  function MaxOf(x: Val, y: Val): Val {
    if !x.Num? || !y.Num? then Error else if x.n >= y.n then x else y
  }

  function MinOf(x: Val, y: Val): Val {
    if !x.Num? || !y.Num? then Error else if x.n <= y.n then x else y
  }

  function BoundVal(b: Bound, env: Env): Val {
    match b
    case Linear(a) => AffineVal(a, env)
    case Max(x, y) => MaxOf(BoundVal(x, env), BoundVal(y, env))
    case Min(x, y) => MinOf(BoundVal(x, env), BoundVal(y, env))
  }

  predicate Compares(a: int, r: Relation, b: int) {
    match r case LE => a <= b case GE => a >= b case LT => a < b case GT => a > b case EQ => a == b case NE => a != b
  }

  /** What both programs do that can be seen: how they decide their conditions, and the tuples they emit.  An element
      of a tuple is missing where Lua finds nil. */
  datatype Event = Decided(holds: bool) | Emitted(tuple: seq<Option<int>>)

  // ---------------------------------------------------------------- C

  /** In C a value must be there; the second operand is left out when the first decides. */
  function HoldsC(c: Cond, env: Env): Option<bool> {
    match c
    case Compare(x, r, y) =>
      var a, b := BoundVal(x, env), BoundVal(y, env);
      if a.Num? && b.Num? then Some(Compares(a.n, r, b.n)) else None
    case And(a, b) => if HoldsC(a, env) == Some(true) then HoldsC(b, env) else HoldsC(a, env)
    case Or(a, b) => if HoldsC(a, env) == Some(false) then HoldsC(b, env) else HoldsC(a, env)
  }

  function TupleC(args: seq<Affine>, env: Env): Option<seq<Option<int>>> {
    if args == [] then Some([])
    else
      var x, rest := AffineVal(args[0], env), TupleC(args[1..], env);
      if x.Num? && rest.Some? then Some([Some(x.n)] + rest.value) else None
  }

  datatype Outcome = Done(env: Env, trace: seq<Event>) | Undefined | OutOfFuel

  function Append(trace: seq<Event>, r: Outcome): Outcome {
    if r.Done? then Done(r.env, trace + r.trace) else r
  }

  /** A statement; `fuel` bounds the number of rounds of its loops. */
  function RunC(s: Stmt, env: Env, fuel: nat): Outcome
    decreases fuel, s, 1
  {
    match s
    case For(_, v, lo, _, _, _, _) =>
      var x := BoundVal(lo, env);
      if x.Num? then LoopC(s, env[v := x.n], fuel) else Undefined
    case If(_, c, body, _) =>
      (match HoldsC(c, env)
       case None => Undefined
       case Some(holds) => Append([Decided(holds)], if holds then BlockC(body, env, fuel) else Done(env, [])))
    case Call(_, _, args) =>
      (match TupleC(args, env) case None => Undefined case Some(tuple) => Done(env, [Emitted(tuple)]))
    case Blank(_) => Done(env, [])
  }

  function BlockC(ss: seq<Stmt>, env: Env, fuel: nat): Outcome
    decreases fuel, ss, 0
  {
    if ss == [] then Done(env, [])
    else
      match RunC(ss[0], env, fuel)
      case Done(e, trace) => Append(trace, BlockC(ss[1..], e, fuel))
      case r => r
  }

  /** The test, the body, the increment, and again: the bound is evaluated in every round. */
  function LoopC(s: Stmt, env: Env, fuel: nat): Outcome
    requires s.For?
    decreases fuel, s, 0
  {
    var limit := BoundVal(s.hi, env);
    if s.v !in env || !limit.Num? then Undefined
    else if env[s.v] > limit.n then Done(env, [])
    else if fuel == 0 then OutOfFuel
    else
      match BlockC(s.body, env, fuel - 1)
      case Done(e, trace) =>
        if s.v in e then Append(trace, LoopC(s, e[s.v := e[s.v] + s.step], fuel - 1)) else Undefined
      case r => r
  }

  // ---------------------------------------------------------------- Lua

  /** Nil may be compared with `==` and `~=`, and is equal to nothing but itself. */
  function LuaCompares(a: Val, r: Relation, b: Val): Option<bool> {
    if a.Num? && b.Num? then Some(Compares(a.n, r, b.n))
    else if a.Error? || b.Error? then None
    else if r == EQ then Some(a == b)
    else if r == NE then Some(a != b)
    else None
  }

  function HoldsLua(c: Cond, env: Env): Option<bool> {
    match c
    case Compare(x, r, y) => LuaCompares(BoundVal(x, env), r, BoundVal(y, env))
    case And(a, b) => if HoldsLua(a, env) == Some(true) then HoldsLua(b, env) else HoldsLua(a, env)
    case Or(a, b) => if HoldsLua(a, env) == Some(false) then HoldsLua(b, env) else HoldsLua(a, env)
  }

  function TupleLua(args: seq<Affine>, env: Env): Option<seq<Option<int>>> {
    if args == [] then Some([])
    else
      var x, rest := AffineVal(args[0], env), TupleLua(args[1..], env);
      if x.Error? || rest.None? then None
      else Some([if x.Num? then Some(x.n) else None] + rest.value)
  }

  /** A Lua program runs to its end, or stops with an error. */
  datatype Result = Ran(trace: seq<Event>) | Stopped

  function Concat(a: Result, b: Result): Result {
    if a.Ran? && b.Ran? then Ran(a.trace + b.trace) else Stopped
  }

  function RunLua(l: Lua, env: Env): Result
    decreases l, 1
  {
    match l
    case LuaFor(v, lo, hi, step, body) =>
      var x, limit := BoundVal(lo, env), BoundVal(hi, env);
      if x.Num? && limit.Num? then LoopLua(v, x.n, limit.n, step, body, env) else Stopped
    case LuaIf(c, body) =>
      (match HoldsLua(c, env)
       case None => Stopped
       case Some(holds) => Concat(Ran([Decided(holds)]), if holds then BlockLua(body, env) else Ran([])))
    case LuaAppend(args) =>
      (match TupleLua(args, env) case None => Stopped case Some(tuple) => Ran([Emitted(tuple)]))
    case LuaComment(_) => Ran([])
  }

  function BlockLua(ls: seq<Lua>, env: Env): Result
    decreases ls, 0
  {
    if ls == [] then Ran([]) else Concat(RunLua(ls[0], env), BlockLua(ls[1..], env))
  }

  /** The rounds from `x` on, each with a local variable of its own; both bounds are numbers by now.  A step of zero
      does not occur. */
  function LoopLua(v: nat, x: int, limit: int, step: nat, body: seq<Lua>, env: Env): Result
    decreases body, 1, limit - x
  {
    if x > limit || step == 0 then Ran([])
    else Concat(BlockLua(body, env[v := x]), LoopLua(v, x + step, limit, step, body, env))
  }

  // ---------------------------------------------------------------- variables

  function TermVars(t: Term): set<nat> {
    match t case Const(_) => {} case Variable(v) => {v} case Scaled(_, v) => {v}
  }

  function AffineVars(a: Affine): set<nat> {
    match a case Start(_, t) => TermVars(t) case Plus(b, _, t) => AffineVars(b) + TermVars(t)
  }

  function BoundVars(b: Bound): set<nat> {
    match b
    case Linear(a) => AffineVars(a)
    case Max(x, y) => BoundVars(x) + BoundVars(y)
    case Min(x, y) => BoundVars(x) + BoundVars(y)
  }

  function CondVars(c: Cond): set<nat> {
    match c
    case Compare(x, _, y) => BoundVars(x) + BoundVars(y)
    case And(a, b) => CondVars(a) + CondVars(b)
    case Or(a, b) => CondVars(a) + CondVars(b)
  }

  function ArgsVars(args: seq<Affine>): set<nat> {
    if args == [] then {} else AffineVars(args[0]) + ArgsVars(args[1..])
  }

  /** Two environments that cannot be told apart by these variables. */
  predicate SameOn(a: Env, b: Env, vs: set<nat>) {
    forall v :: v in vs ==> (v in a <==> v in b) && (v in a ==> a[v] == b[v])
  }

  lemma {:induction false} SameAffine(e: Affine, a: Env, b: Env)
    requires SameOn(a, b, AffineVars(e))
    ensures AffineVal(e, a) == AffineVal(e, b)
  {
    match e {
      case Start(_, t) =>
      case Plus(x, _, t) => SameAffine(x, a, b);
    }
  }

  lemma {:induction false} SameBound(e: Bound, a: Env, b: Env)
    requires SameOn(a, b, BoundVars(e))
    ensures BoundVal(e, a) == BoundVal(e, b)
  {
    match e {
      case Linear(x) => SameAffine(x, a, b);
      case Max(x, y) =>
        SameBound(x, a, b);
        SameBound(y, a, b);
      case Min(x, y) =>
        SameBound(x, a, b);
        SameBound(y, a, b);
    }
  }

  lemma {:induction false} SameCond(c: Cond, a: Env, b: Env)
    requires SameOn(a, b, CondVars(c))
    ensures HoldsC(c, a) == HoldsC(c, b) && HoldsLua(c, a) == HoldsLua(c, b)
  {
    match c {
      case Compare(x, _, y) =>
        SameBound(x, a, b);
        SameBound(y, a, b);
      case And(x, y) =>
        SameCond(x, a, b);
        SameCond(y, a, b);
      case Or(x, y) =>
        SameCond(x, a, b);
        SameCond(y, a, b);
    }
  }

  lemma {:induction false} SameTuple(args: seq<Affine>, a: Env, b: Env)
    requires SameOn(a, b, ArgsVars(args))
    ensures TupleC(args, a) == TupleC(args, b)
  {
    if args == [] {
    } else {
      SameAffine(args[0], a, b);
      SameTuple(args[1..], a, b);
    }
  }

  // ---------------------------------------------------------------- what has a value

  lemma {:induction false} AffineIsNum(a: Affine, env: Env)
    ensures AffineVal(a, env).Num? <==> AffineVars(a) <= env.Keys
  {
    match a {
      case Start(_, t) =>
      case Plus(b, _, t) => AffineIsNum(b, env);
    }
  }

  lemma {:induction false} BoundIsNum(b: Bound, env: Env)
    ensures BoundVal(b, env).Num? <==> BoundVars(b) <= env.Keys
  {
    match b {
      case Linear(a) => AffineIsNum(a, env);
      case Max(x, y) =>
        BoundIsNum(x, env);
        BoundIsNum(y, env);
      case Min(x, y) =>
        BoundIsNum(x, env);
        BoundIsNum(y, env);
    }
  }

  lemma {:induction false} CondIsSame(c: Cond, env: Env)
    requires CondVars(c) <= env.Keys
    ensures HoldsLua(c, env) == HoldsC(c, env) && HoldsC(c, env).Some?
  {
    match c {
      case Compare(x, _, y) =>
        BoundIsNum(x, env);
        BoundIsNum(y, env);
      case And(a, b) =>
        CondIsSame(a, env);
        CondIsSame(b, env);
      case Or(a, b) =>
        CondIsSame(a, env);
        CondIsSame(b, env);
    }
  }

  /** Lua's tuple is complete exactly when all its variables have values, and then it is that of C. */
  lemma {:induction false} TupleIsFull(args: seq<Affine>, env: Env)
    ensures ArgsVars(args) <= env.Keys ==> TupleC(args, env).Some? && TupleLua(args, env) == TupleC(args, env)
    ensures !(ArgsVars(args) <= env.Keys) ==> TupleLua(args, env).Some? ==> None in TupleLua(args, env).value
    ensures TupleC(args, env).Some? ==> None !in TupleC(args, env).value
  {
    if args == [] {
    } else {
      AffineIsNum(args[0], env);
      TupleIsFull(args[1..], env);
    }
  }

  // ---------------------------------------------------------------- programs in which every variable is in scope

  /** No loop reuses the variable of a loop around it, and every expression uses only variables of loops around it. */
  predicate Scoped(s: Stmt, scope: set<nat>)
    decreases s, 0
  {
    match s
    case For(_, v, lo, hi, _, body, _) =>
      v !in scope && BoundVars(lo) <= scope && BoundVars(hi) <= scope && AllScoped(body, scope + {v})
    case If(_, c, body, _) => CondVars(c) <= scope && AllScoped(body, scope)
    case Call(_, _, args) => ArgsVars(args) <= scope
    case Blank(_) => true
  }

  predicate AllScoped(ss: seq<Stmt>, scope: set<nat>)
    decreases ss, 0
  {
    ss != [] ==> Scoped(ss[0], scope) && AllScoped(ss[1..], scope)
  }

  /** The variables of the loops around a Lua statement have the same values in the C program, but for those that an
      inner loop has reused. */
  predicate Agree(ce: Env, le: Env, lost: set<nat>) {
    lost <= le.Keys && forall v :: v in le && v !in lost ==> v in ce && ce[v] == le[v]
  }

  /** From some amount of fuel on the C statement ends, having done what its image does, and the variables of the loops
      around it are unchanged. */
  lemma {:induction false} StmtAgrees(s: Stmt, ce: Env, le: Env) returns (fuel: nat, e: Env)
    requires WellFormed(s) && Scoped(s, le.Keys) && Agree(ce, le, {})
    ensures Agree(e, le, {}) && RunLua(Image(s), le).Ran?
    ensures forall f: nat :: f >= fuel ==> RunC(s, ce, f) == Done(e, RunLua(Image(s), le).trace)
    decreases s, 2
  {
    match s {
      case For(_, v, lo, hi, step, body, _) =>
        BoundIsNum(lo, le);
        BoundIsNum(hi, le);
        SameBound(lo, ce, le);
        var x := BoundVal(lo, ce).n;
        fuel, e := LoopAgrees(s, ce[v := x], le, x, BoundVal(hi, le).n);
      case If(_, c, body, _) =>
        CondIsSame(c, le);
        SameCond(c, ce, le);
        if HoldsC(c, ce).value {
          fuel, e := BlockAgrees(body, ce, le);
        } else {
          fuel, e := 0, ce;
        }
      case Call(_, _, args) =>
        TupleIsFull(args, le);
        SameTuple(args, ce, le);
        fuel, e := 0, ce;
      case Blank(_) => fuel, e := 0, ce;
    }
  }

  lemma {:induction false} BlockAgrees(ss: seq<Stmt>, ce: Env, le: Env) returns (fuel: nat, e: Env)
    requires AllWellFormed(ss) && AllScoped(ss, le.Keys) && Agree(ce, le, {})
    ensures Agree(e, le, {}) && BlockLua(Images(ss), le).Ran?
    ensures forall f: nat :: f >= fuel ==> BlockC(ss, ce, f) == Done(e, BlockLua(Images(ss), le).trace)
    decreases ss, 1
  {
    if ss == [] {
      fuel, e := 0, ce;
    } else {
      BlockOfImages(ss, le);
      var f1, e1 := StmtAgrees(ss[0], ce, le);
      var f2, e2 := BlockAgrees(ss[1..], e1, le);
      fuel, e := if f1 > f2 then f1 else f2, e2;
      var trace := BlockLua(Images(ss), le).trace;
      hide RunC, RunLua, BlockLua;
      forall f: nat | f >= fuel ensures BlockC(ss, ce, f) == Done(e, trace) {
        assert RunC(ss[0], ce, f) == Done(e1, RunLua(Image(ss[0]), le).trace);
      }
    }
  }

  lemma BlockOfImages(ss: seq<Stmt>, le: Env)
    requires ss != []
    ensures BlockLua(Images(ss), le) == Concat(RunLua(Image(ss[0]), le), BlockLua(Images(ss[1..]), le))
  {
    hide RunLua, Image;
    assert Images(ss)[1..] == Images(ss[1..]) && Images(ss)[0] == Image(ss[0]);
  }

  /** Testing and incrementing from `x` on is the same as going through the numbers fixed at the start. */
  lemma {:induction false} LoopAgrees(s: Stmt, ce: Env, le: Env, x: int, limit: int) returns (fuel: nat, e: Env)
    requires s.For? && WellFormed(s) && Scoped(s, le.Keys) && Agree(ce, le, {})
    requires s.v in ce && ce[s.v] == x && BoundVal(s.hi, le) == Num(limit)
    ensures Agree(e, le, {}) && LoopLua(s.v, x, limit, s.step, Images(s.body), le).Ran?
    ensures forall f: nat :: f >= fuel ==>
              LoopC(s, ce, f) == Done(e, LoopLua(s.v, x, limit, s.step, Images(s.body), le).trace)
    decreases s, 1, limit - x
  {
    SameBound(s.hi, ce, le);
    if x > limit {
      fuel, e := 0, ce;
    } else {
      assert le[s.v := x].Keys == le.Keys + {s.v};
      var f1, e1 := BlockAgrees(s.body, ce, le[s.v := x]);
      assert s.v in e1 && e1[s.v] == x by { assert s.v in le[s.v := x]; }
      assert Agree(e1, le, {}) by {
        forall v | v in le ensures v in e1 && e1[v] == le[v] { assert v in le[s.v := x]; }
      }
      var next := e1[s.v := x + s.step];
      var f2, e2 := LoopAgrees(s, next, le, x + s.step, limit);
      fuel, e := 1 + (if f1 > f2 then f1 else f2), e2;
      RoundsJoined(s, s.body, ce, le, x, limit, f1, e1, next, f2, e2, fuel);
    }
  }

  lemma RoundsJoined(s: Stmt, cs: seq<Stmt>, ce: Env, le: Env, x: int, limit: int,
                     f1: nat, e1: Env, next: Env, f2: nat, e2: Env, fuel: nat)
    requires s.For? && cs == s.body && s.step > 0 && BoundVal(s.hi, ce) == Num(limit)
    requires s.v in ce && ce[s.v] == x <= limit
    requires s.v in e1 && e1[s.v] == x && next == e1[s.v := x + s.step] && fuel > f1 && fuel > f2
    requires BlockLua(Images(cs), le[s.v := x]).Ran? && LoopLua(s.v, x + s.step, limit, s.step, Images(cs), le).Ran?
    requires forall f: nat :: f >= f1 ==> BlockC(cs, ce, f) == Done(e1, BlockLua(Images(cs), le[s.v := x]).trace)
    requires forall f: nat :: f >= f2 ==>
               LoopC(s, next, f) == Done(e2, LoopLua(s.v, x + s.step, limit, s.step, Images(cs), le).trace)
    ensures LoopLua(s.v, x, limit, s.step, Images(cs), le).Ran?
    ensures forall f: nat :: f >= fuel ==>
              LoopC(s, ce, f) == Done(e2, LoopLua(s.v, x, limit, s.step, Images(cs), le).trace)
  {
    var body := Images(cs);
    var t1, t2 := BlockLua(body, le[s.v := x]).trace, LoopLua(s.v, x + s.step, limit, s.step, body, le).trace;
    assert LoopLua(s.v, x, limit, s.step, body, le) == Ran(t1 + t2);
    hide BlockC, BlockLua, LoopLua, BoundVal, Images;
    forall f: nat | f >= fuel ensures LoopC(s, ce, f) == Done(e2, t1 + t2) {
      assert BlockC(cs, ce, f - 1) == Done(e1, t1);
      assert LoopC(s, next, f - 1) == Done(e2, t2);
    }
  }

  /** A program in which every expression uses only variables of loops around it, and no loop reuses one of them: both
      programs end, decide their conditions alike and emit the same tuples in the same order. */
  lemma SameTuples(ss: seq<Stmt>) returns (fuel: nat, e: Env)
    requires AllWellFormed(ss) && AllScoped(ss, {})
    ensures BlockLua(Images(ss), map[]).Ran?
    ensures forall f: nat :: f >= fuel ==> BlockC(ss, map[], f) == Done(e, BlockLua(Images(ss), map[]).trace)
  {
    var none: Env := map[];
    assert none.Keys == {};
    fuel, e := BlockAgrees(ss, none, none);
  }
}
