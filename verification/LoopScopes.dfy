/** Exactly when the translation of a loop nest is right: the C program is followed, and nothing it evaluates may
    depend on a variable that is not that of a loop around it. */
module LoopScopes {
  import opened LoopNest
  import opened Options
  import opened LoopSemantics

  // ---------------------------------------------------------------- following the C program

  function Restrict(env: Env, vs: set<nat>): Env {
    map v | v in env && v in vs :: env[v]
  }

  /** The C program so far, with the variables of the loops around that an inner loop has reused, and that have lost
      their value thereby; or it has used a variable outside its loop. */
  datatype Walk = InScope(env: Env, lost: set<nat>) | Astray

  /** The C program is followed, `outer` being the variables of the loops around.  Bounds and tuples use only those; a
      condition may use others if it is decided as if they had no value. */
  function WalkStmt(s: Stmt, env: Env, outer: set<nat>, lost: set<nat>, fuel: nat): Walk
    decreases fuel, s, 1
  {
    match s
    case For(_, v, lo, hi, _, _, _) =>
      var x := BoundVal(lo, env);
      if BoundVars(lo) <= outer - lost && BoundVars(hi) <= outer - lost - {v} && x.Num?
      then WalkLoop(s, env[v := x.n], outer, lost, fuel)
      else Astray
    case If(_, c, body, _) =>
      var holds := HoldsC(c, env);
      if CondVars(c) * lost == {} && holds.Some? && HoldsLua(c, Restrict(env, outer - lost)) == holds
      then if holds.value then WalkBlock(body, env, outer, lost, fuel) else InScope(env, lost)
      else Astray
    case Call(_, _, args) => if ArgsVars(args) <= outer - lost then InScope(env, lost) else Astray
    case Blank(_) => InScope(env, lost)
  }

  function WalkBlock(ss: seq<Stmt>, env: Env, outer: set<nat>, lost: set<nat>, fuel: nat): Walk
    decreases fuel, ss, 0
  {
    if ss == [] then InScope(env, lost)
    else
      match WalkStmt(ss[0], env, outer, lost, fuel)
      case Astray => Astray
      case InScope(e, l) => WalkBlock(ss[1..], e, outer, l, fuel)
  }

  /** After a loop that reuses the variable of a loop around it, that variable is lost. */
  function WalkLoop(s: Stmt, env: Env, outer: set<nat>, lost: set<nat>, fuel: nat): Walk
    requires s.For?
    decreases fuel, s, 0
  {
    var limit := BoundVal(s.hi, env);
    if !(BoundVars(s.hi) <= outer - lost - {s.v}) || s.v !in env || !limit.Num? then Astray
    else if env[s.v] > limit.n then InScope(env, lost + (outer * {s.v}))
    else if fuel == 0 then Astray
    else
      match WalkBlock(s.body, env, outer + {s.v}, lost - {s.v}, fuel - 1)
      case Astray => Astray
      case InScope(e, l) =>
        if s.v in l || s.v !in e then Astray else WalkLoop(s, e[s.v := e[s.v] + s.step], outer, l, fuel - 1)
  }

  /** The C program keeps to its scopes as far as it runs. */
  predicate KeepsScopes(ss: seq<Stmt>, fuel: nat) {
    WalkBlock(ss, map[], {}, {}, fuel).InScope?
  }

  // ---------------------------------------------------------------- what can be said beforehand

  /** No loop reuses the variable of a loop around it. */
  predicate NoReuse(s: Stmt, scope: set<nat>)
    decreases s, 0
  {
    match s
    case For(_, v, _, _, _, body, _) => v !in scope && NoneReuses(body, scope + {v})
    case If(_, _, body, _) => NoneReuses(body, scope)
    case _ => true
  }

  predicate NoneReuses(ss: seq<Stmt>, scope: set<nat>)
    decreases ss, 0
  {
    ss != [] ==> NoReuse(ss[0], scope) && NoneReuses(ss[1..], scope)
  }

  /** A variable that stands alone is in scope. */
  predicate BareIn(b: Bound, scope: set<nat>) {
    match b
    case Linear(Start(false, Variable(v))) => v in scope
    case _ => true
  }

  /** No condition compares a variable outside its loop for equality, which in Lua would be a comparison with nil. */
  predicate CondSettled(c: Cond, scope: set<nat>) {
    match c
    case Compare(x, r, y) => (r == EQ || r == NE) ==> BareIn(x, scope) && BareIn(y, scope)
    case And(a, b) => CondSettled(a, scope) && CondSettled(b, scope)
    case Or(a, b) => CondSettled(a, scope) && CondSettled(b, scope)
  }

  predicate Settled(s: Stmt, scope: set<nat>)
    decreases s, 0
  {
    match s
    case For(_, v, _, _, _, body, _) => AllSettled(body, scope + {v})
    case If(_, c, body, _) => CondSettled(c, scope) && AllSettled(body, scope)
    case _ => true
  }

  predicate AllSettled(ss: seq<Stmt>, scope: set<nat>)
    decreases ss, 0
  {
    ss != [] ==> Settled(ss[0], scope) && AllSettled(ss[1..], scope)
  }

  // ---------------------------------------------------------------- runs that differ

  /** The two have gone apart at some event. */
  predicate Differ(a: seq<Event>, b: seq<Event>) {
    exists i :: 0 <= i < |a| && i < |b| && a[i] != b[i]
  }

  predicate Hole(e: Event) {
    e.Emitted? && None in e.tuple
  }

  predicate HasHole(trace: seq<Event>) {
    exists i :: 0 <= i < |trace| && Hole(trace[i])
  }

  /** The Lua program stops, or goes apart from the C program. */
  predicate Off(l: Result, trace: seq<Event>) {
    l.Ran? ==> Differ(l.trace, trace)
  }

  /** The Lua program stops, or leaves a hole in a tuple. */
  predicate Holed(l: Result) {
    l.Ran? ==> HasHole(l.trace)
  }

  lemma DifferEarly(a: seq<Event>, b: seq<Event>, x: seq<Event>, y: seq<Event>)
    requires Differ(a, b)
    ensures Differ(a + x, b + y)
  {
    var i :| 0 <= i < |a| && i < |b| && a[i] != b[i];
    assert (a + x)[i] == a[i] && (b + y)[i] == b[i];
  }

  lemma DifferLater(p: seq<Event>, a: seq<Event>, b: seq<Event>)
    requires Differ(a, b)
    ensures Differ(p + a, p + b)
  {
    var i :| 0 <= i < |a| && i < |b| && a[i] != b[i];
    assert (p + a)[|p| + i] == a[i] && (p + b)[|p| + i] == b[i];
  }

  lemma HoleJoined(a: seq<Event>, b: seq<Event>)
    ensures HasHole(a + b) <==> HasHole(a) || HasHole(b)
  {
    if HasHole(a) {
      var i :| 0 <= i < |a| && Hole(a[i]);
      assert Hole((a + b)[i]);
    }
    if HasHole(b) {
      var i :| 0 <= i < |b| && Hole(b[i]);
      assert Hole((a + b)[|a| + i]);
    }
    if HasHole(a + b) {
      var i :| 0 <= i < |a + b| && Hole((a + b)[i]);
      assert i < |a| ==> Hole(a[i]);
      assert i >= |a| ==> Hole(b[i - |a|]);
    }
  }

  lemma OffFirst(a: Result, x: seq<Event>, b: Result, y: seq<Event>)
    ensures Off(a, x) ==> Off(Concat(a, b), x + y)
    ensures Holed(a) ==> Holed(Concat(a, b))
  {
    hide Differ, HasHole;
    if a.Ran? && b.Ran? {
      if Differ(a.trace, x) { DifferEarly(a.trace, x, b.trace, y); }
      HoleJoined(a.trace, b.trace);
    }
  }

  lemma OffSecond(x: seq<Event>, b: Result, y: seq<Event>)
    ensures Off(b, y) ==> Off(Concat(Ran(x), b), x + y)
    ensures Holed(b) ==> Holed(Concat(Ran(x), b))
  {
    hide Differ, HasHole;
    if b.Ran? {
      if Differ(b.trace, y) { DifferLater(x, b.trace, y); }
      HoleJoined(x, b.trace);
    }
  }

  // ---------------------------------------------------------------- single expressions

  lemma RestrictedSame(ce: Env, le: Env, lost: set<nat>, vs: set<nat>)
    requires Agree(ce, le, lost) && vs * lost == {}
    ensures SameOn(Restrict(ce, le.Keys - lost), le, vs)
  {
    forall v | v in vs ensures v !in lost { assert v in lost ==> v in vs * lost; }
  }

  lemma InScopeSame(ce: Env, le: Env, lost: set<nat>, vs: set<nat>)
    requires Agree(ce, le, lost) && vs <= le.Keys - lost
    ensures SameOn(ce, le, vs)
  {
  }

  /** A value that is no number is an error, unless it is a variable standing alone. */
  lemma BareOrError(b: Bound, env: Env)
    requires BareIn(b, env.Keys)
    ensures !BoundVal(b, env).Nil?
  {
  }

  /** If every comparison for equality is settled, Lua decides a condition as C does or stops. */
  lemma {:induction false} SettledDecided(c: Cond, env: Env, scope: set<nat>)
    requires CondSettled(c, scope) && HoldsC(c, env).Some?
    ensures HoldsLua(c, Restrict(env, scope)) in [None, HoldsC(c, env)]
  {
    var inner := Restrict(env, scope);
    match c {
      case Compare(x, r, y) =>
        SettledSide(x, env, scope, r);
        SettledSide(y, env, scope, r);
      case And(a, b) =>
        SettledDecided(a, env, scope);
        if HoldsC(a, env) == Some(true) { SettledDecided(b, env, scope); }
      case Or(a, b) =>
        SettledDecided(a, env, scope);
        if HoldsC(a, env) == Some(false) { SettledDecided(b, env, scope); }
    }
  }

  lemma SettledSide(b: Bound, env: Env, scope: set<nat>, r: Relation)
    requires BoundVal(b, env).Num?
    ensures var x := BoundVal(b, Restrict(env, scope));
            && (x.Num? ==> x == BoundVal(b, env))
            && (BareIn(b, scope) ==> !x.Nil?)
  {
    BoundIsNum(b, env);
    BoundIsNum(b, Restrict(env, scope));
    if BoundVars(b) <= Restrict(env, scope).Keys { SameBound(b, env, Restrict(env, scope)); }
    if BareIn(b, scope) && !(BoundVars(b) <= Restrict(env, scope).Keys) {
      BareKeys(b, env, scope);
      BareOrError(b, Restrict(env, scope));
    }
  }

  lemma BareKeys(b: Bound, env: Env, scope: set<nat>)
    requires BareIn(b, scope) && BoundVars(b) <= env.Keys
    ensures BareIn(b, Restrict(env, scope).Keys)
  {
    match b {
      case Linear(Start(false, Variable(v))) => assert v in BoundVars(b);
      case _ =>
    }
  }

  // ---------------------------------------------------------------- in scope or astray

  /** What following a C statement from agreeing environments tells about its image: in scope, the image does the same;
      astray, and without reuse, it goes apart. */
  predicate Told(w: Walk, r: Outcome, l: Result, le: Env, lost: set<nat>, plain: bool, settled: bool)
    requires r.Done?
  {
    && (w.InScope? ==> w.env == r.env && lost <= w.lost && Agree(r.env, le, w.lost) && l == Ran(r.trace))
    && (plain && w.InScope? ==> w.lost == {})
    && (plain && w.Astray? ==> Off(l, r.trace) && (settled ==> Holed(l)))
  }

  lemma OneEvent(e: Event)
    ensures HasHole([e]) <==> Hole(e)
  {
    assert [e][0] == e;
  }

  lemma OneDiffers(a: Event, b: Event)
    requires a != b
    ensures Differ([a], [b])
  {
    assert [a][0] != [b][0];
  }

  lemma TupleTold(args: seq<Affine>, ce: Env, le: Env, lost: set<nat>)
    requires Agree(ce, le, lost) && TupleC(args, ce).Some?
    ensures var c, l := TupleC(args, ce).value, TupleLua(args, le);
            && None !in c && (ArgsVars(args) <= le.Keys - lost ==> l == Some(c))
            && (!(ArgsVars(args) <= le.Keys) ==> l.Some? ==> None in l.value)
  {
    TupleIsFull(args, ce);
    TupleIsFull(args, le);
    if ArgsVars(args) <= le.Keys - lost {
      InScopeSame(ce, le, lost, ArgsVars(args));
      SameTuple(args, ce, le);
    }
  }

  lemma CallTold(s: Stmt, ce: Env, le: Env, lost: set<nat>, fuel: nat)
    requires s.Call? && Agree(ce, le, lost) && RunC(s, ce, fuel).Done?
    ensures Told(WalkStmt(s, ce, le.Keys, lost, fuel), RunC(s, ce, fuel), RunLua(Image(s), le), le, lost,
                 lost == {}, true)
  {
    TupleTold(s.args, ce, le, lost);
    var tuple := TupleC(s.args, ce).value;
    OneEvent(Emitted(tuple));
    var l := TupleLua(s.args, le);
    if !(ArgsVars(s.args) <= le.Keys) && l.Some? {
      OneEvent(Emitted(l.value));
      OneDiffers(Emitted(l.value), Emitted(tuple));
    }
    hide Differ, HasHole;
  }

  /** The condition of an `if`: in Lua it is decided by the C values of the variables in scope. */
  lemma CondTold(c: Cond, ce: Env, le: Env, lost: set<nat>)
    requires Agree(ce, le, lost) && CondVars(c) * lost == {}
    ensures HoldsLua(c, Restrict(ce, le.Keys - lost)) == HoldsLua(c, le)
  {
    RestrictedSame(ce, le, lost, CondVars(c));
    SameCond(c, Restrict(ce, le.Keys - lost), le);
  }

  lemma IfTold(s: Stmt, ce: Env, le: Env, lost: set<nat>, fuel: nat, plain: bool, settled: bool)
    requires s.If? && Agree(ce, le, lost) && RunC(s, ce, fuel).Done? && (plain ==> lost == {})
    requires settled ==> CondSettled(s.cond, le.Keys)
    requires HoldsC(s.cond, ce) == Some(true) ==>
               var body := BlockC(s.body, ce, fuel);
               body.Done? && Told(WalkBlock(s.body, ce, le.Keys, lost, fuel), body, BlockLua(Images(s.body), le),
                                  le, lost, plain, settled)
    ensures Told(WalkStmt(s, ce, le.Keys, lost, fuel), RunC(s, ce, fuel), RunLua(Image(s), le), le, lost, plain,
                 settled)
  {
    hide Differ, HasHole, BlockC, BlockLua, WalkBlock, Images;
    var holds := HoldsC(s.cond, ce).value;
    var first := [Decided(holds)];
    OneEvent(Decided(holds));
    var body := if holds then BlockC(s.body, ce, fuel) else Done(ce, []);
    var l := if holds then BlockLua(Images(s.body), le) else Ran([]);
    OffSecond(first, l, body.trace);
    if CondVars(s.cond) * lost == {} {
      CondTold(s.cond, ce, le, lost);
      var lua := HoldsLua(s.cond, le);
      if lua.Some? && lua.value != holds {
        OneDiffers(Decided(lua.value), Decided(holds));
        var l' := if lua.value then BlockLua(Images(s.body), le) else Ran([]);
        OffFirst(Ran([Decided(lua.value)]), first, l', body.trace);
      }
      if settled && plain {
        assert le.Keys - {} == le.Keys;
        SettledDecided(s.cond, ce, le.Keys);
      }
    }
  }

  /** The loops around a statement, and following it. */
  lemma {:induction false} StmtTold(s: Stmt, ce: Env, le: Env, lost: set<nat>, fuel: nat)
    requires WellFormed(s) && Agree(ce, le, lost) && RunC(s, ce, fuel).Done?
    ensures Told(WalkStmt(s, ce, le.Keys, lost, fuel), RunC(s, ce, fuel), RunLua(Image(s), le), le, lost,
                 lost == {} && NoReuse(s, le.Keys), Settled(s, le.Keys))
    decreases fuel, s, 1
  {
    match s {
      case For(_, v, lo, hi, _, _, _) => ForTold(s, ce, le, lost, fuel);
      case If(_, c, body, _) =>
        if HoldsC(c, ce) == Some(true) { BlockTold(body, ce, le, lost, fuel); }
        IfTold(s, ce, le, lost, fuel, lost == {} && NoReuse(s, le.Keys), Settled(s, le.Keys));
      case Call(_, _, args) => CallTold(s, ce, le, lost, fuel);
      case Blank(_) =>
    }
  }

  lemma {:induction false} BlockTold(ss: seq<Stmt>, ce: Env, le: Env, lost: set<nat>, fuel: nat)
    requires AllWellFormed(ss) && Agree(ce, le, lost) && BlockC(ss, ce, fuel).Done?
    ensures Told(WalkBlock(ss, ce, le.Keys, lost, fuel), BlockC(ss, ce, fuel), BlockLua(Images(ss), le), le, lost,
                 lost == {} && NoneReuses(ss, le.Keys), AllSettled(ss, le.Keys))
    decreases fuel, ss, 0
  {
    if ss == [] {
    } else {
      StmtTold(ss[0], ce, le, lost, fuel);
      var w, r := WalkStmt(ss[0], ce, le.Keys, lost, fuel), RunC(ss[0], ce, fuel);
      var l, later := RunLua(Image(ss[0]), le), BlockLua(Images(ss[1..]), le);
      var rest := BlockC(ss[1..], r.env, fuel);
      BlockOfImages(ss, le);
      OffFirst(l, r.trace, later, rest.trace);
      OffSecond(r.trace, later, rest.trace);
      hide Differ, HasHole, RunC, RunLua, BlockLua, WalkStmt, Images, Image, NoReuse, Settled, WellFormed;
      if w.InScope? {
        BlockTold(ss[1..], r.env, le, w.lost, fuel);
      }
    }
  }

  lemma {:induction false} ForTold(s: Stmt, ce: Env, le: Env, lost: set<nat>, fuel: nat)
    requires s.For? && WellFormed(s) && Agree(ce, le, lost) && RunC(s, ce, fuel).Done?
    ensures Told(WalkStmt(s, ce, le.Keys, lost, fuel), RunC(s, ce, fuel), RunLua(Image(s), le), le, lost,
                 lost == {} && NoReuse(s, le.Keys), Settled(s, le.Keys))
    decreases fuel, s, 1, 0
  {
    hide LoopC, LoopLua, WalkLoop, Off, Holed, Images;
    BoundIsNum(s.lo, le);
    BoundIsNum(s.hi, le);
    if BoundVars(s.lo) <= le.Keys - lost && BoundVars(s.hi) <= le.Keys - lost - {s.v} {
      InScopeSame(ce, le, lost, BoundVars(s.lo));
      SameBound(s.lo, ce, le);
      LoopTold(s, ce[s.v := BoundVal(s.lo, ce).n], le, lost, BoundVal(s.hi, le).n, fuel);
    } else if lost == {} && NoReuse(s, le.Keys) {
      StoppedIsOff(RunC(s, ce, fuel).trace);
    }
  }

  lemma StoppedIsOff(trace: seq<Event>)
    ensures Off(Stopped, trace) && Holed(Stopped)
  {
  }

  /** The rounds of a loop from the current value of its variable on, `limit` being the bound fixed at the start. */
  lemma {:induction false} LoopTold(s: Stmt, ce: Env, le: Env, lost: set<nat>, limit: int, fuel: nat)
    requires s.For? && WellFormed(s) && lost <= le.Keys && Agree(ce, le, lost + (le.Keys * {s.v})) && s.v in ce
    requires BoundVars(s.hi) <= le.Keys && BoundVal(s.hi, le) == Num(limit) && LoopC(s, ce, fuel).Done?
    ensures var w := WalkLoop(s, ce, le.Keys, lost, fuel);
            && (w.InScope? ==> le.Keys * {s.v} <= w.lost)
            && Told(w, LoopC(s, ce, fuel), LoopLua(s.v, ce[s.v], limit, s.step, Images(s.body), le), le, lost,
                    lost == {} && NoReuse(s, le.Keys), Settled(s, le.Keys))
    decreases fuel, s, 0, 1
  {
    if BoundVars(s.hi) <= le.Keys - lost - {s.v} {
      SameBound(s.hi, ce, le);
      if ce[s.v] <= limit {
        RoundTold(s, ce, le, lost, limit, fuel);
      } else {
        hide BlockC, BlockLua, WalkBlock, Images, Off, Holed;
      }
    } else {
      hide LoopC, LoopLua, Images, Off, Holed;
    }
  }

  lemma {:induction false} RoundTold(s: Stmt, ce: Env, le: Env, lost: set<nat>, limit: int, fuel: nat)
    requires s.For? && WellFormed(s) && lost <= le.Keys && Agree(ce, le, lost + (le.Keys * {s.v})) && s.v in ce
    requires BoundVars(s.hi) <= le.Keys - lost - {s.v} && BoundVal(s.hi, le) == BoundVal(s.hi, ce) == Num(limit)
    requires ce[s.v] <= limit && LoopC(s, ce, fuel).Done?
    ensures var w := WalkLoop(s, ce, le.Keys, lost, fuel);
            && (w.InScope? ==> le.Keys * {s.v} <= w.lost)
            && Told(w, LoopC(s, ce, fuel), LoopLua(s.v, ce[s.v], limit, s.step, Images(s.body), le), le, lost,
                    lost == {} && NoReuse(s, le.Keys), Settled(s, le.Keys))
    decreases fuel, s, 0, 0
  {
    hide BlockC, BlockLua, WalkBlock, WalkLoop, LoopC, LoopLua, Images, BoundVal, BoundVars, Told, Agree, AllWellFormed;
    hide NoneReuses, AllSettled;
    var v, x := s.v, ce[s.v];
    var le' := le[v := x];
    var plain, settled := lost == {} && NoReuse(s, le.Keys), Settled(s, le.Keys);
    InnerAgrees(ce, le, lost, v);
    RoundUnfolds(s, ce, le, lost, limit, fuel);
    BodyTold(s, ce, le, lost, fuel - 1);
    var w, r := WalkBlock(s.body, ce, le.Keys + {v}, lost - {v}, fuel - 1), BlockC(s.body, ce, fuel - 1);
    var l := BlockLua(Images(s.body), le');
    var next := r.env[v := r.env[v] + s.step];
    var later, rest := LoopLua(v, x + s.step, limit, s.step, Images(s.body), le), LoopC(s, next, fuel - 1);
    InScopeFacts(w, r, l, le', lost - {v}, plain, settled);
    if w.InScope? && v !in w.lost {
      NextAgrees(r.env, le, w.lost, v, x, x + s.step);
      LoopTold(s, next, le, w.lost, limit, fuel - 1);
      var w2 := WalkLoop(s, next, le.Keys, w.lost, fuel - 1);
      Weaker(w2, rest, later, le, w.lost, w.lost == {} && NoReuse(s, le.Keys), plain, settled);
      InScopeFacts(w2, rest, later, le, w.lost, plain, settled);
      LostKept(lost, w.lost, if w2.InScope? then w2.lost else lost, le.Keys, v);
      ToldLater(r, w2, rest, later, le, w.lost, lost, plain, settled);
    } else {
      ToldAstray(w, r, l, rest, later, le', le, lost - {v}, lost, plain, settled);
    }
  }

  lemma {:induction false} BodyTold(s: Stmt, ce: Env, le: Env, lost: set<nat>, fuel: nat)
    requires s.For? && WellFormed(s) && s.v in ce && Agree(ce, le[s.v := ce[s.v]], lost - {s.v})
    requires BlockC(s.body, ce, fuel).Done?
    ensures Told(WalkBlock(s.body, ce, le.Keys + {s.v}, lost - {s.v}, fuel), BlockC(s.body, ce, fuel),
                 BlockLua(Images(s.body), le[s.v := ce[s.v]]), le[s.v := ce[s.v]], lost - {s.v},
                 lost == {} && NoReuse(s, le.Keys), Settled(s, le.Keys))
    decreases fuel, s
  {
    hide BlockC, BlockLua, WalkBlock, Images, Told, Agree, AllWellFormed, NoneReuses, AllSettled;
    var le' := le[s.v := ce[s.v]];
    assert le'.Keys == le.Keys + {s.v};
    BlockTold(s.body, ce, le', lost - {s.v}, fuel);
    Weaker(WalkBlock(s.body, ce, le'.Keys, lost - {s.v}, fuel), BlockC(s.body, ce, fuel), BlockLua(Images(s.body), le'),
           le', lost - {s.v}, lost - {s.v} == {} && NoneReuses(s.body, le'.Keys), lost == {} && NoReuse(s, le.Keys),
           AllSettled(s.body, le'.Keys));
  }

  lemma Weaker(w: Walk, r: Outcome, l: Result, le: Env, lost: set<nat>, plain: bool, plain': bool, settled: bool)
    requires r.Done? && (plain' ==> plain) && Told(w, r, l, le, lost, plain, settled)
    ensures Told(w, r, l, le, lost, plain', settled)
  {
    hide Agree, Off, Holed;
  }

  lemma LostKept(lost: set<nat>, lost1: set<nat>, lost2: set<nat>, keys: set<nat>, v: nat)
    requires lost <= keys && lost - {v} <= lost1
    ensures lost1 <= lost2 && keys * {v} <= lost2 ==> lost <= lost2
  {
    if lost1 <= lost2 && keys * {v} <= lost2 {
      forall x | x in lost ensures x in lost2 {
        if x == v { assert x in keys * {v}; } else { assert x in lost - {v}; }
      }
    }
  }

  lemma InScopeFacts(w: Walk, r: Outcome, l: Result, le: Env, lost: set<nat>, plain: bool, settled: bool)
    requires r.Done? && Told(w, r, l, le, lost, plain, settled)
    ensures w.InScope? ==> w.env == r.env && lost <= w.lost && Agree(r.env, le, w.lost) && l == Ran(r.trace)
    ensures plain && w.InScope? ==> w.lost == {}
  {
    hide Agree, Off, Holed;
  }

  /** The first part is in scope: what is told of the second is told of both. */
  lemma ToldLater(r: Outcome, w2: Walk, r2: Outcome, l2: Result, le: Env, lost1: set<nat>, lost: set<nat>,
                  plain: bool, settled: bool)
    requires r.Done? && r2.Done? && (w2.InScope? ==> lost <= w2.lost)
    requires Told(w2, r2, l2, le, lost1, plain, settled)
    ensures Told(w2, Append(r.trace, r2), Concat(Ran(r.trace), l2), le, lost, plain, settled)
  {
    OffSecond(r.trace, l2, r2.trace);
    hide Agree, Off, Holed;
  }

  /** The first part goes astray, and so do both. */
  lemma ToldAstray(w: Walk, r: Outcome, l: Result, r2: Outcome, l2: Result, le': Env, le: Env, lost': set<nat>,
                   lost: set<nat>, plain: bool, settled: bool)
    requires r.Done? && r2.Done? && (plain ==> w.Astray?) && Told(w, r, l, le', lost', plain, settled)
    ensures Told(Astray, Append(r.trace, r2), Concat(l, l2), le, lost, plain, settled)
  {
    OffFirst(l, r.trace, l2, r2.trace);
    hide Agree, Off, Holed;
  }

  /** One round of the loop, in C, followed, and in Lua. */
  lemma RoundUnfolds(s: Stmt, ce: Env, le: Env, lost: set<nat>, limit: int, fuel: nat)
    requires s.For? && s.step > 0 && s.v in ce && BoundVars(s.hi) <= le.Keys - lost - {s.v}
    requires BoundVal(s.hi, ce) == Num(limit) && ce[s.v] <= limit && LoopC(s, ce, fuel).Done?
    ensures var v, x := s.v, ce[s.v];
            && fuel > 0 && BlockC(s.body, ce, fuel - 1).Done?
            && var r, w := BlockC(s.body, ce, fuel - 1), WalkBlock(s.body, ce, le.Keys + {v}, lost - {v}, fuel - 1);
            && v in r.env
            && var next := r.env[v := r.env[v] + s.step];
            && LoopC(s, next, fuel - 1).Done?
            && LoopC(s, ce, fuel) == Append(r.trace, LoopC(s, next, fuel - 1))
            && (w.Astray? ==> WalkLoop(s, ce, le.Keys, lost, fuel) == Astray)
            && (w.InScope? && w.env == r.env ==>
                  WalkLoop(s, ce, le.Keys, lost, fuel)
                  == if v in w.lost then Astray else WalkLoop(s, next, le.Keys, w.lost, fuel - 1))
            && LoopLua(v, x, limit, s.step, Images(s.body), le)
               == Concat(BlockLua(Images(s.body), le[v := x]),
                         LoopLua(v, x + s.step, limit, s.step, Images(s.body), le))
  {
    hide BlockC, BlockLua, WalkBlock, Images, BoundVal, BoundVars;
  }

  lemma InnerAgrees(ce: Env, le: Env, lost: set<nat>, v: nat)
    requires lost <= le.Keys && Agree(ce, le, lost + (le.Keys * {v})) && v in ce
    ensures Agree(ce, le[v := ce[v]], lost - {v})
  {
  }

  lemma NextAgrees(e: Env, le: Env, lost: set<nat>, v: nat, x: int, next: int)
    requires Agree(e, le[v := x], lost) && v !in lost
    ensures v in e && e[v] == x && lost <= le.Keys && Agree(e[v := next], le, lost + (le.Keys * {v}))
  {
    assert v in le[v := x];
    forall u | u in le && u !in lost && u != v ensures u in e && e[u] == le[u] { assert u in le[v := x]; }
  }

  // ---------------------------------------------------------------- C leaves no holes

  lemma {:induction false} StmtFull(s: Stmt, env: Env, fuel: nat)
    requires RunC(s, env, fuel).Done?
    ensures !HasHole(RunC(s, env, fuel).trace)
    decreases fuel, s, 1
  {
    match s {
      case For(_, v, lo, _, _, _, _) => LoopFull(s, env[v := BoundVal(lo, env).n], fuel);
      case If(_, c, body, _) =>
        var holds := HoldsC(c, env).value;
        OneEvent(Decided(holds));
        if holds { BlockFull(body, env, fuel); }
        HoleJoined([Decided(holds)], if holds then BlockC(body, env, fuel).trace else []);
      case Call(_, _, args) =>
        TupleIsFull(args, env);
        OneEvent(Emitted(TupleC(args, env).value));
      case Blank(_) =>
    }
  }

  lemma {:induction false} BlockFull(ss: seq<Stmt>, env: Env, fuel: nat)
    requires BlockC(ss, env, fuel).Done?
    ensures !HasHole(BlockC(ss, env, fuel).trace)
    decreases fuel, ss, 0
  {
    if ss == [] {
    } else {
      StmtFull(ss[0], env, fuel);
      var r := RunC(ss[0], env, fuel);
      BlockFull(ss[1..], r.env, fuel);
      HoleJoined(r.trace, BlockC(ss[1..], r.env, fuel).trace);
    }
  }

  lemma {:induction false} LoopFull(s: Stmt, env: Env, fuel: nat)
    requires s.For? && LoopC(s, env, fuel).Done?
    ensures !HasHole(LoopC(s, env, fuel).trace)
    decreases fuel, s, 0
  {
    hide BlockC;
    if env[s.v] <= BoundVal(s.hi, env).n {
      BlockFull(s.body, env, fuel - 1);
      var r := BlockC(s.body, env, fuel - 1);
      var next := r.env[s.v := r.env[s.v] + s.step];
      LoopFull(s, next, fuel - 1);
      HoleJoined(r.trace, LoopC(s, next, fuel - 1).trace);
    }
  }

  // ---------------------------------------------------------------- the theorem

  /** The tuples emitted. */
  function Tuples(trace: seq<Event>): seq<seq<Option<int>>> {
    if trace == [] then []
    else (if trace[0].Emitted? then [trace[0].tuple] else []) + Tuples(trace[1..])
  }

  lemma {:induction false} TuplesHole(trace: seq<Event>)
    ensures HasHole(trace) <==> exists i :: 0 <= i < |Tuples(trace)| && None in Tuples(trace)[i]
  {
    if trace == [] {
    } else {
      var first, rest := trace[0], trace[1..];
      TuplesHole(rest);
      assert trace == [first] + rest;
      HoleJoined([first], rest);
      OneEvent(first);
      hide HasHole;
      var ts := Tuples(rest);
      if first.Emitted? {
        assert Tuples(trace) == [first.tuple] + ts;
        assert forall i :: 0 <= i < |ts| ==> Tuples(trace)[i + 1] == ts[i];
        assert Tuples(trace)[0] == first.tuple;
      } else {
        assert Tuples(trace) == ts;
      }
    }
  }

  /** When is the translation of a program right whose C run ends?  If the C run keeps to its scopes, the Lua program
      decides every condition as it does and emits the same tuples.  Where no loop reuses the variable of a loop around
      it, only then; and where moreover no condition compares a variable outside its loop for equality, only then does
      it emit the same tuples. */
  lemma LuaIsRight(ss: seq<Stmt>, fuel: nat)
    requires AllWellFormed(ss) && BlockC(ss, map[], fuel).Done?
    ensures var c, lua := BlockC(ss, map[], fuel), BlockLua(Images(ss), map[]);
            && (KeepsScopes(ss, fuel) ==> lua == Ran(c.trace))
            && (NoneReuses(ss, {}) ==> (KeepsScopes(ss, fuel) <==> lua == Ran(c.trace)))
            && (NoneReuses(ss, {}) && AllSettled(ss, {}) ==>
                  (KeepsScopes(ss, fuel) <==> lua.Ran? && Tuples(lua.trace) == Tuples(c.trace)))
  {
    hide BlockC, BlockLua, WalkBlock, Images, AllSettled, NoneReuses, AllWellFormed, HasHole, Differ, Tuples;
    var none: Env := map[];
    assert none.Keys == {};
    var c, lua := BlockC(ss, none, fuel), BlockLua(Images(ss), none);
    BlockTold(ss, none, none, {}, fuel);
    BlockFull(ss, none, fuel);
    TuplesHole(c.trace);
    if lua.Ran? {
      TuplesHole(lua.trace);
      SameIsNoDifference(c.trace);
    }
  }

  lemma SameIsNoDifference(a: seq<Event>)
    ensures !Differ(a, a)
  {
  }
}
