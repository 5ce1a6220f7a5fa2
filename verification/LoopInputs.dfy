/** Loop nests on which the C program and its translation differ, or agree although a variable is used outside its
    loop. */
module LoopInputs {
  import opened LoopNest
  import opened Options
  import opened LoopSemantics
  import opened LoopScopes

  /** `s1(t1);` */
  function EmitFirst(): seq<Stmt> {
    [Call("", 1, [Start(false, Variable(1))])]
  }

  /** `for (t1 = lo; t1 <= hi; t1++) body` */
  function Counting(lo: nat, hi: Bound, body: seq<Stmt>): Stmt {
    For("", 1, Linear(Start(false, Const(lo))), hi, 1, body, "")
  }

  function Number(n: nat): Bound {
    Linear(Start(false, Const(n)))
  }

  lemma OneStatement(s: Stmt, env: Env, fuel: nat)
    requires RunC(s, env, fuel).Done?
    ensures BlockC([s], env, fuel) == RunC(s, env, fuel)
  {
    hide RunC;
    var r := RunC(s, env, fuel);
    assert [s][1..] == [] && BlockC([], r.env, fuel) == Done(r.env, []);
    assert r.trace + [] == r.trace;
  }

  lemma OneTuple(env: Env, x: int)
    requires 1 in env && env[1] == x
    ensures forall f: nat :: BlockC(EmitFirst(), env, f) == Done(env, [Emitted([Some(x)])])
    ensures BlockLua(Images(EmitFirst()), env) == Ran([Emitted([Some(x)])])
  {
    var call, args := EmitFirst()[0], [Start(false, Variable(1))];
    assert [call][1..] == [] && args[1..] == [];
    assert TupleC(args[1..], env) == Some([]) && [Some(x)] + [] == [Some(x)];
    assert TupleC(args, env) == TupleLua(args, env) == Some([Some(x)]);
    var trace := [Emitted([Some(x)])];
    assert trace + [] == trace;
    forall f: nat ensures BlockC([call], env, f) == Done(env, trace) {
      assert RunC(call, env, f) == Done(env, trace) && BlockC([], env, f) == Done(env, []);
    }
    BlockOfImages([call], env);
    assert RunLua(Image(call), env) == Ran(trace) && BlockLua(Images([]), env) == Ran([]);
  }

  lemma NothingAfter(env: Env, r: Result)
    ensures BlockLua(Images([]), env) == Ran([]) && Concat(r, Ran([])) == r
  {
    if r.Ran? { assert r.trace + [] == r.trace; }
  }

  // ---------------------------------------------------------------- a bound that uses its own variable

  /** `for (t1 = 0; t1 <= 1-t1; t1++) s1(t1);` */
  function SelfBounded(): Stmt {
    Counting(0, Linear(Plus(Start(false, Const(1)), true, Variable(1))), EmitFirst())
  }

  /** The C program emits one tuple, the Lua program stops at the undefined variable. */
  lemma SelfBoundedDiffers()
    ensures NoneReuses([SelfBounded()], {}) && AllSettled([SelfBounded()], {})
    ensures var c := BlockC([SelfBounded()], map[], 2); c.Done? && c.trace == [Emitted([Some(0)])]
    ensures BlockLua(Images([SelfBounded()]), map[]) == Stopped
    ensures !KeepsScopes([SelfBounded()], 2)
  {
    var s := SelfBounded();
    assert [s][1..] == [] && EmitFirst()[1..] == [];
    SelfBoundedInC();
    BlockOfImages([s], map[]);
    hide BlockC, BlockLua, Images, WalkLoop;
    assert BoundVal(s.hi, map[]) == Error;
    assert 1 in BoundVars(s.hi);
  }

  lemma SelfBoundedInC()
    ensures var c := BlockC([SelfBounded()], map[], 2); c.Done? && c.trace == [Emitted([Some(0)])]
  {
    var s := SelfBounded();
    var none: Env, e1: Env, e2: Env := map[], map[1 := 0], map[1 := 1];
    assert BoundVal(s.lo, none) == Num(0) && BoundVal(s.hi, e1) == Num(1) && BoundVal(s.hi, e2) == Num(0);
    OneTuple(e1, 0);
    assert e1[1 := e1[1] + 1] == e2 && none[1 := 0] == e1;
    var trace := [Emitted([Some(0)])];
    hide BlockC;
    assert LoopC(s, e2, 1) == Done(e2, []);
    assert LoopC(s, e1, 2) == Done(e2, trace + []);
    assert RunC(s, none, 2) == LoopC(s, e1, 2);
    hide RunC, LoopC;
    OneStatement(s, none, 2);
  }

  // ---------------------------------------------------------------- a variable that is reused

  /** `for (t1 = 0; t1 <= 1; t1++) for (t1 = 5; t1 <= 5; t1++) s1(t1);` */
  function Reusing(): Stmt {
    Counting(0, Number(1), [Counting(5, Number(5), EmitFirst())])
  }

  const FIVE: Event := Emitted([Some(5)])

  /** In C the inner loop ends the outer one, in Lua it has a variable of its own. */
  lemma ReuseDiffers()
    ensures !NoneReuses([Reusing()], {})
    ensures var c := BlockC([Reusing()], map[], 2); c.Done? && c.trace == [FIVE]
    ensures BlockLua(Images([Reusing()]), map[]) == Ran([FIVE, FIVE])
    ensures !KeepsScopes([Reusing()], 2)
  {
    assert !NoReuse(Reusing(), {});
    ReuseInC();
    ReuseInLua();
    ReuseIsWellFormed();
    hide BlockC, BlockLua, Images, KeepsScopes, AllWellFormed, NoneReuses;
    LuaIsRight([Reusing()], 2);
    assert |[FIVE]| != |[FIVE, FIVE]|;
  }

  lemma ReuseIsWellFormed()
    ensures AllWellFormed([Reusing()])
  {
    var inner := Counting(5, Number(5), EmitFirst());
    assert EmitFirst()[1..] == [] && [inner][1..] == [] && [Reusing()][1..] == [];
    assert AllWellFormed(EmitFirst()) && WellFormed(inner) && AllWellFormed([inner]) && WellFormed(Reusing());
  }

  lemma ReuseInC()
    ensures var c := BlockC([Reusing()], map[], 2); c.Done? && c.trace == [FIVE]
  {
    var s, inner := Reusing(), Counting(5, Number(5), EmitFirst());
    var none: Env, e0: Env, e5: Env, e6: Env, e7: Env := map[], map[1 := 0], map[1 := 5], map[1 := 6], map[1 := 7];
    assert none[1 := 0] == e0 && e0[1 := 5] == e5 && e5[1 := 5 + 1] == e6 && e6[1 := 6 + 1] == e7;
    OneTuple(e5, 5);
    hide BlockC;
    assert LoopC(inner, e6, 0) == Done(e6, []);
    assert LoopC(inner, e5, 1) == Done(e6, [FIVE] + []);
    assert RunC(inner, e0, 1) == Done(e6, [FIVE]);
    OneStatement(inner, e0, 1);
    assert LoopC(s, e7, 1) == Done(e7, []);
    assert LoopC(s, e0, 2) == Done(e7, [FIVE] + []);
    assert RunC(s, none, 2) == LoopC(s, e0, 2);
    hide RunC, LoopC;
    OneStatement(s, none, 2);
  }

  lemma ReuseInLua()
    ensures BlockLua(Images([Reusing()]), map[]) == Ran([FIVE, FIVE])
  {
    var s, inner := Reusing(), Counting(5, Number(5), EmitFirst());
    var none: Env := map[];
    InnerInLua(none[1 := 0]);
    InnerInLua(none[1 := 1]);
    var body := Images([inner]);
    BlockOfImages([s], none);
    assert [s][1..] == [];
    hide BlockLua, Images;
    assert LoopLua(1, 2, 1, 1, body, none) == Ran([]);
    assert LoopLua(1, 1, 1, 1, body, none) == Ran([FIVE] + []);
    assert LoopLua(1, 0, 1, 1, body, none) == Ran([FIVE] + ([FIVE] + []));
    assert [FIVE] + ([FIVE] + []) == [FIVE, FIVE];
    assert RunLua(Image(s), none) == LoopLua(1, 0, 1, 1, body, none);
    hide RunLua, LoopLua;
    NothingAfter(none, Ran([FIVE, FIVE]));
  }

  lemma InnerInLua(env: Env)
    ensures BlockLua(Images([Counting(5, Number(5), EmitFirst())]), env) == Ran([FIVE])
  {
    var inner := Counting(5, Number(5), EmitFirst());
    OneTuple(env[1 := 5], 5);
    BlockOfImages([inner], env);
    assert [inner][1..] == [];
    var body := Images(EmitFirst());
    hide BlockLua, Images;
    assert LoopLua(1, 6, 5, 1, body, env) == Ran([]);
    assert LoopLua(1, 5, 5, 1, body, env) == Ran([FIVE] + []);
    assert [FIVE] + [] == [FIVE];
    assert RunLua(Image(inner), env) == LoopLua(1, 5, 5, 1, body, env);
    hide RunLua, LoopLua;
    NothingAfter(env, Ran([FIVE]));
  }

  // ---------------------------------------------------------------- a variable after its loop

  /** `t1 == n` */
  function IsNumber(n: nat): Cond {
    Compare(Linear(Start(false, Variable(1))), EQ, Number(n))
  }

  /** `for (t1 = 0; t1 <= 0; t1++) {} if (t1 == n) s1(t1);` */
  function Leftover(n: nat): seq<Stmt> {
    [Counting(0, Number(0), []), If("", IsNumber(n), EmitFirst(), "")]
  }

  function Asked(n: nat): seq<Event> {
    if n == 1 then [Decided(true), Emitted([Some(1)])] else [Decided(false)]
  }

  /** After the loop t1 is 1 in C and nil in Lua, which is equal to no number: although t1 is out of scope the two
      programs agree, exactly when the condition does not ask for 1. */
  lemma LeftoverDecided(n: nat)
    ensures NoneReuses(Leftover(n), {}) && !AllScoped(Leftover(n), {})
    ensures BlockC(Leftover(n), map[], 1).Done? && BlockC(Leftover(n), map[], 1).trace == Asked(n)
    ensures BlockLua(Images(Leftover(n)), map[]) == Ran([Decided(false)])
    ensures KeepsScopes(Leftover(n), 1) <==> n != 1
  {
    LeftoverScopes(n);
    AskedInC(n);
    AskedInLua(n);
    LeftoverIsWellFormed(n);
    hide BlockC, BlockLua, Images, KeepsScopes, AllWellFormed, NoneReuses, Leftover;
    LuaIsRight(Leftover(n), 1);
    assert |Asked(n)| == if n == 1 then 2 else 1;
  }

  lemma LeftoverScopes(n: nat)
    ensures NoneReuses(Leftover(n), {}) && !AllScoped(Leftover(n), {})
  {
    var s, t := Leftover(n)[0], Leftover(n)[1];
    assert Leftover(n)[1..] == [t] && [t][1..] == [] && EmitFirst()[1..] == [];
    assert 1 in CondVars(IsNumber(n));
    assert NoneReuses([], {1}) && NoReuse(s, {}) && NoneReuses(EmitFirst(), {});
    assert NoReuse(t, {}) && NoneReuses([t], {});
    assert !Scoped(t, {}) && !AllScoped([t], {});
  }

  lemma LeftoverIsWellFormed(n: nat)
    ensures AllWellFormed(Leftover(n))
  {
    var t := Leftover(n)[1];
    assert Leftover(n)[1..] == [t] && [t][1..] == [] && EmitFirst()[1..] == [];
    assert AllWellFormed(EmitFirst()) && WellFormed(t) && AllWellFormed([t]);
  }

  lemma AskedInC(n: nat)
    ensures BlockC(Leftover(n), map[], 1).Done? && BlockC(Leftover(n), map[], 1).trace == Asked(n)
  {
    var s, t := Leftover(n)[0], Leftover(n)[1];
    var none: Env, e0: Env, e1: Env := map[], map[1 := 0], map[1 := 1];
    assert none[1 := 0] == e0 && e0[1 := e0[1] + 1] == e1 && Leftover(n)[1..] == [t];
    OneTuple(e1, 1);
    assert BlockC([], e0, 0) == Done(e0, []);
    assert LoopC(s, e1, 0) == Done(e1, []);
    assert LoopC(s, e0, 1) == Done(e1, [] + []);
    assert RunC(s, none, 1) == Done(e1, []);
    assert HoldsC(IsNumber(n), e1) == Some(n == 1);
    assert [Decided(true)] + [Emitted([Some(1)])] == Asked(1) && [Decided(false)] + [] == [Decided(false)];
    assert RunC(t, e1, 1) == Done(e1, Asked(n));
    OneStatement(t, e1, 1);
    assert [] + Asked(n) == Asked(n);
  }

  lemma AskedInLua(n: nat)
    ensures BlockLua(Images(Leftover(n)), map[]) == Ran([Decided(false)])
  {
    var s, t := Leftover(n)[0], Leftover(n)[1];
    var none: Env := map[];
    assert Leftover(n)[1..] == [t] && [t][1..] == [];
    BlockOfImages(Leftover(n), none);
    BlockOfImages([t], none);
    NothingAfter(none, RunLua(Image(t), none));
    assert BlockLua([], none[1 := 0]) == Ran([]) && LoopLua(1, 1, 0, 1, [], none) == Ran([]);
    assert LoopLua(1, 0, 0, 1, [], none) == Ran([] + []);
    assert Images([]) == [] && RunLua(Image(s), none) == Ran([]);
    assert HoldsLua(IsNumber(n), none) == Some(false);
    assert RunLua(Image(t), none) == Ran([Decided(false)] + []);
    assert [] + [Decided(false)] == [Decided(false)] + [] == [Decided(false)];
  }
}
