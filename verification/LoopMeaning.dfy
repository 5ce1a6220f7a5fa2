/** What a loop nest lists, said without running it: every variable goes, in increasing order, through the integers
    that its bounds and its step admit, and a statement is reached where all conditions around it are satisfied. */
module LoopMeaning {
  import opened Decimals
  import opened LoopNest
  import opened Options
  import opened LoopSemantics
  import opened LoopScopes

  // ---------------------------------------------------------------- expressions as integers

  function TermNumber(t: Term, env: Env): int
    requires TermVars(t) <= env.Keys
  {
    match t case Const(n) => n case Variable(v) => env[v] case Scaled(n, v) => n * env[v]
  }

  /** The sum of the terms, each with its sign. */
  function Number(a: Affine, env: Env): int
    requires AffineVars(a) <= env.Keys
  {
    match a
    case Start(negative, t) => if negative then 0 - TermNumber(t, env) else TermNumber(t, env)
    case Plus(b, negative, t) => Number(b, env) + (if negative then 0 - TermNumber(t, env) else TermNumber(t, env))
  }

  /** At least a maximum is what is at least both, at least a minimum what is at least one. */
  predicate AtLeast(x: int, b: Bound, env: Env)
    requires BoundVars(b) <= env.Keys
  {
    match b
    case Linear(a) => x >= Number(a, env)
    case Max(p, q) => AtLeast(x, p, env) && AtLeast(x, q, env)
    case Min(p, q) => AtLeast(x, p, env) || AtLeast(x, q, env)
  }

  predicate AtMost(x: int, b: Bound, env: Env)
    requires BoundVars(b) <= env.Keys
  {
    match b
    case Linear(a) => x <= Number(a, env)
    case Max(p, q) => AtMost(x, p, env) || AtMost(x, q, env)
    case Min(p, q) => AtMost(x, p, env) && AtMost(x, q, env)
  }

  /** `x` is the number that the bound stands for. */
  predicate Is(x: int, b: Bound, env: Env)
    requires BoundVars(b) <= env.Keys
  {
    AtLeast(x, b, env) && AtMost(x, b, env)
  }

  ghost predicate Satisfied(c: Cond, env: Env)
    requires CondVars(c) <= env.Keys
  {
    match c
    case And(a, b) => Satisfied(a, env) && Satisfied(b, env)
    case Or(a, b) => Satisfied(a, env) || Satisfied(b, env)
    case Compare(p, LE, q) => exists x, y :: Is(x, p, env) && Is(y, q, env) && x <= y
    case Compare(p, GE, q) => exists x, y :: Is(x, p, env) && Is(y, q, env) && x >= y
    case Compare(p, LT, q) => exists x, y :: Is(x, p, env) && Is(y, q, env) && x < y
    case Compare(p, GT, q) => exists x, y :: Is(x, p, env) && Is(y, q, env) && x > y
    case Compare(p, EQ, q) => exists x, y :: Is(x, p, env) && Is(y, q, env) && x == y
    case Compare(p, NE, q) => exists x, y :: Is(x, p, env) && Is(y, q, env) && x != y
  }

  lemma {:induction false} AffineMeaning(a: Affine, env: Env)
    requires AffineVars(a) <= env.Keys
    ensures AffineVal(a, env) == Num(Number(a, env))
  {
    match a {
      case Start(_, t) =>
      case Plus(b, _, t) => AffineMeaning(b, env);
    }
  }

  /** A bound has a value when its variables have one, and an integer is at least or at most that value exactly when it
      is so by the meaning of `max` and `min`. */
  lemma {:induction false} BoundMeaning(b: Bound, env: Env)
    requires BoundVars(b) <= env.Keys
    ensures BoundVal(b, env).Num?
    ensures forall x :: AtLeast(x, b, env) <==> x >= BoundVal(b, env).n
    ensures forall x :: AtMost(x, b, env) <==> x <= BoundVal(b, env).n
  {
    match b {
      case Linear(a) => AffineMeaning(a, env);
      case Max(p, q) =>
        BoundMeaning(p, env);
        BoundMeaning(q, env);
      case Min(p, q) =>
        BoundMeaning(p, env);
        BoundMeaning(q, env);
    }
  }

  lemma ValueIs(b: Bound, env: Env)
    requires BoundVars(b) <= env.Keys
    ensures BoundVal(b, env).Num? && forall x :: Is(x, b, env) <==> x == BoundVal(b, env).n
  {
    BoundMeaning(b, env);
  }

  /** Both languages decide a condition whose variables have values by the order of the integers. */
  lemma {:induction false} CondMeaning(c: Cond, env: Env)
    requires CondVars(c) <= env.Keys
    ensures HoldsC(c, env) == HoldsLua(c, env) == Some(Satisfied(c, env))
  {
    match c {
      case And(a, b) =>
        CondMeaning(a, env);
        CondMeaning(b, env);
      case Or(a, b) =>
        CondMeaning(a, env);
        CondMeaning(b, env);
      case Compare(p, r, q) =>
        ValueIs(p, env);
        ValueIs(q, env);
        hide BoundVal, Is;
        assert Is(BoundVal(p, env).n, p, env) && Is(BoundVal(q, env).n, q, env);
    }
  }

  /** A comparison by its sign, as C has it. */
  predicate Spelled(x: int, sign: string, y: int) {
    if sign == "<=" then x <= y
    else if sign == ">=" then x >= y
    else if sign == "<" then x < y
    else if sign == ">" then x > y
    else if sign == "==" then x == y
    else sign == "!=" && x != y
  }

  /** The signs that the texts of both programs show mean what the runs do; Lua has another one for "different". */
  lemma SignsMean(x: int, r: Relation, y: int)
    ensures Spelled(x, RelationText(r), y) <==> Compares(x, r, y)
    ensures LuaRelationText(r) == if RelationText(r) == "!=" then "~=" else RelationText(r)
  {
  }

  lemma {:induction false} AffineHead(a: Affine)
    ensures AffineText(a) != "" && AffineText(a)[0] != 'm'
  {
    match a {
      case Start(_, Const(n)) => OnlyDigits(n);
      case Start(_, Scaled(n, _)) => OnlyDigits(n);
      case Start(_, Variable(_)) =>
      case Plus(b, _, _) => AffineHead(b);
    }
  }

  /** A text that begins with `max(` is that of a maximum, and one that begins with `min(` that of a minimum. */
  lemma CallsMean(b: Bound)
    ensures b.Max? <==> "max(" <= BoundText(b)
    ensures b.Min? <==> "min(" <= BoundText(b)
  {
    hide BoundText;
    match b {
      case Linear(a) => LinearHead(a);
      case Max(x, y) => CallHead(x, y);
      case Min(x, y) => CallHead(x, y);
    }
  }

  lemma LinearHead(a: Affine)
    ensures !("max(" <= BoundText(Linear(a))) && !("min(" <= BoundText(Linear(a)))
  {
    AffineHead(a);
  }

  lemma CallHead(x: Bound, y: Bound)
    ensures "max(" <= BoundText(Max(x, y)) && !("min(" <= BoundText(Max(x, y)))
    ensures "min(" <= BoundText(Min(x, y)) && !("max(" <= BoundText(Min(x, y)))
  {
    Head("max(", BoundText(x), BoundText(y));
    Head("min(", BoundText(x), BoundText(y));
  }

  lemma Head(head: string, a: string, b: string)
    requires head == "max(" || head == "min("
    ensures var text := head + a + "," + b + ")";
            && ("max(" <= text <==> head == "max(") && ("min(" <= text <==> head == "min(")
  {
    var text := head + a + "," + b + ")";
    assert text == head + (a + "," + b + ")");
    assert text[1] == head[1] && "max("[1] == 'a' && "min("[1] == 'i';
  }

  /** In Lua nil differs from every number and equals itself, and cannot be ordered. */
  lemma NilCompared(a: Val, r: Relation, b: Val)
    requires !a.Error? && !b.Error? && (a.Nil? || b.Nil?)
    ensures LuaCompares(a, r, b) == match RelationText(r)
                                    case "==" => Some(a.Nil? && b.Nil?)
                                    case "!=" => Some(a.Num? || b.Num?)
                                    case _ => None
  {
  }

  // ---------------------------------------------------------------- the rounds of a loop

  /** The integers a loop goes through: from the least that its lower bound admits on, in steps, as far as the upper
      bound admits. */
  ghost predicate Admitted(s: Stmt, x: int, env: Env)
    requires s.For? && s.step > 0 && BoundVars(s.lo) <= env.Keys && BoundVars(s.hi) <= env.Keys
  {
    && AtLeast(x, s.lo, env) && AtMost(x, s.hi, env)
    && forall least :: Is(least, s.lo, env) ==> (x - least) % s.step == 0
  }

  predicate Increasing(xs: seq<int>) {
    forall i, j :: 0 <= i < j < |xs| ==> xs[i] < xs[j]
  }

  function Numbers(x: int, limit: int, step: nat): seq<int>
    requires step > 0
    decreases limit - x
  {
    if x > limit then [] else [x] + Numbers(x + step, limit, step)
  }

  lemma {:induction false} NumbersExact(x: int, limit: int, step: nat)
    requires step > 0
    ensures Increasing(Numbers(x, limit, step))
    ensures forall y :: y in Numbers(x, limit, step) <==> x <= y <= limit && (y - x) % step == 0
    decreases limit - x
  {
    if x > limit {
    } else {
      NumbersExact(x + step, limit, step);
      var rest := Numbers(x + step, limit, step);
      assert Numbers(x, limit, step) == [x] + rest;
      hide Numbers;
      forall y ensures y in [x] + rest <==> x <= y <= limit && (y - x) % step == 0 {
        OneStepOn(y - x, step);
        assert y - x - step == y - (x + step);
      }
      assert forall i :: 0 <= i < |rest| ==> rest[i] in rest;
    }
  }

  lemma Within(d: int, step: nat)
    requires step > 0
    ensures d >= 2 ==> d * step >= 2 * step
    ensures d >= 1 ==> d * step >= step
    ensures d <= 0 ==> d * step <= 0
  {
  }

  lemma OneStepOn(d: int, step: nat)
    requires step > 0
    ensures (d - step) % step == d % step
    ensures 0 <= d < step ==> (d % step == 0 <==> d == 0)
  {
    var q, k := d / step - (d - step) / step, d / step;
    assert q * step == step + (d - step) % step - d % step;
    Within(q, step);
    Within(k, step);
  }

  /** The rounds of a loop, in order: exactly the integers admitted. */
  ghost function Rounds(s: Stmt, env: Env): (xs: seq<int>)
    requires s.For? && s.step > 0 && BoundVars(s.lo) <= env.Keys && BoundVars(s.hi) <= env.Keys
    ensures Increasing(xs) && forall x :: x in xs <==> Admitted(s, x, env)
  {
    ValueIs(s.lo, env);
    BoundMeaning(s.lo, env);
    BoundMeaning(s.hi, env);
    NumbersExact(BoundVal(s.lo, env).n, BoundVal(s.hi, env).n, s.step);
    assert Is(BoundVal(s.lo, env).n, s.lo, env);
    Numbers(BoundVal(s.lo, env).n, BoundVal(s.hi, env).n, s.step)
  }

  // ---------------------------------------------------------------- what is listed

  function Tuple(args: seq<Affine>, env: Env): seq<Option<int>>
    requires ArgsVars(args) <= env.Keys
  {
    if args == [] then [] else [Some(Number(args[0], env))] + Tuple(args[1..], env)
  }

  /** The tuples of a statement, in order. */
  ghost function Listed(s: Stmt, env: Env): seq<seq<Option<int>>>
    requires WellFormed(s) && Scoped(s, env.Keys)
    decreases s, 1
  {
    match s
    case For(_, v, _, _, _, body, _) => ListedRounds(body, v, Rounds(s, env), env)
    case If(_, c, body, _) => if Satisfied(c, env) then ListedBlock(body, env) else []
    case Call(_, _, args) => [Tuple(args, env)]
    case Blank(_) => []
  }

  ghost function ListedBlock(ss: seq<Stmt>, env: Env): seq<seq<Option<int>>>
    requires AllWellFormed(ss) && AllScoped(ss, env.Keys)
    decreases ss, 0
  {
    if ss == [] then [] else Listed(ss[0], env) + ListedBlock(ss[1..], env)
  }

  ghost function ListedRounds(body: seq<Stmt>, v: nat, xs: seq<int>, env: Env): seq<seq<Option<int>>>
    requires AllWellFormed(body) && AllScoped(body, env.Keys + {v})
    decreases body, 1, |xs|
  {
    if xs == [] then []
    else
      assert env[v := xs[0]].Keys == env.Keys + {v};
      ListedBlock(body, env[v := xs[0]]) + ListedRounds(body, v, xs[1..], env)
  }

  lemma {:induction false} TupleMeaning(args: seq<Affine>, env: Env)
    requires ArgsVars(args) <= env.Keys
    ensures TupleLua(args, env) == Some(Tuple(args, env))
  {
    if args == [] {
    } else {
      AffineMeaning(args[0], env);
      TupleMeaning(args[1..], env);
    }
  }

  lemma {:induction false} TuplesJoined(a: seq<Event>, b: seq<Event>)
    ensures Tuples(a + b) == Tuples(a) + Tuples(b)
  {
    if a == [] {
      assert a + b == b;
    } else {
      assert (a + b)[1..] == a[1..] + b;
      TuplesJoined(a[1..], b);
    }
  }

  /** The image of a statement emits what the statement lists. */
  lemma {:induction false} StmtListed(s: Stmt, env: Env)
    requires WellFormed(s) && Scoped(s, env.Keys)
    ensures RunLua(Image(s), env).Ran? && Tuples(RunLua(Image(s), env).trace) == Listed(s, env)
    decreases s, 1
  {
    match s {
      case For(_, v, lo, hi, step, body, _) =>
        BoundMeaning(lo, env);
        BoundMeaning(hi, env);
        hide BoundVal, Rounds;
        LoopListed(body, v, BoundVal(lo, env).n, BoundVal(hi, env).n, step, env);
        RoundsAreNumbers(s, env);
      case If(_, c, body, _) =>
        CondMeaning(c, env);
        hide HoldsLua, Satisfied;
        if Satisfied(c, env) { BlockListed(body, env); }
        ConditionListed(Satisfied(c, env), if Satisfied(c, env) then BlockLua(Images(body), env) else Ran([]));
      case Call(_, _, args) =>
        TupleMeaning(args, env);
        assert [Emitted(Tuple(args, env))][1..] == [];
      case Blank(_) =>
    }
  }

  lemma ConditionListed(holds: bool, r: Result)
    requires r.Ran?
    ensures Concat(Ran([Decided(holds)]), r).Ran? && Tuples(Concat(Ran([Decided(holds)]), r).trace) == Tuples(r.trace)
  {
    assert ([Decided(holds)] + r.trace)[1..] == r.trace;
  }

  lemma RoundsAreNumbers(s: Stmt, env: Env)
    requires s.For? && s.step > 0 && BoundVars(s.lo) <= env.Keys && BoundVars(s.hi) <= env.Keys
    requires BoundVal(s.lo, env).Num? && BoundVal(s.hi, env).Num?
    ensures Rounds(s, env) == Numbers(BoundVal(s.lo, env).n, BoundVal(s.hi, env).n, s.step)
  {
  }

  lemma {:induction false} BlockListed(ss: seq<Stmt>, env: Env)
    requires AllWellFormed(ss) && AllScoped(ss, env.Keys)
    ensures BlockLua(Images(ss), env).Ran? && Tuples(BlockLua(Images(ss), env).trace) == ListedBlock(ss, env)
    decreases ss, 0
  {
    if ss == [] {
    } else {
      BlockOfImages(ss, env);
      StmtListed(ss[0], env);
      BlockListed(ss[1..], env);
      hide RunLua, BlockLua, Listed, Image, Images;
      TuplesJoined(RunLua(Image(ss[0]), env).trace, BlockLua(Images(ss[1..]), env).trace);
    }
  }

  lemma {:induction false} LoopListed(body: seq<Stmt>, v: nat, x: int, limit: int, step: nat, env: Env)
    requires AllWellFormed(body) && AllScoped(body, env.Keys + {v}) && step > 0
    ensures LoopLua(v, x, limit, step, Images(body), env).Ran?
    ensures Tuples(LoopLua(v, x, limit, step, Images(body), env).trace)
         == ListedRounds(body, v, Numbers(x, limit, step), env)
    decreases body, 1, limit - x
  {
    if x > limit {
    } else {
      assert env[v := x].Keys == env.Keys + {v};
      BlockListed(body, env[v := x]);
      LoopListed(body, v, x + step, limit, step, env);
      assert Numbers(x, limit, step)[1..] == Numbers(x + step, limit, step);
      hide BlockLua, Images, ListedBlock;
      TuplesJoined(BlockLua(Images(body), env[v := x]).trace,
                   LoopLua(v, x + step, limit, step, Images(body), env).trace);
    }
  }

  /** In C and in Lua, a program whose expressions use only variables of loops around them, none of which is reused,
      emits exactly the tuples it lists, in that order. */
  lemma EmitsWhatIsListed(ss: seq<Stmt>) returns (fuel: nat, e: Env)
    requires AllWellFormed(ss) && AllScoped(ss, {})
    ensures var none: Env := map[];
            && none.Keys == {}
            && BlockLua(Images(ss), none).Ran? && Tuples(BlockLua(Images(ss), none).trace) == ListedBlock(ss, none)
            && forall f: nat :: f >= fuel ==>
                 BlockC(ss, none, f).Done? && Tuples(BlockC(ss, none, f).trace) == ListedBlock(ss, none)
  {
    var none: Env := map[];
    assert none.Keys == {};
    hide BlockC, BlockLua, ListedBlock, Images;
    fuel, e := SameTuples(ss);
    BlockListed(ss, none);
  }
}
