/** Delayed commits lose nothing: loading a tree of the written shape gives every domain its own parameters and
    constraints, once each and in order. */
module LoaderProofs {
  import opened JsonGrammar
  import opened Options
  import opened RegistryModel
  import opened Description
  import opened DescLoader

  predicate IsCString(s: string) {
    forall i :: 0 <= i < |s| ==> s[i] != '\0'
  }

  lemma {:induction false} WholeCString(s: string)
    requires IsCString(s)
    ensures CString(s) == s
  {
    if s == "" {
    } else {
      assert forall i :: 0 <= i < |s[1..]| ==> s[1..][i] == s[i + 1];
      WholeCString(s[1..]);
      assert s == [s[0]] + s[1..];
    }
  }

  lemma WriterNames()
    ensures CString("range") == "range" && CString("type") == "type" && CString("default") == "default"
    ensures CString("expr") == "expr" && CString("params") == "params" && CString("constraints") == "constraints"
    ensures CString("explorations") == "explorations"
  {
    hide CString;
    WholeCString("range");
    WholeCString("type");
    WholeCString("default");
    WholeCString("expr");
    WholeCString("params");
    WholeCString("constraints");
    WholeCString("explorations");
  }

  lemma IntsAt(vs: seq<Int32>, k: nat)
    requires k < |vs|
    ensures IntsJson(vs)[k] == JInt(vs[k])
  {
    if k == 0 {
    } else {
      IntsAt(vs[1..], k - 1);
    }
  }

  // ---------------------------------------------------------------- a parameter

  lemma IntStored(l: Load, i: Int32, depth: nat)
    requires l.Load? && l.box.inParam && l.box.inRange && !l.box.inExploration && !l.box.inType && !l.box.inDefault
    requires l.box.cursor < |l.box.range|
    ensures Value(l, JInt(i), depth)
         == l.(box := l.box.(range := l.box.range[l.box.cursor := i], cursor := l.box.cursor + 1))
  {
  }

  lemma {:induction false} IntsStored(l: Load, vs: seq<Int32>, k: nat, depth: nat)
    requires l.Load? && l.box.inParam && l.box.inRange && !l.box.inExploration && !l.box.inType && !l.box.inDefault
    requires l.box.cursor == 0 && |l.box.range| == |vs| && k <= |vs|
    ensures LoadItems(l, IntsJson(vs), k, depth) == l.(box := l.box.(range := vs[..k] + l.box.range[k..], cursor := k))
    decreases k
  {
    hide Value, IntsJson;
    var r := l.box.range;
    if k == 0 {
      assert vs[..0] + r[0..] == r;
    } else {
      IntsStored(l, vs, k - 1, depth);
      IntsAt(vs, k - 1);
      IntStored(LoadItems(l, IntsJson(vs), k - 1, depth), vs[k - 1], depth);
      assert (vs[..k - 1] + r[k - 1..])[k - 1 := vs[k - 1]] == vs[..k] + r[k..];
    }
  }

  lemma ArrayValue(l: Load, vs: seq<Json>, depth: nat)
    requires l.Load?
    ensures Value(l, JArray(vs), depth) == LoadItems(l.(box := EnterArray(l.box, |vs|)), vs, |vs|, depth + 1)
  {
  }

  lemma ObjectValue(l: Load, ms: seq<Member>, depth: nat)
    requires l.Load? && depth > 0
    ensures Value(l, JObject(ms), depth) == LoadMembers(l, ms, |ms|, depth + 1)
  {
  }

  lemma AllReplaced(vs: seq<Int32>, r: seq<Int32>)
    requires |r| == |vs|
    ensures vs[..|vs|] + r[|vs|..] == vs
  {
  }

  lemma RangeLoaded(l: Load, vs: seq<Int32>)
    requires l.Load? && l.box.inParam && l.box.inRange && !l.box.inExploration && !l.box.inType && !l.box.inDefault
    ensures Value(l, JArray(IntsJson(vs)), 4) == l.(box := l.box.(nvalues := |vs|, range := vs, cursor := |vs|))
  {
    hide Value, LoadItems, IntsJson;
    ArrayValue(l, IntsJson(vs), 4);
    var b := EnterArray(l.box, |vs|);
    assert b == l.box.(nvalues := |vs|, range := b.range, cursor := 0) && |b.range| == |vs|;
    hide EnterArray;
    IntsStored(l.(box := b), vs, |vs|, 5);
    AllReplaced(vs, b.range);
  }

  /** The record when the fields of `p` have been collected under its name. */
  function Collected(b: Box, p: Param): Box {
    Fields(b.(paramCounter := b.paramCounter + 1, pname := Some(p.name)), p)
  }

  function Fields(b: Box, p: Param): Box {
    b.(range := ValuesOf(p), nvalues := |ValuesOf(p)|, cursor := |ValuesOf(p)|, ptype := ToInt8(p.ptype),
       dflt := p.deflt, inRange := false, inType := false, inDefault := true)
  }

  /** One member: what happens at its name, then its value. */
  function Step(l: Load, name: string, v: Json, depth: nat): Load {
    Value(Enter(l, name, depth), v, depth)
  }

  lemma NextMember(l: Load, ms: seq<Member>, k: nat, depth: nat)
    requires 0 < k <= |ms| && CString(ms[k - 1].name) == ms[k - 1].name
    ensures LoadMembers(l, ms, k, depth)
         == Step(LoadMembers(l, ms, k - 1, depth), ms[k - 1].name, ms[k - 1].value, depth)
  {
  }

  lemma NoMember(l: Load, ms: seq<Member>, depth: nat)
    ensures LoadMembers(l, ms, 0, depth) == l
  {
  }

  lemma ThreeMembers(l: Load, ms: seq<Member>, depth: nat)
    requires |ms| == 3 && forall i :: 0 <= i < 3 ==> CString(ms[i].name) == ms[i].name
    ensures LoadMembers(l, ms, 3, depth)
         == Step(Step(Step(l, ms[0].name, ms[0].value, depth), ms[1].name, ms[1].value, depth),
                 ms[2].name, ms[2].value, depth)
  {
    hide LoadMembers, Step, CString;
    NoMember(l, ms, depth);
    NextMember(l, ms, 1, depth);
    NextMember(l, ms, 2, depth);
    NextMember(l, ms, 3, depth);
  }

  lemma FieldEntered(l: Load, name: string)
    requires l.Load?
    ensures Enter(l, name, 4) == l.(box := EnterSubsection(l.box, name))
  {
    hide EnterSection, EnterDomain, EnterParam, EnterConstraint, EnterSubsection;
  }

  lemma Subsections(b: Box)
    ensures EnterSubsection(b, "range") == b.(inRange := true, inType := false, inDefault := false)
    ensures EnterSubsection(b, "type") == b.(inRange := false, inType := true, inDefault := false)
    ensures EnterSubsection(b, "default") == b.(inRange := false, inType := false, inDefault := true)
  {
  }

  lemma RangeStep(l: Load, vs: seq<Int32>)
    requires l.Load? && l.box.inParam && !l.box.inExploration
    ensures Step(l, "range", JArray(IntsJson(vs)), 4)
         == l.(box := l.box.(nvalues := |vs|, range := vs, cursor := |vs|,
                             inRange := true, inType := false, inDefault := false))
  {
    hide Enter, Value, IntsJson, EnterSubsection;
    FieldEntered(l, "range");
    Subsections(l.box);
    RangeLoaded(Enter(l, "range", 4), vs);
  }

  lemma IntegerStored(l: Load, i: int)
    requires l.Load? && l.box.inParam && !l.box.inExploration && !l.box.inRange
    ensures Value(l, JInt(i), 4)
         == l.(box := l.box.(ptype := if l.box.inType then ToInt8(i) else l.box.ptype,
                             dflt := if l.box.inDefault then ToInt32(i) else l.box.dflt))
  {
    hide ToInt8, ToInt32, EnterArray;
  }

  lemma TypeStep(l: Load, n: UInt8)
    requires l.Load? && l.box.inParam && !l.box.inExploration
    ensures Step(l, "type", JInt(n), 4)
         == l.(box := l.box.(ptype := ToInt8(n), inRange := false, inType := true, inDefault := false))
  {
    hide Enter, Value, EnterSubsection, ToInt8;
    FieldEntered(l, "type");
    Subsections(l.box);
    IntegerStored(Enter(l, "type", 4), n);
  }

  lemma DefaultStep(l: Load, n: Int32)
    requires l.Load? && l.box.inParam && !l.box.inExploration
    ensures Step(l, "default", JInt(n), 4)
         == l.(box := l.box.(dflt := n, inRange := false, inType := false, inDefault := true))
  {
    hide Enter, Value, EnterSubsection;
    FieldEntered(l, "default");
    Subsections(l.box);
    IntegerStored(Enter(l, "default", 4), n);
  }

  lemma FieldsLoaded(l: Load, p: Param)
    requires l.Load? && l.box.inParam && !l.box.inExploration
    ensures Value(l, ParamJson(p), 3) == l.(box := Fields(l.box, p))
  {
    hide Value, LoadMembers, IntsJson, CString, Step, ValuesOf;
    var ms := [Member("range", JArray(IntsJson(ValuesOf(p)))),
               Member("type", JInt(p.ptype)),
               Member("default", JInt(p.deflt))];
    WriterNames();
    ObjectValue(l, ms, 3);
    ThreeMembers(l, ms, 4);
    RangeStep(l, ValuesOf(p));
    var l1 := Step(l, "range", ms[0].value, 4);
    TypeStep(l1, p.ptype);
    DefaultStep(Step(l1, "type", ms[1].value, 4), p.deflt);
  }

  /** A parameter as it is committed. */
  function Settled(p: Param): Param {
    p.(values := Some(ValuesOf(p)))
  }

  function AllSettled(ps: seq<Param>): (r: seq<Param>)
    ensures |r| == |ps| && forall i :: 0 <= i < |ps| ==> r[i] == Settled(ps[i])
  {
    seq(|ps|, i requires 0 <= i < |ps| => Settled(ps[i]))
  }

  predicate InParams(l: Load) {
    l.Load? && l.box.inParam && !l.box.inConstraint && !l.box.inExploration && HasDomain(l) && CommitParam(l).Load?
  }

  /** One parameter: what was pending is committed, and the new one is pending. */
  lemma ParamLoaded(l: Load, p: Param)
    requires InParams(l)
    ensures Value(Enter(l, p.name, 3), ParamJson(p), 3) == Load(CommitParam(l).ds, Collected(l.box, p))
  {
    FieldsLoaded(Enter(l, p.name, 3), p);
    hide Value, ParamJson;
  }

  lemma CollectedCommits(ds: seq<Domain>, b: Box, p: Param)
    requires b.current.Some? && b.current.value < |ds|
    ensures CommitParam(Load(ds, Collected(b, p))) == Load(AddParam(ds, b.current.value, Settled(p)), Collected(b, p))
  {
    assert ValuesOf(p)[..|ValuesOf(p)|] == ValuesOf(p);
  }

  function AddParams(ds: seq<Domain>, d: nat, ps: seq<Param>): seq<Domain>
    requires d < |ds|
  {
    ds[d := ds[d].(params := ds[d].params + ps)]
  }

  function AddConstraints(ds: seq<Domain>, d: nat, cs: seq<Constraint>): seq<Domain>
    requires d < |ds|
  {
    ds[d := ds[d].(constraints := ds[d].constraints + cs)]
  }

  /** What collecting parameters leaves alone. */
  predicate SameForParams(b: Box, c: Box) {
    && b.current == c.current && b.cname == c.cname && b.expr == c.expr && b.constraintCounter == c.constraintCounter
    && b.inDomain == c.inDomain && b.inParam == c.inParam && b.inConstraint == c.inConstraint
    && b.inExploration == c.inExploration && b.junk == c.junk && (c.inRange ==> b.inRange)
  }

  lemma {:induction false} MembersAt(ps: seq<Param>, k: nat)
    requires k < |ps|
    ensures ParamMembers(ps)[k] == Member(ps[k].name, ParamJson(ps[k]))
  {
    hide ParamJson;
    if k == 0 {
    } else {
      MembersAt(ps[1..], k - 1);
    }
  }

  lemma CommitKeeps(l: Load)
    requires l.Load? && CommitParam(l).Load?
    ensures |CommitParam(l).ds| == |l.ds| && CommitParam(l).box == l.box
  {
  }

  lemma OneMoreParam(ds: seq<Domain>, d: nat, ps: seq<Param>, k: nat)
    requires d < |ds| && 0 < k <= |ps|
    ensures AddParam(AddParams(ds, d, AllSettled(ps[..k - 1])), d, Settled(ps[k - 1]))
         == AddParams(ds, d, AllSettled(ps[..k]))
  {
    assert AllSettled(ps[..k]) == AllSettled(ps[..k - 1]) + [Settled(ps[k - 1])];
    hide Settled, AllSettled;
    var x, y := AllSettled(ps[..k - 1]), [Settled(ps[k - 1])];
    assert ds[d].params + x + y == ds[d].params + (x + y);
  }

  lemma NoParams(l: Load)
    requires InParams(l)
    ensures CommitParam(l).ds == AddParams(CommitParam(l).ds, l.box.current.value, AllSettled([]))
  {
    CommitKeeps(l);
    hide CommitParam;
    assert AllSettled([]) == [];
    var d := l.box.current.value;
    assert CommitParam(l).ds[d].params + [] == CommitParam(l).ds[d].params;
  }

  /** One parameter more: it is pending, and the one before it is committed. */
  lemma ParamAdvances(r: Load, p: Param)
    requires InParams(r)
    ensures var r' := Value(Enter(r, p.name, 3), ParamJson(p), 3);
            && InParams(r') && SameForParams(r.box, r'.box) && |r'.ds| == |r.ds| && |CommitParam(r).ds| == |r.ds|
            && CommitParam(r').ds == AddParam(CommitParam(r).ds, r.box.current.value, Settled(p))
  {
    ParamLoaded(r, p);
    CommitKeeps(r);
    CollectedCommits(CommitParam(r).ds, r.box, p);
    hide Value, Enter, CommitParam, ParamJson, ValuesOf;
  }

  /** After `k` parameters all but the last have been committed, and the last is pending. */
  lemma {:induction false} ParamsLoaded(l: Load, ps: seq<Param>, k: nat)
    requires InParams(l) && k <= |ps| && forall i :: 0 <= i < |ps| ==> IsCString(ps[i].name)
    ensures var r := LoadMembers(l, ParamMembers(ps), k, 3);
            && InParams(r) && SameForParams(l.box, r.box) && |r.ds| == |l.ds|
            && CommitParam(r).ds == AddParams(CommitParam(l).ds, l.box.current.value, AllSettled(ps[..k]))
    decreases k
  {
    hide Value, Enter, CommitParam, ParamMembers, ParamJson, CString, LoadMembers, AddParams, AddParam;
    if k == 0 {
      NoMember(l, ParamMembers(ps), 3);
      NoParams(l);
      assert ps[..0] == [];
    } else {
      ParamsLoaded(l, ps, k - 1);
      var r := LoadMembers(l, ParamMembers(ps), k - 1, 3);
      MembersAt(ps, k - 1);
      WholeCString(ps[k - 1].name);
      NextMember(l, ParamMembers(ps), k, 3);
      ParamAdvances(r, ps[k - 1]);
      CommitKeeps(l);
      OneMoreParam(CommitParam(l).ds, l.box.current.value, ps, k);
    }
  }

  // ---------------------------------------------------------------- a constraint

  predicate InConstraints(l: Load) {
    l.Load? && l.box.inConstraint && !l.box.inParam && HasDomain(l) && CommitConstraint(l).Load?
  }

  function Gathered(b: Box, c: Constraint): Box {
    b.(constraintCounter := b.constraintCounter + 1, cname := Some(c.name), expr := Some(c.expr),
       inRange := false, inType := false, inDefault := false)
  }

  lemma ExprStep(l: Load, expr: string)
    requires l.Load? && l.box.inConstraint && IsCString(expr)
    ensures Step(l, "expr", JString(expr), 4)
         == l.(box := l.box.(expr := Some(expr), inRange := false, inType := false, inDefault := false))
  {
    WholeCString(expr);
    hide CString;
    var l1 := Enter(l, "expr", 4);
    assert l1 == l.(box := l.box.(inRange := false, inType := false, inDefault := false));
    hide Enter;
  }

  lemma ConstraintEntered(l: Load, name: string)
    requires InConstraints(l)
    ensures Enter(l, name, 3)
         == Load(CommitConstraint(l).ds, l.box.(constraintCounter := l.box.constraintCounter + 1, cname := Some(name)))
  {
  }

  lemma ConstraintLoaded(l: Load, c: Constraint)
    requires InConstraints(l) && IsCString(c.expr)
    ensures Step(l, c.name, ConstraintJson(c), 3) == Load(CommitConstraint(l).ds, Gathered(l.box, c))
  {
    hide Enter, Value, LoadMembers, CString, CommitConstraint, IsCString;
    ConstraintEntered(l, c.name);
    var l1 := Enter(l, c.name, 3);
    var ms := [Member("expr", JString(c.expr))];
    ObjectValue(l1, ms, 3);
    WriterNames();
    NextMember(l1, ms, 1, 4);
    NoMember(l1, ms, 4);
    hide InConstraints, HasDomain;
    ExprStep(l1, c.expr);
    hide Step;
  }

  lemma GatheredCommits(ds: seq<Domain>, b: Box, c: Constraint)
    requires b.current.Some? && b.current.value < |ds|
    ensures CommitConstraint(Load(ds, Gathered(b, c))) == Load(AddConstraint(ds, b.current.value, c), Gathered(b, c))
  {
  }

  lemma ConstraintCommitKeeps(l: Load)
    requires l.Load? && CommitConstraint(l).Load?
    ensures |CommitConstraint(l).ds| == |l.ds| && CommitConstraint(l).box == l.box
  {
  }

  /** What collecting constraints leaves alone. */
  predicate SameForConstraints(b: Box, c: Box) {
    && b.current == c.current && b.pname == c.pname && b.range == c.range && b.nvalues == c.nvalues
    && b.ptype == c.ptype && b.dflt == c.dflt && b.paramCounter == c.paramCounter
    && b.inDomain == c.inDomain && b.inParam == c.inParam && b.inConstraint == c.inConstraint
    && b.inExploration == c.inExploration && b.junk == c.junk && (c.inRange ==> b.inRange)
  }

  lemma {:induction false} ConstraintAt(cs: seq<Constraint>, k: nat)
    requires k < |cs|
    ensures ConstraintMembers(cs)[k] == Member(cs[k].name, ConstraintJson(cs[k]))
  {
    hide ConstraintJson;
    if k == 0 {
    } else {
      ConstraintAt(cs[1..], k - 1);
    }
  }

  lemma OneMoreConstraint(ds: seq<Domain>, d: nat, cs: seq<Constraint>, k: nat)
    requires d < |ds| && 0 < k <= |cs|
    ensures AddConstraint(AddConstraints(ds, d, cs[..k - 1]), d, cs[k - 1]) == AddConstraints(ds, d, cs[..k])
  {
    assert cs[..k] == cs[..k - 1] + [cs[k - 1]];
    assert ds[d].constraints + cs[..k - 1] + [cs[k - 1]] == ds[d].constraints + (cs[..k - 1] + [cs[k - 1]]);
  }

  lemma NoConstraints(l: Load)
    requires InConstraints(l)
    ensures CommitConstraint(l).ds == AddConstraints(CommitConstraint(l).ds, l.box.current.value, [])
  {
    ConstraintCommitKeeps(l);
    hide CommitConstraint;
    var d := l.box.current.value;
    assert CommitConstraint(l).ds[d].constraints + [] == CommitConstraint(l).ds[d].constraints;
  }

  /** One constraint more: it is pending, and the one before it is committed. */
  lemma ConstraintAdvances(r: Load, c: Constraint)
    requires InConstraints(r) && IsCString(c.expr)
    ensures var r' := Step(r, c.name, ConstraintJson(c), 3);
            && InConstraints(r') && SameForConstraints(r.box, r'.box)
            && |r'.ds| == |r.ds| && |CommitConstraint(r).ds| == |r.ds|
            && CommitConstraint(r').ds == AddConstraint(CommitConstraint(r).ds, r.box.current.value, c)
  {
    ConstraintLoaded(r, c);
    ConstraintCommitKeeps(r);
    GatheredCommits(CommitConstraint(r).ds, r.box, c);
    hide CommitConstraint, ConstraintJson, Step;
  }

  /** After `k` constraints all but the last have been committed, and the last is pending. */
  lemma {:induction false} ConstraintsLoaded(l: Load, cs: seq<Constraint>, k: nat)
    requires InConstraints(l) && k <= |cs|
    requires forall i :: 0 <= i < |cs| ==> IsCString(cs[i].name) && IsCString(cs[i].expr)
    ensures var r := LoadMembers(l, ConstraintMembers(cs), k, 3);
            && InConstraints(r) && SameForConstraints(l.box, r.box) && |r.ds| == |l.ds|
            && CommitConstraint(r).ds == AddConstraints(CommitConstraint(l).ds, l.box.current.value, cs[..k])
    decreases k
  {
    hide CommitConstraint, ConstraintMembers, ConstraintJson, CString, LoadMembers, Step;
    hide AddConstraint, AddConstraints;
    if k == 0 {
      NoMember(l, ConstraintMembers(cs), 3);
      NoConstraints(l);
      assert cs[..0] == [];
    } else {
      ConstraintsLoaded(l, cs, k - 1);
      var r := LoadMembers(l, ConstraintMembers(cs), k - 1, 3);
      ConstraintAt(cs, k - 1);
      WholeCString(cs[k - 1].name);
      NextMember(l, ConstraintMembers(cs), k, 3);
      ConstraintAdvances(r, cs[k - 1]);
      ConstraintCommitKeeps(l);
      OneMoreConstraint(CommitConstraint(l).ds, l.box.current.value, cs, k);
    }
  }

  // ---------------------------------------------------------------- a domain

  predicate CStrings(d: Domain) {
    && IsCString(d.name) && (forall i :: 0 <= i < |d.params| ==> IsCString(d.params[i].name))
    && forall i :: 0 <= i < |d.constraints| ==> IsCString(d.constraints[i].name) && IsCString(d.constraints[i].expr)
  }

  /** The state at the start of domain `d`. */
  predicate AtDomain(l: Load, d: nat) {
    && l.Load? && d < |l.ds| && l.box == Cleared(l.box.junk).(inDomain := true, current := Some(d))
  }

  /** What is pending when a domain has been walked is committed later, and completes it. */
  predicate Completes(l: Load, ds: seq<Domain>, d: nat, ps: seq<Param>, cs: seq<Constraint>)
    requires d < |ds|
  {
    && l.Load? && l.box.inDomain
    && CommitConstraint(CommitParam(l)).Load?
    && CommitConstraint(CommitParam(l)).ds == AddConstraints(AddParams(ds, d, ps), d, cs)
  }

  lemma ParamsSection(l: Load, d: nat, ps: seq<Param>)
    requires AtDomain(l, d) && forall i :: 0 <= i < |ps| ==> IsCString(ps[i].name)
    ensures var r := Step(l, "params", JObject(ParamMembers(ps)), 2);
            && InParams(r) && r.box.current == Some(d) && r.box.constraintCounter == 0
            && r.box.inDomain && !r.box.inRange
            && |r.ds| == |l.ds| && CommitParam(r).ds == AddParams(l.ds, d, AllSettled(ps)) && r.box.junk == l.box.junk
  {
    var l1 := Enter(l, "params", 2);
    assert l1 == l.(box := l.box.(inParam := true));
    assert InParams(l1) && CommitParam(l1) == l1;
    hide Enter, Value, LoadMembers, ParamMembers;
    ObjectValue(l1, ParamMembers(ps), 2);
    ParamsLoaded(l1, ps, |ps|);
    assert ps[..|ps|] == ps;
  }

  lemma ConstraintsSection(l: Load, d: nat, cs: seq<Constraint>)
    requires InParams(l) && l.box.current == Some(d) && l.box.constraintCounter == 0 && l.box.inDomain && !l.box.inRange
    requires forall i :: 0 <= i < |cs| ==> IsCString(cs[i].name) && IsCString(cs[i].expr)
    ensures var r := Step(l, "constraints", JObject(ConstraintMembers(cs)), 2);
            && InConstraints(r) && !r.box.inRange && r.box.inDomain && |r.ds| == |l.ds| && r.box.current == Some(d)
            && SameForConstraints(l.box.(inParam := false, inConstraint := true), r.box)
            && CommitConstraint(r).ds == AddConstraints(l.ds, d, cs)
  {
    var l1 := Enter(l, "constraints", 2);
    assert l1 == l.(box := l.box.(inParam := false, inConstraint := true));
    assert InConstraints(l1) && CommitConstraint(l1) == l1;
    hide Enter, Value, LoadMembers, ConstraintMembers;
    ObjectValue(l1, ConstraintMembers(cs), 2);
    ConstraintsLoaded(l1, cs, |cs|);
    assert cs[..|cs|] == cs;
  }

  lemma ExplorationsSection(l: Load)
    requires l.Load? && !l.box.inRange
    ensures Step(l, "explorations", JArray([]), 2)
         == l.(box := l.box.(inParam := false, inConstraint := false, inExploration := true, room := 0, cursor := 0))
  {
    var l1 := Enter(l, "explorations", 2);
    assert l1 == l.(box := l.box.(inParam := false, inConstraint := false, inExploration := true));
    hide Enter, Value;
    ArrayValue(l1, [], 2);
  }

  /** The pending parameter was collected before the constraints, and is committed together with the last of them. */
  lemma BothCommitted(p: Load, r: Load, d: nat, ds: seq<Domain>, ps: seq<Param>, cs: seq<Constraint>)
    requires InParams(p) && InConstraints(r) && p.box.current == Some(d) && d < |ds|
    requires CommitParam(p).ds == AddParams(ds, d, ps)
    requires |r.ds| == |p.ds| && SameForConstraints(p.box.(inParam := false, inConstraint := true), r.box)
    requires CommitConstraint(r).ds == AddConstraints(p.ds, d, cs)
    ensures CommitConstraint(CommitParam(r)).Load?
    ensures CommitConstraint(CommitParam(r)).ds == AddConstraints(AddParams(ds, d, ps), d, cs)
  {
    var a, b, x := CommitConstraint(r).ds, CommitParam(p).ds, CommitConstraint(CommitParam(r)).ds;
    assert |a| == |b| == |x| == |ds|;
    forall i | 0 <= i < |ds| && i != d ensures x[i] == ds[i] {
      assert a[i] == p.ds[i] && b[i] == ds[i];
    }
    assert a[d].constraints == p.ds[d].constraints + cs && a[d].params == p.ds[d].params == r.ds[d].params;
    assert b[d].params == ds[d].params + ps && b[d].constraints == ds[d].constraints == p.ds[d].constraints;
    assert x[d].params == b[d].params && x[d].constraints == a[d].constraints && x[d].name == ds[d].name;
    assert x == AddConstraints(AddParams(ds, d, ps), d, cs);
  }

  lemma DomainLoaded(l: Load, d: nat, dom: Domain)
    requires AtDomain(l, d) && CStrings(dom)
    ensures Completes(Value(l, DomainJson(dom), 1), l.ds, d, AllSettled(dom.params), dom.constraints)
  {
    hide Value, LoadMembers, ParamMembers, ConstraintMembers, Step, Enter, CString, IsCString, AllSettled, CStrings;
    hide CommitParam, CommitConstraint, AddParams, AddConstraints, Completes, Cleared;
    var ms := [Member("params", JObject(ParamMembers(dom.params))),
               Member("constraints", JObject(ConstraintMembers(dom.constraints))),
               Member("explorations", JArray([]))];
    WriterNames();
    ObjectValue(l, ms, 1);
    ThreeMembers(l, ms, 2);
    SectionsLoaded(l, d, dom);
  }

  lemma SectionsLoaded(l: Load, d: nat, dom: Domain)
    requires AtDomain(l, d) && CStrings(dom)
    ensures var r := Step(Step(Step(l, "params", JObject(ParamMembers(dom.params)), 2),
                               "constraints", JObject(ConstraintMembers(dom.constraints)), 2),
                          "explorations", JArray([]), 2);
            Completes(r, l.ds, d, AllSettled(dom.params), dom.constraints)
  {
    hide Value, LoadMembers, ParamMembers, ConstraintMembers, Step, Enter, IsCString, AllSettled;
    hide SameForConstraints, CommitParam, CommitConstraint, AddParams, AddConstraints, HasDomain;
    ParamsSection(l, d, dom.params);
    var p := Step(l, "params", JObject(ParamMembers(dom.params)), 2);
    ConstraintsSection(p, d, dom.constraints);
    var r := Step(p, "constraints", JObject(ConstraintMembers(dom.constraints)), 2);
    ExplorationsSection(r);
    var e := Step(r, "explorations", JArray([]), 2);
    BothCommitted(p, r, d, l.ds, AllSettled(dom.params), dom.constraints);
    SamePending(r, e);
  }

  lemma SamePending(r: Load, e: Load)
    requires r.Load? && CommitConstraint(CommitParam(r)).Load?
    requires e == r.(box := r.box.(inParam := false, inConstraint := false, inExploration := true,
                                   room := 0, cursor := 0))
    ensures CommitConstraint(CommitParam(e)).Load?
    ensures CommitConstraint(CommitParam(e)).ds == CommitConstraint(CommitParam(r)).ds
  {
  }

  // ---------------------------------------------------------------- the registry

  /** The domains of a file are merged into the registry one by one: a domain that is already there is extended. */
  function MergeOne(ds: seq<Domain>, dom: Domain): seq<Domain> {
    var r := AddDomain(ds, dom.name);
    var d := IndexOf(DomainNames(r), dom.name).value;
    AddConstraints(AddParams(r, d, AllSettled(dom.params)), d, dom.constraints)
  }

  function Merge(ds: seq<Domain>, doms: seq<Domain>, k: nat): seq<Domain>
    requires k <= |doms|
  {
    if k == 0 then ds else MergeOne(Merge(ds, doms, k - 1), doms[k - 1])
  }

  /** What the next domain, or the end, commits. */
  function Flush(l: Load): Load {
    if l.Load? && l.box.inDomain then CommitConstraint(CommitParam(l)) else l
  }

  lemma {:induction false} DomainAt(ds: seq<Domain>, k: nat)
    requires k < |ds|
    ensures DomainMembers(ds)[k] == Member(ds[k].name, DomainJson(ds[k]))
  {
    hide DomainJson;
    if k == 0 {
    } else {
      DomainAt(ds[1..], k - 1);
    }
  }

  lemma NextDomain(r: Load, dom: Domain)
    requires Flush(r).Load? && CStrings(dom)
    ensures var r' := Step(r, dom.name, DomainJson(dom), 1);
            r'.Load? && r'.box.inDomain && Flush(r').Load? && Flush(r').ds == MergeOne(Flush(r).ds, dom)
  {
    var l := Enter(r, dom.name, 1);
    var d := IndexOf(DomainNames(l.ds), dom.name).value;
    assert AtDomain(l, d) && l.ds == AddDomain(Flush(r).ds, dom.name);
    hide Enter, AddDomain, IndexOf, CommitParam, CommitConstraint;
    DomainLoaded(l, d, dom);
    hide Value, DomainJson;
  }

  lemma {:induction false} DomainsLoaded(l: Load, doms: seq<Domain>, k: nat)
    requires l.Load? && Flush(l).Load? && k <= |doms| && forall i :: 0 <= i < |doms| ==> CStrings(doms[i])
    ensures var r := LoadMembers(l, DomainMembers(doms), k, 1);
            Flush(r).Load? && Flush(r).ds == Merge(Flush(l).ds, doms, k) && if k > 0 then r.box.inDomain else r == l
    decreases k
  {
    hide Flush, LoadMembers, Step, MergeOne, DomainMembers;
    if k == 0 {
      NoMember(l, DomainMembers(doms), 1);
    } else {
      DomainsLoaded(l, doms, k - 1);
      var r := LoadMembers(l, DomainMembers(doms), k - 1, 1);
      DomainAt(doms, k - 1);
      WholeCString(doms[k - 1].name);
      NextMember(l, DomainMembers(doms), k, 1);
      NextDomain(r, doms[k - 1]);
    }
  }

  lemma TopValue(l: Load, ms: seq<Member>)
    requires l.Load?
    ensures Value(l, JObject(ms), 0) == LeaveObject(LoadMembers(l, ms, |ms|, 1), |ms|, 1)
  {
    hide Enter, EnterArray;
  }

  lemma MembersCount(doms: seq<Domain>)
    ensures |DomainMembers(doms)| == |doms|
  {
    hide DomainJson;
  }

  /** What the end of the object does is what the next domain would have done. */
  lemma LeaveFlushes(l: Load, n: nat)
    requires n > 0 || !(l.Load? && l.box.inDomain)
    ensures LeaveObject(l, n, 1) == Flush(l)
  {
    hide CommitParam, CommitConstraint;
  }

  /** Loading a tree of the written shape is merging it into whatever the record has pending first. */
  lemma TreeMerged(l: Load, doms: seq<Domain>)
    requires l.Load? && Flush(l).Load? && doms != [] && forall i :: 0 <= i < |doms| ==> CStrings(doms[i])
    ensures Value(l, RegistryJson(doms), 0).Load?
    ensures Value(l, RegistryJson(doms), 0).ds == Merge(Flush(l).ds, doms, |doms|)
  {
    hide LoadMembers, Merge, Value, DomainMembers, CStrings, Flush, LeaveObject;
    DomainsLoaded(l, doms, |doms|);
    MembersCount(doms);
    TopValue(l, DomainMembers(doms));
    LeaveFlushes(LoadMembers(l, DomainMembers(doms), |doms|, 1), |doms|);
  }

  /** The record, which is never initialised, claims nothing that the first domain would commit. */
  predicate NothingPending(b: Box) {
    !b.inDomain || (b.paramCounter == 0 && b.constraintCounter == 0)
  }

  /** Delayed commit loses nothing: whatever the registry held and whatever else the uninitialised record holds,
      loading a tree of the written shape commits every parameter and every constraint exactly once, in order, to its
      own domain, and touches no memory it does not own. */
  lemma TreeLoaded(l: Load, doms: seq<Domain>)
    requires l.Load? && NothingPending(l.box) && forall i :: 0 <= i < |doms| ==> CStrings(doms[i])
    ensures Value(l, RegistryJson(doms), 0).Load?
    ensures Value(l, RegistryJson(doms), 0).ds == Merge(l.ds, doms, |doms|)
  {
    assert Flush(l) == l;
    hide Value, Flush, CStrings, RegistryJson;
    if doms == [] {
      NothingMerged(l);
    } else {
      TreeMerged(l, doms);
    }
  }

  lemma NothingMerged(l: Load)
    requires l.Load?
    ensures Value(l, RegistryJson([]), 0) == l && Merge(l.ds, [], 0) == l.ds
  {
    hide Value;
    TopValue(l, []);
    NoMember(l, [], 1);
  }

  // ---------------------------------------------------------------- a stale record

  /** How many parameters and constraints a registry has. */
  function Total(ds: seq<Domain>): nat {
    if ds == [] then 0 else Total(ds[..|ds| - 1]) + |ds[|ds| - 1].params| + |ds[|ds| - 1].constraints|
  }

  lemma {:induction false} TotalUpdated(ds: seq<Domain>, d: nat, dom: Domain)
    requires d < |ds|
    ensures Total(ds[d := dom])
         == Total(ds) - |ds[d].params| - |ds[d].constraints| + |dom.params| + |dom.constraints|
    decreases |ds|
  {
    var n := |ds| - 1;
    if d == n {
      assert ds[d := dom][..n] == ds[..n];
    } else {
      TotalUpdated(ds[..n], d, dom);
      assert ds[d := dom][..n] == ds[..n][d := dom];
    }
  }

  lemma TotalMergedOne(ds: seq<Domain>, dom: Domain)
    ensures Total(MergeOne(ds, dom)) == Total(ds) + |dom.params| + |dom.constraints|
  {
    var r := AddDomain(ds, dom.name);
    assert Total(r) == Total(ds) by {
      if r != ds { assert r[..|r| - 1] == ds; }
    }
    hide Total, AddDomain, IndexOf;
    var d := IndexOf(DomainNames(r), dom.name).value;
    var p := AddParams(r, d, AllSettled(dom.params));
    TotalUpdated(r, d, p[d]);
    TotalUpdated(p, d, AddConstraints(p, d, dom.constraints)[d]);
  }

  lemma {:induction false} TotalMerged(ds: seq<Domain>, doms: seq<Domain>, k: nat)
    requires k <= |doms|
    ensures Total(Merge(ds, doms, k)) == Total(ds) + Total(doms[..k])
    decreases k
  {
    hide MergeOne;
    if k == 0 {
      assert doms[..0] == [];
    } else {
      TotalMerged(ds, doms, k - 1);
      TotalMergedOne(Merge(ds, doms, k - 1), doms[k - 1]);
      assert doms[..k][..k - 1] == doms[..k - 1];
    }
  }

  /** What is pending in a record that claims to be in a domain is one parameter, one constraint, or one of each. */
  lemma FlushAdds(l: Load)
    requires l.Load? && l.box.inDomain && Flush(l).Load?
    ensures Total(Flush(l).ds)
         == Total(l.ds) + (if l.box.paramCounter > 0 then 1 else 0) + (if l.box.constraintCounter > 0 then 1 else 0)
  {
    hide Total;
    var p := CommitParam(l);
    if l.box.paramCounter > 0 {
      TotalUpdated(l.ds, l.box.current.value, p.ds[l.box.current.value]);
    }
    if l.box.constraintCounter > 0 {
      TotalUpdated(p.ds, l.box.current.value, CommitConstraint(p).ds[l.box.current.value]);
    }
  }

  /** A record that claims to be in a domain commits what it has pending before anything is read, or faults. */
  lemma {:induction false} StaleMembers(l: Load, ms: seq<Member>, k: nat)
    requires l.Load? && Flush(l) == Fault && 0 < k <= |ms|
    ensures LoadMembers(l, ms, k, 1) == Fault
    decreases k
  {
    hide CommitParam, CommitConstraint, Merge;
    if k == 1 {
      NoMember(l, ms, 1);
    } else {
      StaleMembers(l, ms, k - 1);
    }
  }

  lemma StaleFault(l: Load, doms: seq<Domain>)
    requires l.Load? && Flush(l) == Fault && doms != []
    ensures Value(l, RegistryJson(doms), 0) == Fault
  {
    hide LoadMembers, Value, DomainMembers, Flush;
    MembersCount(doms);
    StaleMembers(l, DomainMembers(doms), |doms|);
    TopValue(l, DomainMembers(doms));
  }

  lemma StalePending(l: Load, doms: seq<Domain>)
    requires l.Load? && !NothingPending(l.box) && doms != [] && forall i :: 0 <= i < |doms| ==> CStrings(doms[i])
    ensures var r := Value(l, RegistryJson(doms), 0); !(r.Load? && r.ds == Merge(l.ds, doms, |doms|))
  {
    hide Value, RegistryJson, Merge, Flush, CStrings, Total;
    if Flush(l).Load? {
      TreeMerged(l, doms);
      FlushAdds(l);
      TotalMerged(l.ds, doms, |doms|);
      TotalMerged(Flush(l).ds, doms, |doms|);
    } else {
      StaleFault(l, doms);
    }
  }

  /** Exactly when the record that is never initialised does no harm: a file with domains is loaded as it should be if
      and only if the record does not claim to be in a domain, or claims it with nothing to commit. */
  lemma StaleRecord(l: Load, doms: seq<Domain>)
    requires l.Load? && forall i :: 0 <= i < |doms| ==> CStrings(doms[i])
    ensures var r := Value(l, RegistryJson(doms), 0);
            r.Load? && r.ds == Merge(l.ds, doms, |doms|) <==> doms == [] || NothingPending(l.box)
  {
    hide Value, RegistryJson, Merge, CStrings, NothingPending;
    if doms == [] {
      NothingMerged(l);
    } else if NothingPending(l.box) {
      TreeLoaded(l, doms);
    } else {
      StalePending(l, doms);
    }
  }

  /** Such a record with a parameter to commit and no domain faults on every file with a domain in it. */
  lemma StaleRecordFaults(l: Load, doms: seq<Domain>)
    requires l.Load? && l.box.inDomain && l.box.paramCounter > 0 && l.box.current.None? && doms != []
    ensures Value(l, RegistryJson(doms), 0) == Fault
  {
    assert Flush(l) == Fault;
    hide Value, RegistryJson, Flush;
    StaleFault(l, doms);
  }

  // ---------------------------------------------------------------- a fresh registry

  /** The registry as `ATP_init` leaves it. */
  function FreshRegistry(): seq<Domain> {
    [Domain(DEFAULT_DOMAIN, [], [])]
  }

  predicate AllSet(ds: seq<Domain>) {
    forall i, j :: 0 <= i < |ds| && 0 <= j < |ds[i].params| ==> ds[i].params[j].values.Some?
  }

  lemma SettledAlready(ps: seq<Param>)
    requires forall j :: 0 <= j < |ps| ==> ps[j].values.Some?
    ensures AllSettled(ps) == ps
  {
    assert forall j :: 0 <= j < |ps| ==> Settled(ps[j]) == ps[j];
  }

  lemma MergedFirst(dom: Domain)
    requires dom.name == DEFAULT_DOMAIN && forall j :: 0 <= j < |dom.params| ==> dom.params[j].values.Some?
    ensures MergeOne(FreshRegistry(), dom) == [dom]
  {
    SettledAlready(dom.params);
    assert DomainNames(FreshRegistry())[0] == DEFAULT_DOMAIN;
    assert [] + dom.params == dom.params && [] + dom.constraints == dom.constraints;
  }

  lemma MergedNew(ds: seq<Domain>, dom: Domain)
    requires dom.name !in DomainNames(ds) && forall j :: 0 <= j < |dom.params| ==> dom.params[j].values.Some?
    ensures MergeOne(ds, dom) == ds + [dom]
  {
    SettledAlready(dom.params);
    var r := ds + [Domain(dom.name, [], [])];
    assert AddDomain(ds, dom.name) == r;
    var d := IndexOf(DomainNames(r), dom.name).value;
    forall i | 0 <= i < |ds| ensures DomainNames(r)[i] != dom.name {
      assert DomainNames(r)[i] == DomainNames(ds)[i];
    }
    assert [] + dom.params == dom.params && [] + dom.constraints == dom.constraints;
  }

  lemma NewName(doms: seq<Domain>, k: nat)
    requires Unique(DomainNames(doms)) && k < |doms|
    ensures doms[k].name !in DomainNames(doms[..k])
  {
    forall i | 0 <= i < k ensures DomainNames(doms[..k])[i] != doms[k].name {
      assert DomainNames(doms)[i] != DomainNames(doms)[k];
    }
  }

  lemma NextMerged(doms: seq<Domain>, k: nat)
    requires Unique(DomainNames(doms)) && AllSet(doms) && k < |doms|
    ensures MergeOne(doms[..k], doms[k]) == doms[..k + 1]
  {
    NewName(doms, k);
    hide MergeOne, Unique, DomainNames;
    MergedNew(doms[..k], doms[k]);
    assert doms[..k + 1] == doms[..k] + [doms[k]];
  }

  lemma {:induction false} MergeIsIdentity(doms: seq<Domain>, k: nat)
    requires WellFormed(doms) && AllSet(doms) && k <= |doms|
    ensures Merge(FreshRegistry(), doms, k) == if k == 0 then FreshRegistry() else doms[..k]
    decreases k
  {
    hide MergeOne, FreshRegistry, Unique, UniqueParams, UniqueConstraints, AllValuesFit;
    if k == 1 {
      MergedFirst(doms[0]);
      assert doms[..1] == [doms[0]];
    } else if k > 1 {
      hide AllSet;
      MergeIsIdentity(doms, k - 1);
      NextMerged(doms, k - 1);
    }
  }

  /** The tree written for a well-formed registry, loaded into a fresh one, gives that registry, exactly when the
      record has nothing pending. */
  lemma FreshLoad(doms: seq<Domain>, box: Box)
    requires WellFormed(doms) && AllSet(doms) && forall i :: 0 <= i < |doms| ==> CStrings(doms[i])
    ensures var r := Value(Load(FreshRegistry(), box), RegistryJson(doms), 0);
            r.Load? && r.ds == doms <==> NothingPending(box)
  {
    hide Value, RegistryJson, Merge, FreshRegistry, NothingPending;
    StaleRecord(Load(FreshRegistry(), box), doms);
    MergeIsIdentity(doms, |doms|);
    assert doms[..|doms|] == doms;
  }
}
