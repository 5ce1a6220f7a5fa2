/** What the calls of the declaration API (src/atplib/atplib.c) do, call by call and over whole runs.  A run is kept as
    a ledger: one list of the parameters and one of the constraints in the order in which they were declared, each
    under the name of its domain, and what the call found that closed the ledger.  The registry is the ledger sorted by
    domain, and the files are touched as the closing says. */
module ApiLedger {
  import opened Options
  import opened RegistryModel
  import opened Description
  import opened DescWriter
  import opened AtpCommon
  import opened ApiModel

  // ---------------------------------------------------------------- one call

  function Key(dom: Option<string>): string {
    match dom case Some(name) => name case None => "default"
  }

  predicate Active(l: Lib) {
    l.Lib? && l.initialized && l.collection == 1
  }

  /** The first domain of that name is the one at `i`. */
  predicate FirstNamed(ds: seq<Domain>, i: nat, key: string) {
    i < |ds| && ds[i].name == key && forall k :: 0 <= k < i ==> ds[k].name != key
  }

  predicate NoDomainNamed(ds: seq<Domain>, key: string) {
    forall i :: 0 <= i < |ds| ==> ds[i].name != key
  }

  predicate NoParamNamed(ds: seq<Domain>, name: string) {
    forall i, j :: 0 <= i < |ds| && 0 <= j < |ds[i].params| ==> ds[i].params[j].name != name
  }

  /** Everything but the domain at `i` is as it was. */
  predicate OnlyAt(ds: seq<Domain>, ds': seq<Domain>, i: nat) {
    |ds'| == |ds| && forall k :: 0 <= k < |ds| && k != i ==> ds'[k] == ds[k]
  }

  lemma FoundFirst(ds: seq<Domain>, key: string)
    ensures match IndexOf(DomainNames(ds), key)
            case Some(i) => FirstNamed(ds, i, key)
            case None => NoDomainNamed(ds, key)
  {
    var names := DomainNames(ds);
    match IndexOf(names, key) {
      case Some(i) => assert forall k :: 0 <= k < i ==> names[..i][k] == ds[k].name;
      case None => assert forall k :: 0 <= k < |ds| ==> names[k] in names;
    }
  }

  lemma OneFirst(ds: seq<Domain>, i: nat, j: nat, key: string)
    requires FirstNamed(ds, i, key) && FirstNamed(ds, j, key)
    ensures i == j
  {
  }

  /** The domain that a declaration goes to: the first of that name, or a new one at the end. */
  lemma DomainOf(ds: seq<Domain>, key: string) returns (i: nat)
    ensures IndexOf(DomainNames(AddDomain(ds, key)), key) == Some(i)
    ensures if NoDomainNamed(ds, key) then i == |ds| && AddDomain(ds, key) == ds + [Domain(key, [], [])]
            else FirstNamed(ds, i, key) && AddDomain(ds, key) == ds
  {
    FoundFirst(ds, key);
    FoundFirst(AddDomain(ds, key), key);
    hide IndexOf, DomainNames;
    i := IndexOf(DomainNames(AddDomain(ds, key)), key).value;
    if NoDomainNamed(ds, key) { assert AddDomain(ds, key)[|ds|].name == key; }
  }

  lemma ActiveCall(l: Lib, c: Call, w: World)
    requires Active(l) && w.dta && !c.EndCollection?
    ensures Apply(l, c, w) == Declare(l, c, w)
  {
  }

  lemma NothingNamed(ds: seq<Domain>, name: string)
    ensures FindUnique(ds, name).None? <==> NoParamNamed(ds, name)
  {
  }

  lemma KeyOfDomain(dom: Option<string>)
    ensures DomainKey(dom) == Key(dom)
  {
  }

  /** The registry with `d` in place of the first domain of its name, or at the end if there is none. */
  predicate Placed(ds: seq<Domain>, ds': seq<Domain>, i: nat, d: Domain) {
    if NoDomainNamed(ds, d.name) then i == |ds| && ds' == ds + [d]
    else FirstNamed(ds, i, d.name) && OnlyAt(ds, ds', i) && ds'[i] == d
  }

  /** The domain at `i`, or an empty one of the name. */
  function DomainAt(ds: seq<Domain>, i: nat, key: string): Domain {
    if i < |ds| then ds[i] else Domain(key, [], [])
  }

  lemma AddedParam(ds: seq<Domain>, key: string, i: nat, p: Param)
    requires IndexOf(DomainNames(AddDomain(ds, key)), key) == Some(i)
    requires if NoDomainNamed(ds, key) then i == |ds| && AddDomain(ds, key) == ds + [Domain(key, [], [])]
             else FirstNamed(ds, i, key) && AddDomain(ds, key) == ds
    ensures i < |AddDomain(ds, key)|
    ensures var d := DomainAt(ds, i, key);
            d.name == key && Placed(ds, AddParam(AddDomain(ds, key), i, p), i, d.(params := d.params + [p]))
  {
    hide AddDomain, IndexOf, DomainNames;
    if NoDomainNamed(ds, key) { LastReplaced(ds, Domain(key, [], []), Domain(key, [p], [])); }
  }

  lemma NewParam(l: Lib, p: Param, dom: Option<string>, w: World) returns (i: nat)
    requires l.Lib? && NoParamNamed(l.ds, p.name)
    ensures var r := DeclareParam(l, p, dom, w); var d := DomainAt(l.ds, i, Key(dom));
            && r.Lib? && r == l.(ds := r.ds) && d.name == Key(dom)
            && Placed(l.ds, r.ds, i, Domain(d.name, d.params + [p], d.constraints))
  {
    KeyOfDomain(dom);
    i := DomainOf(l.ds, Key(dom));
    assert NoParamNamed(AddDomain(l.ds, Key(dom)), p.name);
    AddedParam(l.ds, Key(dom), i, p);
    NothingNamed(AddDomain(l.ds, Key(dom)), p.name);
    hide AddDomain, IndexOf, DomainNames, NoDomainNamed, Placed, NoParamNamed, FindUnique, AddParam, DomainAt, OnlyAt;
  }

  /** An active declaration of a name that no domain has: one parameter more, at the end of the first domain of the
      name given, or of a new one at the end, with the type and the default given and no values.  Whatever was there is
      still there, unchanged and in its place. */
  lemma ParamDeclared(l: Lib, name: string, ptype: UInt8, deflt: Int32, dom: Option<string>, w: World) returns (i: nat)
    requires Active(l) && w.dta && NoParamNamed(l.ds, name)
    ensures var r := Apply(l, ParamDeclare(name, ptype, deflt, dom), w); var d := DomainAt(l.ds, i, Key(dom));
            && r.Lib? && r == l.(ds := r.ds) && d.name == Key(dom)
            && Placed(l.ds, r.ds, i,
                      Domain(d.name, d.params + [Param(name, ptype, deflt, None)], d.constraints))
  {
    ActiveCall(l, ParamDeclare(name, ptype, deflt, dom), w);
    hide Apply, DeclareParam, Placed, NoParamNamed, DomainAt, Active;
    i := NewParam(l, Param(name, ptype, deflt, None), dom, w);
  }

  lemma LastReplaced(ds: seq<Domain>, d: Domain, d': Domain)
    ensures (ds + [d])[|ds| := d'] == ds + [d']
  {
  }

  /** What the end of a collection does to files: the lock is refused exactly when the lock file is there; otherwise it
      is created, and the description file is written if and only if it can be opened. */
  predicate Filed(before: seq<FileOp>, after: seq<FileOp>, text: Option<string>, w: World) {
    after == before + (if w.locked then [LockRefused] else [LockCreated] + (if w.writable then [Write(text)] else []))
  }

  /** The text of the registry, if all values have been set. */
  function TextOf(ds: seq<Domain>): Option<string> {
    if forall i, j :: 0 <= i < |ds| && 0 <= j < |ds[i].params| ==> ds[i].params[j].values.Some? then Some(DescText(ds))
    else None
  }

  /** The collection has ended; nothing else has changed but the registry, which is `ds`. */
  predicate EndedWith(l: Lib, r: Lib, ds: seq<Domain>, w: World)
    requires l.Lib?
  {
    r.Lib? && r == l.(ds := ds, collection := 0, ops := r.ops) && Filed(l.ops, r.ops, TextOf(ds), w)
  }

  lemma Ended(l: Lib, w: World)
    requires Active(l)
    ensures EndedWith(l, End(l, w), l.ds, w)
    ensures Apply(l, EndCollection, w) == End(l, w)
  {
    TextIsText(l.ds);
    hide AllValued, TextOf, DescText;
  }

  lemma TextIsText(ds: seq<Domain>)
    ensures TextOf(ds) == if AllValued(ds) then Some(DescText(ds)) else None
  {
    hide DescText;
    if AllValued(ds) {
      forall i, j | 0 <= i < |ds| && 0 <= j < |ds[i].params| ensures ds[i].params[j].values.Some? {
        assert Valued(ds[i].params);
      }
    } else {
      var i :| 0 <= i < |ds| && !Valued(ds[i].params);
    }
  }

  /** Declaring a parameter whose name some domain has ends the collection; the domain named is there afterwards. */
  lemma ParamRefused(l: Lib, name: string, ptype: UInt8, deflt: Int32, dom: Option<string>, w: World)
    requires Active(l) && w.dta && !NoParamNamed(l.ds, name)
    ensures EndedWith(l, Apply(l, ParamDeclare(name, ptype, deflt, dom), w),
                      if NoDomainNamed(l.ds, Key(dom)) then l.ds + [Domain(Key(dom), [], [])] else l.ds, w)
  {
    var key := Key(dom);
    ActiveCall(l, ParamDeclare(name, ptype, deflt, dom), w);
    KeyOfDomain(dom);
    var i := DomainOf(l.ds, key);
    var ds := if NoDomainNamed(l.ds, key) then l.ds + [Domain(key, [], [])] else l.ds;
    NothingNamed(ds, name);
    hide AddDomain, IndexOf, DomainNames, FindUnique, Apply, End, TextOf;
    assert !NoParamNamed(ds, name) by {
      var a, b :| 0 <= a < |l.ds| && 0 <= b < |l.ds[a].params| && l.ds[a].params[b].name == name;
      assert ds[a] == l.ds[a];
    }
    Ended(l.(ds := ds), w);
  }

  /** The first parameter of that name in the list is the one at `j`. */
  predicate FirstParam(ps: seq<Param>, j: nat, name: string) {
    j < |ps| && ps[j].name == name && forall k :: 0 <= k < j ==> ps[k].name != name
  }

  predicate NoneNamed(ps: seq<Param>, name: string) {
    forall p <- ps :: p.name != name
  }

  /** There must be some values, and for a range, whose type is 1, three. */
  function WithValues(p: Param, values: seq<Int32>): Param {
    if values == [] || (p.ptype == 1 && |values| != 3) then p else Param(p.name, p.ptype, p.deflt, Some(values))
  }

  /** Values are given to the first parameter of the name in the first domain of its name, if there is one and they
      fit; nothing else changes. */
  lemma ValuesAdded(l: Lib, name: string, values: seq<Int32>, dom: Option<string>, w: World) returns (i: nat, j: nat)
    requires Active(l) && w.dta
    ensures var r := Apply(l, ParamAddValues(Some(name), Some(values), dom), w);
            && r.Lib? && r == l.(ds := r.ds)
            && if NoDomainNamed(l.ds, Key(dom)) then r.ds == l.ds
               else
                 && FirstNamed(l.ds, i, Key(dom))
                 && if NoneNamed(l.ds[i].params, name) then r.ds == l.ds
                    else
                      && FirstParam(l.ds[i].params, j, name)
                      && Placed(l.ds, r.ds, i,
                                Domain(l.ds[i].name, l.ds[i].params[j := WithValues(l.ds[i].params[j], values)],
                                       l.ds[i].constraints))
  {
    var key := Key(dom);
    i, j := 0, 0;
    ActiveCall(l, ParamAddValues(Some(name), Some(values), dom), w);
    KeyOfDomain(dom);
    FoundFirst(l.ds, key);
    hide IndexOf, DomainNames, ParamNames, Apply, Active;
    var d := FindDomain(l.ds, dom);
    if d.Some? {
      i := d.value;
      var ps := l.ds[i].params;
      ParamFound(ps, name);
      var found := IndexOf(ParamNames(ps), name);
      if found.Some? {
        j := found.value;
        hide NoDomainNamed, NoneNamed, FirstNamed, FirstParam;
        assert ps[j := ps[j]] == ps && l.ds[i := l.ds[i]] == l.ds;
        assert AddValues(l, name, values, dom).ds
            == l.ds[i := Domain(l.ds[i].name, ps[j := WithValues(ps[j], values)], l.ds[i].constraints)];
      }
    }
  }

  lemma ParamFound(ps: seq<Param>, name: string)
    ensures match IndexOf(ParamNames(ps), name)
            case Some(j) => FirstParam(ps, j, name) && !NoneNamed(ps, name)
            case None => NoneNamed(ps, name)
  {
    var names := ParamNames(ps);
    match IndexOf(names, name) {
      case Some(j) => assert forall k :: 0 <= k < j ==> names[..j][k] == ps[k].name;
      case None => assert forall k :: 0 <= k < |ps| ==> names[k] in names;
    }
  }

  predicate ConstraintNamed(cs: seq<Constraint>, name: string) {
    exists c <- cs :: c.name == name
  }

  lemma ConstraintFound(cs: seq<Constraint>, name: string)
    ensures IndexOf(ConstraintNames(cs), name).Some? <==> ConstraintNamed(cs, name)
  {
    var names := ConstraintNames(cs);
    match IndexOf(names, name) {
      case Some(j) => assert cs[j] in cs;
      case None => assert forall k :: 0 <= k < |cs| ==> names[k] in names;
    }
  }

  lemma NotNowhere(ds: seq<Domain>, i: nat, key: string)
    requires FirstNamed(ds, i, key)
    ensures !NoDomainNamed(ds, key)
  {
  }

  lemma AddedConstraint(ds: seq<Domain>, i: nat, c: Constraint)
    requires i < |ds| && FirstNamed(ds, i, ds[i].name)
    ensures Placed(ds, AddConstraint(ds, i, c), i, Domain(ds[i].name, ds[i].params, ds[i].constraints + [c]))
  {
    NotNowhere(ds, i, ds[i].name);
  }

  lemma NewConstraint(l: Lib, c: Constraint, dom: Option<string>, w: World) returns (i: nat)
    requires Active(l)
    ensures var r := DeclareConstraint(l, c, dom, w);
            && r.Lib?
            && if NoDomainNamed(l.ds, Key(dom)) then r == l
               else
                 && FirstNamed(l.ds, i, Key(dom))
                 && if ConstraintNamed(l.ds[i].constraints, c.name) then EndedWith(l, r, l.ds, w)
                    else
                      && r == l.(ds := r.ds)
                      && Placed(l.ds, r.ds, i, Domain(l.ds[i].name, l.ds[i].params, l.ds[i].constraints + [c]))
  {
    i := 0;
    KeyOfDomain(dom);
    FoundFirst(l.ds, Key(dom));
    Ended(l, w);
    var d := FindDomain(l.ds, dom);
    if d.Some? {
      i := d.value;
      NotNowhere(l.ds, i, Key(dom));
      AddedConstraint(l.ds, i, c);
      hide IndexOf, DomainNames, ConstraintNames, Active, End, EndedWith, ConstraintNamed, NoDomainNamed, Placed,
        AddConstraint, FirstNamed;
      ConstraintFound(l.ds[i].constraints, c.name);
    }
  }

  /** A constraint whose name its domain does not have is added at the end of the domain; a name that it has ends the
      collection; without the domain nothing happens. */
  lemma ConstraintDeclared(l: Lib, name: string, expr: string, dom: Option<string>, w: World) returns (i: nat)
    requires Active(l) && w.dta
    ensures var r := Apply(l, ConstraintDeclare(Some(name), Some(expr), dom), w); var c := Constraint(name, expr);
            && r.Lib?
            && if NoDomainNamed(l.ds, Key(dom)) then r == l
               else
                 && FirstNamed(l.ds, i, Key(dom))
                 && if ConstraintNamed(l.ds[i].constraints, name) then EndedWith(l, r, l.ds, w)
                    else
                      && r == l.(ds := r.ds)
                      && Placed(l.ds, r.ds, i, Domain(l.ds[i].name, l.ds[i].params, l.ds[i].constraints + [c]))
  {
    ActiveCall(l, ConstraintDeclare(Some(name), Some(expr), dom), w);
    hide Apply, DeclareConstraint, Placed, FirstNamed, Active, EndedWith, NoDomainNamed, ConstraintNamed;
    i := NewConstraint(l, Constraint(name, expr), dom, w);
  }

  // ---------------------------------------------------------------- the ledger

  datatype Ledger =
    | Unopened
    | Ledger(open: bool, domains: seq<string>, params: seq<(string, Param)>, constraints: seq<(string, Constraint)>,
             closing: Option<World>)

  predicate ParamEntered(es: seq<(string, Param)>, name: string) {
    exists i :: 0 <= i < |es| && es[i].1.name == name
  }

  predicate ConstraintEntered(es: seq<(string, Constraint)>, key: string, name: string) {
    exists i :: 0 <= i < |es| && es[i].0 == key && es[i].1.name == name
  }

  /** The entries with values for those of that domain and name. */
  function Amended(es: seq<(string, Param)>, key: string, name: string, values: seq<Int32>): seq<(string, Param)> {
    if es == [] then []
    else
      var e := es[0];
      [if e.0 == key && e.1.name == name then (key, WithValues(e.1, values)) else e]
      + Amended(es[1..], key, name, values)
  }

  function WithDomain(g: Ledger, key: string): (r: Ledger)
    requires g.Ledger?
    ensures r.Ledger?
  {
    if key in g.domains then g else g.(domains := g.domains + [key])
  }

  function WithParam(g: Ledger, key: string, p: Param): (r: Ledger)
    requires g.Ledger?
    ensures r.Ledger?
  {
    var h := WithDomain(g, key);
    h.(params := g.params + [(key, p)])
  }

  /** What an open ledger makes of a call.  Declaring a parameter whose name is in use, in whichever domain, or a
      constraint whose name is in use in its domain, closes it. */
  function Entered(g: Ledger, c: Call, w: World): (r: Ledger)
    requires g.Ledger?
    ensures r.Ledger?
  {
    match c
    case ParamDeclare(name, ptype, deflt, dom) =>
      var h := WithDomain(g, Key(dom));
      if ParamEntered(g.params, name) then h.(open := false, closing := Some(w))
      else WithParam(g, Key(dom), Param(name, ptype, deflt, None))
    case ParamAddValues(Some(name), Some(values), dom) => g.(params := Amended(g.params, Key(dom), name, values))
    case ConstraintDeclare(Some(name), Some(expr), dom) =>
      if Key(dom) !in g.domains then g
      else if ConstraintEntered(g.constraints, Key(dom), name) then g.(open := false, closing := Some(w))
      else g.(constraints := g.constraints + [(Key(dom), Constraint(name, expr))])
    case EndCollection => g.(open := false, closing := Some(w))
    case _ => g
  }

  const EMPTY := Ledger(true, ["default"], [], [], None)

  /** The first call that is not an end opens the ledger; nothing enters a closed one. */
  function Noted(g: Ledger, c: Call, w: World): Ledger {
    if g.Unopened? then (if c.EndCollection? then g else Entered(EMPTY, c, w))
    else if g.open then Entered(g, c, w) else g
  }

  function Book(g: Ledger, calls: seq<(Call, World)>): Ledger
    decreases |calls|
  {
    if calls == [] then g else Book(Noted(g, calls[0].0, calls[0].1), calls[1..])
  }

  /** The entries of one domain, in their order. */
  function Of<T>(es: seq<(string, T)>, key: string): seq<T> {
    if es == [] then [] else (if es[0].0 == key then [es[0].1] else []) + Of(es[1..], key)
  }

  function Sheet(g: Ledger, key: string): Domain
    requires g.Ledger?
  {
    Domain(key, Of(g.params, key), Of(g.constraints, key))
  }

  /** The registry is the ledger, sorted by domain. */
  predicate Booked(ds: seq<Domain>, g: Ledger)
    requires g.Ledger?
  {
    |ds| == |g.domains| && forall i :: 0 <= i < |ds| ==> ds[i] == Sheet(g, g.domains[i])
  }

  /** Every entry is under a domain of the ledger. */
  predicate Kept<T>(es: seq<(string, T)>, domains: seq<string>) {
    forall i :: 0 <= i < |es| ==> es[i].0 in domains
  }

  /** The library is as the ledger says: its stage, its registry, and the files it has touched. */
  predicate Accounted(l: Lib, g: Ledger) {
    match g
    case Unopened => l == START
    case Ledger(open, domains, params, constraints, closing) =>
      && l.Lib? && l.initialized && !l.loaded && l.collection == (if open then 1 else 0)
      && Booked(l.ds, g) && Kept(params, domains) && Kept(constraints, domains)
      && match closing
         case None => open && l.ops == [RemoveLock]
         case Some(w) => !open && Filed([RemoveLock], l.ops, TextOf(l.ds), w)
  }

  lemma {:induction false} OfMore<T>(es: seq<(string, T)>, e: (string, T), key: string)
    ensures Of(es + [e], key) == Of(es, key) + (if e.0 == key then [e.1] else [])
  {
    if es == [] {
      assert [e][1..] == [];
    } else {
      assert (es + [e])[1..] == es[1..] + [e];
      OfMore(es[1..], e, key);
    }
  }

  lemma {:induction false} OfHas<T>(es: seq<(string, T)>, key: string)
    ensures forall x :: x in Of(es, key) <==> (key, x) in es
  {
    if es == [] {
    } else {
      OfHas(es[1..], key);
      forall x ensures x in Of(es, key) <==> (key, x) in es {
        assert es == [es[0]] + es[1..];
      }
    }
  }

  lemma {:induction false} OfNothing<T>(es: seq<(string, T)>, domains: seq<string>, key: string)
    requires Kept(es, domains) && key !in domains
    ensures Of(es, key) == []
  {
    if es == [] {
    } else {
      OfNothing(es[1..], domains, key);
    }
  }

  /** The values given to the parameters of one name. */
  function Given(ps: seq<Param>, name: string, values: seq<Int32>): seq<Param> {
    if ps == [] then []
    else [if ps[0].name == name then WithValues(ps[0], values) else ps[0]] + Given(ps[1..], name, values)
  }

  lemma {:induction false} OfAmended(es: seq<(string, Param)>, key: string, name: string, values: seq<Int32>, k: string)
    ensures Of(Amended(es, key, name, values), k)
         == if k == key then Given(Of(es, key), name, values) else Of(es, k)
  {
    hide WithValues;
    if es == [] {
    } else {
      OfAmended(es[1..], key, name, values, k);
      var e, rest := es[0], Of(es[1..], k);
      var v := Amended(es, key, name, values);
      assert v[1..] == Amended(es[1..], key, name, values) && v[0].0 == e.0;
      if e.0 == k {
        assert Of(es, k) == [e.1] + rest && ([e.1] + rest)[1..] == rest;
        assert Of(v, k) == [v[0].1] + Of(v[1..], k);
      } else {
        assert Of(es, k) == [] + rest == rest;
        assert Of(v, k) == [] + Of(v[1..], k) == Of(v[1..], k);
      }
    }
  }

  lemma {:induction false} GivenOnce(ps: seq<Param>, name: string, values: seq<Int32>, j: nat)
    requires FirstParam(ps, j, name)
    requires forall k :: 0 <= k < |ps| && k != j ==> ps[k].name != name
    ensures Given(ps, name, values) == ps[j := WithValues(ps[j], values)]
  {
    hide WithValues;
    if j == 0 {
      assert NoneNamed(ps[1..], name);
      GivenNowhere(ps[1..], name, values);
    } else {
      GivenOnce(ps[1..], name, values, j - 1);
    }
  }

  lemma {:induction false} GivenNowhere(ps: seq<Param>, name: string, values: seq<Int32>)
    requires NoneNamed(ps, name)
    ensures Given(ps, name, values) == ps
  {
    if ps == [] {
    } else {
      assert ps[0] in ps && forall p <- ps[1..] :: p in ps;
      GivenNowhere(ps[1..], name, values);
    }
  }

  lemma {:induction false} ValuedKept(es: seq<(string, Param)>, key: string, name: string, values: seq<Int32>,
                                      domains: seq<string>)
    requires Kept(es, domains)
    ensures Kept(Amended(es, key, name, values), domains)
  {
    if es == [] {
    } else {
      ValuedKept(es[1..], key, name, values, domains);
    }
  }

  // ---------------------------------------------------------------- the registry is the ledger, sorted

  lemma NamesUnique(ds: seq<Domain>, g: Ledger)
    requires g.Ledger? && Booked(ds, g) && Unique(DomainNames(ds))
    ensures forall i, j :: 0 <= i < |ds| && 0 <= j < |ds| && ds[i].name == ds[j].name ==> i == j
    ensures forall i :: 0 <= i < |ds| ==> ds[i].name == g.domains[i]
  {
    forall i, j | 0 <= i < |ds| && 0 <= j < |ds| && ds[i].name == ds[j].name ensures i == j {
      assert DomainNames(ds)[i] == DomainNames(ds)[j];
    }
  }

  lemma InDomains(ds: seq<Domain>, g: Ledger, key: string)
    requires g.Ledger? && Booked(ds, g)
    ensures NoDomainNamed(ds, key) <==> key !in g.domains
  {
    if key in g.domains {
      var i :| 0 <= i < |g.domains| && g.domains[i] == key;
      assert ds[i].name == key;
    }
  }

  /** What one domain of the registry shows of the ledger. */
  lemma SheetAt(ds: seq<Domain>, g: Ledger, i: nat, key: string)
    requires g.Ledger? && Booked(ds, g) && Kept(g.params, g.domains) && Kept(g.constraints, g.domains)
    requires if NoDomainNamed(ds, key) then i == |ds| else FirstNamed(ds, i, key)
    ensures DomainAt(ds, i, key) == Sheet(g, key)
  {
    InDomains(ds, g, key);
    if NoDomainNamed(ds, key) {
      OfNothing(g.params, g.domains, key);
      OfNothing(g.constraints, g.domains, key);
    }
  }

  /** A change of one domain in the registry is a change of its entries in the ledger. */
  lemma PlacedBooked(ds: seq<Domain>, ds': seq<Domain>, i: nat, key: string, g: Ledger, h: Ledger)
    requires g.Ledger? && h.Ledger? && Booked(ds, g) && Unique(DomainNames(ds))
    requires h.domains == WithDomain(g, key).domains && Placed(ds, ds', i, Sheet(h, key))
    requires forall k :: k != key ==> Sheet(h, k) == Sheet(g, k)
    ensures Booked(ds', h)
  {
    InDomains(ds, g, key);
    NamesUnique(ds, g);
    hide Of, Unique;
    forall k | 0 <= k < |ds'| ensures ds'[k] == Sheet(h, h.domains[k]) {
      if k < |ds| && k != i { assert ds'[k] == ds[k] == Sheet(g, g.domains[k]); }
    }
  }

  lemma {:induction false} KeptLonger<T>(es: seq<(string, T)>, domains: seq<string>, key: string)
    requires Kept(es, domains)
    ensures Kept(es, domains + [key])
  {
  }

  lemma KeptMore<T>(es: seq<(string, T)>, e: (string, T), domains: seq<string>)
    requires Kept(es, domains) && e.0 in domains
    ensures Kept(es + [e], domains)
  {
  }

  lemma ParamEnteredIsNamed(ds: seq<Domain>, g: Ledger, name: string)
    requires g.Ledger? && Booked(ds, g) && Kept(g.params, g.domains)
    ensures NoParamNamed(ds, name) <==> !ParamEntered(g.params, name)
  {
    if ParamEntered(g.params, name) {
      var k :| 0 <= k < |g.params| && g.params[k].1.name == name;
      var (key, p) := g.params[k];
      var i :| 0 <= i < |g.domains| && g.domains[i] == key;
      OfHas(g.params, key);
      assert (key, p) in g.params;
      hide Of;
      assert p in ds[i].params;
      var j :| 0 <= j < |ds[i].params| && ds[i].params[j] == p;
    }
    if !NoParamNamed(ds, name) {
      var i, j :| 0 <= i < |ds| && 0 <= j < |ds[i].params| && ds[i].params[j].name == name;
      OfHas(g.params, g.domains[i]);
      hide Of;
      assert ds[i].params[j] in Of(g.params, g.domains[i]);
    }
  }

  lemma ConstraintEnteredIsNamed(es: seq<(string, Constraint)>, key: string, name: string)
    ensures ConstraintNamed(Of(es, key), name) <==> ConstraintEntered(es, key, name)
  {
    OfHas(es, key);
    hide Of;
    if ConstraintEntered(es, key, name) {
      var i :| 0 <= i < |es| && es[i].0 == key && es[i].1.name == name;
      assert (key, es[i].1) in es;
    }
    if ConstraintNamed(Of(es, key), name) {
      var c :| c in Of(es, key) && c.name == name;
      assert (key, c) in es;
    }
  }

  lemma DomainBooked(ds: seq<Domain>, g: Ledger, key: string)
    requires g.Ledger? && Booked(ds, g) && Kept(g.params, g.domains) && Kept(g.constraints, g.domains)
    ensures var ds' := if NoDomainNamed(ds, key) then ds + [Domain(key, [], [])] else ds; var h := WithDomain(g, key);
            && Booked(ds', h) && Kept(h.params, h.domains) && Kept(h.constraints, h.domains) && key in h.domains
  {
    InDomains(ds, g, key);
    if NoDomainNamed(ds, key) {
      OfNothing(g.params, g.domains, key);
      OfNothing(g.constraints, g.domains, key);
      KeptLonger(g.params, g.domains, key);
      KeptLonger(g.constraints, g.domains, key);
    }
  }

  lemma ParamAppended(ds: seq<Domain>, ds': seq<Domain>, i: nat, g: Ledger, key: string, p: Param)
    requires g.Ledger? && Booked(ds, g) && Kept(g.params, g.domains) && Kept(g.constraints, g.domains)
    requires Unique(DomainNames(ds))
    requires var d := DomainAt(ds, i, key);
             d.name == key && Placed(ds, ds', i, Domain(key, d.params + [p], d.constraints))
    ensures var h := WithParam(g, key, p);
            Booked(ds', h) && Kept(h.params, h.domains) && Kept(h.constraints, h.domains)
  {
    hide Of, Unique, Kept;
    DomainBooked(ds, g, key);
    var h := WithParam(g, key, p);
    forall k ensures Of(h.params, k) == Of(g.params, k) + (if k == key then [p] else []) {
      OfMore(g.params, (key, p), k);
    }
    SheetAt(ds, g, i, key);
    KeptMore(g.params, (key, p), h.domains);
    hide NoDomainNamed, FirstNamed, OnlyAt, DomainAt;
    assert forall k :: k != key ==> Sheet(h, k) == Sheet(g, k) by {
      assert forall k: string :: Of(g.params, k) + [] == Of(g.params, k);
    }
    PlacedBooked(ds, ds', i, key, g, h);
  }

  lemma ConstraintAppended(ds: seq<Domain>, ds': seq<Domain>, i: nat, g: Ledger, key: string, c: Constraint)
    requires g.Ledger? && Booked(ds, g) && Kept(g.params, g.domains) && Kept(g.constraints, g.domains)
    requires Unique(DomainNames(ds)) && FirstNamed(ds, i, key)
    requires Placed(ds, ds', i, Domain(key, ds[i].params, ds[i].constraints + [c]))
    ensures var h := g.(constraints := g.constraints + [(key, c)]);
            Booked(ds', h) && Kept(h.constraints, h.domains)
  {
    hide Of, Unique, Kept;
    InDomains(ds, g, key);
    var h := g.(constraints := g.constraints + [(key, c)]);
    forall k ensures Of(h.constraints, k) == Of(g.constraints, k) + (if k == key then [c] else []) {
      OfMore(g.constraints, (key, c), k);
    }
    assert !NoDomainNamed(ds, key);
    SheetAt(ds, g, i, key);
    KeptMore(g.constraints, (key, c), h.domains);
    hide NoDomainNamed, FirstNamed, OnlyAt;
    assert forall k :: k != key ==> Sheet(h, k) == Sheet(g, k) by {
      assert forall k: string :: Of(g.constraints, k) + [] == Of(g.constraints, k);
    }
    PlacedBooked(ds, ds', i, key, g, h);
  }

  /** A call that ends the collection closes the ledger. */
  lemma ClosedAccounted(l: Lib, r: Lib, ds: seq<Domain>, g: Ledger, h: Ledger, w: World)
    requires Active(l) && g.Ledger? && h.Ledger? && Accounted(l, g) && EndedWith(l, r, ds, w)
    requires Booked(ds, h) && Kept(h.params, h.domains) && Kept(h.constraints, h.domains)
    requires !h.open && h.closing == Some(w)
    ensures Accounted(r, h)
  {
    hide Booked, Kept, TextOf;
  }

  lemma NotYetClosed(l: Lib, g: Ledger)
    requires Active(l) && Accounted(l, g)
    ensures g.Ledger? && g.open && g.closing == None && l.ops == [RemoveLock] && Booked(l.ds, g)
    ensures Kept(g.params, g.domains) && Kept(g.constraints, g.domains)
  {
    hide Booked, Kept, TextOf;
  }

  lemma SameBooks(ds: seq<Domain>, g: Ledger, h: Ledger)
    requires g.Ledger? && h.Ledger? && h == g.(open := h.open, closing := h.closing) && Booked(ds, g)
    ensures Booked(ds, h)
  {
  }

  /** A call that only changes the registry leaves the ledger open. */
  lemma StillAccounted(l: Lib, r: Lib, g: Ledger, h: Ledger)
    requires Active(l) && g.Ledger? && h.Ledger? && Accounted(l, g) && r.Lib? && r == l.(ds := r.ds)
    requires Booked(r.ds, h) && Kept(h.params, h.domains) && Kept(h.constraints, h.domains)
    requires h.open && h.closing == None
    ensures Accounted(r, h)
  {
    hide Booked, Kept, TextOf;
  }

  lemma ParamStep(l: Lib, g: Ledger, c: Call, w: World)
    requires Active(l) && w.dta && g.Ledger? && Accounted(l, g) && Unique(DomainNames(l.ds)) && c.ParamDeclare?
    ensures Accounted(Apply(l, c, w), Entered(g, c, w))
  {
    var key, p := Key(c.dom), Param(c.pname, c.ptype, c.deflt, None);
    var r := Apply(l, c, w);
    NotYetClosed(l, g);
    ParamEnteredIsNamed(l.ds, g, c.pname);
    DomainBooked(l.ds, g, key);
    WithDomainOnly(g, key, p);
    hide Apply, Of, Unique, NoDomainNamed, NoParamNamed, ParamEntered, TextOf, Kept, WithDomain, WithParam, Placed;
    hide DomainAt, Booked, Accounted, Active, EndedWith;
    if NoParamNamed(l.ds, c.pname) {
      var i := ParamDeclared(l, c.pname, c.ptype, c.deflt, c.dom, w);
      ParamAppended(l.ds, r.ds, i, g, key, p);
      StillAccounted(l, r, g, WithParam(g, key, p));
    } else {
      ParamRefused(l, c.pname, c.ptype, c.deflt, c.dom, w);
      var ds := if NoDomainNamed(l.ds, key) then l.ds + [Domain(key, [], [])] else l.ds;
      var h := WithDomain(g, key).(open := false, closing := Some(w));
      SameBooks(ds, WithDomain(g, key), h);
      ClosedAccounted(l, r, ds, g, h, w);
    }
  }

  lemma WithDomainOnly(g: Ledger, key: string, p: Param)
    requires g.Ledger?
    ensures WithDomain(g, key).open == WithParam(g, key, p).open == g.open
    ensures WithDomain(g, key).closing == WithParam(g, key, p).closing == g.closing
  {
  }

  lemma ConstraintStep(l: Lib, g: Ledger, name: string, expr: string, dom: Option<string>, w: World)
    requires Active(l) && w.dta && g.Ledger? && Accounted(l, g) && Unique(DomainNames(l.ds))
    ensures var c := ConstraintDeclare(Some(name), Some(expr), dom); Accounted(Apply(l, c, w), Entered(g, c, w))
  {
    var key, c := Key(dom), ConstraintDeclare(Some(name), Some(expr), dom);
    var r := Apply(l, c, w);
    var i := ConstraintDeclared(l, name, expr, dom, w);
    NotYetClosed(l, g);
    InDomains(l.ds, g, key);
    hide Apply, Of, Unique, TextOf, Kept, Placed, Booked, NoDomainNamed, ConstraintNamed, ConstraintEntered, EndedWith;
    hide Accounted, Active;
    if key in g.domains {
      SheetOf(l.ds, g, i, key);
      ConstraintEnteredIsNamed(g.constraints, key, name);
      if ConstraintNamed(l.ds[i].constraints, name) {
        SameBooks(l.ds, g, g.(open := false, closing := Some(w)));
        ClosedAccounted(l, r, l.ds, g, g.(open := false, closing := Some(w)), w);
      } else {
        ConstraintAppended(l.ds, r.ds, i, g, key, Constraint(name, expr));
        StillAccounted(l, r, g, g.(constraints := g.constraints + [(key, Constraint(name, expr))]));
      }
    }
  }

  lemma SheetOf(ds: seq<Domain>, g: Ledger, i: nat, key: string)
    requires g.Ledger? && Booked(ds, g) && FirstNamed(ds, i, key)
    ensures ds[i] == Sheet(g, key)
  {
  }

  lemma ParamsUnique(ds: seq<Domain>, i: nat, j: nat)
    requires UniqueParams(ds) && i < |ds| && j < |ds[i].params|
    ensures forall k :: 0 <= k < |ds[i].params| && k != j ==> ds[i].params[k].name != ds[i].params[j].name
  {
  }

  lemma AmendedBooked(ds: seq<Domain>, ds': seq<Domain>, i: nat, g: Ledger, key: string, name: string, vs: seq<Int32>)
    requires g.Ledger? && Booked(ds, g) && Unique(DomainNames(ds)) && FirstNamed(ds, i, key)
    requires Placed(ds, ds', i, Domain(key, Given(ds[i].params, name, vs), ds[i].constraints))
    ensures Booked(ds', g.(params := Amended(g.params, key, name, vs)))
  {
    var h := g.(params := Amended(g.params, key, name, vs));
    forall k ensures Of(h.params, k) == if k == key then Given(Of(g.params, key), name, vs) else Of(g.params, k) {
      OfAmended(g.params, key, name, vs, k);
    }
    hide Of, Unique, Given, Amended;
    InDomains(ds, g, key);
    assert !NoDomainNamed(ds, key);
    SheetOf(ds, g, i, key);
    PlacedBooked(ds, ds', i, key, g, h);
  }

  lemma AmendedNowhere(ds: seq<Domain>, g: Ledger, key: string, name: string, vs: seq<Int32>)
    requires g.Ledger? && Booked(ds, g) && Given(Of(g.params, key), name, vs) == Of(g.params, key)
    ensures Booked(ds, g.(params := Amended(g.params, key, name, vs)))
  {
    forall k ensures Of(Amended(g.params, key, name, vs), k) == Of(g.params, k) {
      OfAmended(g.params, key, name, vs, k);
    }
    hide Of, Given, Amended;
  }

  lemma ValuesStep(l: Lib, g: Ledger, name: string, vs: seq<Int32>, dom: Option<string>, w: World)
    requires Active(l) && w.dta && g.Ledger? && Accounted(l, g)
    requires Unique(DomainNames(l.ds)) && UniqueParams(l.ds)
    ensures var c := ParamAddValues(Some(name), Some(vs), dom); Accounted(Apply(l, c, w), Entered(g, c, w))
  {
    var key, c := Key(dom), ParamAddValues(Some(name), Some(vs), dom);
    var i, j := ValuesAdded(l, name, vs, dom, w);
    InDomains(l.ds, g, key);
    ValuedKept(g.params, key, name, vs, g.domains);
    hide Apply, Of, Unique, UniqueParams, Kept, Placed, Booked, NoDomainNamed, NoneNamed, Given, Amended, WithValues;
    if key !in g.domains {
      OfNothing(g.params, g.domains, key);
      GivenNowhere([], name, vs);
      AmendedNowhere(l.ds, g, key, name, vs);
    } else {
      SheetOf(l.ds, g, i, key);
      if NoneNamed(l.ds[i].params, name) {
        GivenNowhere(l.ds[i].params, name, vs);
        AmendedNowhere(l.ds, g, key, name, vs);
      } else {
        ParamsUnique(l.ds, i, j);
        GivenOnce(l.ds[i].params, name, vs, j);
        AmendedBooked(l.ds, Apply(l, c, w).ds, i, g, key, name, vs);
      }
    }
  }

  // ---------------------------------------------------------------- whole runs

  /** Every call that ends an active collection touches the files as the world it finds says. */
  lemma CallEnds(l: Lib, c: Call, w: World)
    requires Active(l) && w.dta
    ensures var r := Apply(l, c, w);
            && r.Lib? && (r.collection == 1 || EndedWith(l, r, r.ds, w))
            && (r.collection == 1 ==> r.ops == l.ops)
  {
    Ended(l, w);
    if !c.EndCollection? { ActiveCall(l, c, w); }
    hide Apply, End, Placed, TextOf, Filed, DeclareParam, AddValues, DeclareConstraint, NoParamNamed, NoDomainNamed,
      NoneNamed, FirstNamed, ConstraintNamed, DomainAt;
    match c {
      case ParamDeclare(name, ptype, deflt, dom) =>
        if NoParamNamed(l.ds, name) {
          var i := ParamDeclared(l, name, ptype, deflt, dom, w);
        } else {
          ParamRefused(l, name, ptype, deflt, dom, w);
        }
      case ParamAddValues(Some(name), Some(values), dom) =>
        var i, j := ValuesAdded(l, name, values, dom, w);
      case ConstraintDeclare(Some(name), Some(expr), dom) =>
        var i := ConstraintDeclared(l, name, expr, dom, w);
      case _ =>
    }
  }

  /** The library when its first call has started the collection. */
  const BEGUN := Lib([Domain("default", [], [])], true, 1, false, [RemoveLock])

  lemma FirstCallBegins(c: Call, w: World)
    requires w.dta && !c.EndCollection?
    ensures Apply(START, c, w) == Apply(BEGUN, c, w) && Accounted(BEGUN, EMPTY)
  {
    FreshIsWellFormed();
    hide AddDomain, Declare;
    assert [] + [RemoveLock] == [RemoveLock];
    assert Of<Param>([], "default") == [] && Of<Constraint>([], "default") == [];
    assert BeginCall(START, w) == BEGUN && BeginCall(BEGUN, w) == BEGUN;
  }

  lemma ActiveStep(l: Lib, g: Ledger, c: Call, w: World)
    requires Active(l) && w.dta && g.Ledger? && Accounted(l, g)
    requires Unique(DomainNames(l.ds)) && UniqueParams(l.ds)
    ensures Accounted(Apply(l, c, w), Entered(g, c, w))
  {
    match c {
      case ParamDeclare(_, _, _, _) => ParamStep(l, g, c, w);
      case ParamAddValues(Some(name), Some(values), dom) => ValuesStep(l, g, name, values, dom, w);
      case ConstraintDeclare(Some(name), Some(expr), dom) => ConstraintStep(l, g, name, expr, dom, w);
      case EndCollection =>
        Ended(l, w);
        NotYetClosed(l, g);
        var h := g.(open := false, closing := Some(w));
        SameBooks(l.ds, g, h);
        hide Booked, Kept, Apply, EndedWith;
        ClosedAccounted(l, Apply(l, c, w), l.ds, g, h, w);
      case _ => ActiveCall(l, c, w);
    }
  }

  lemma NotedStep(l: Lib, g: Ledger, c: Call, w: World)
    requires Collecting(l) && Accounted(l, g) && w.dta
    ensures Accounted(Apply(l, c, w), Noted(g, c, w))
  {
    if g.Unopened? {
      if !c.EndCollection? {
        FirstCallBegins(c, w);
        assert UniqueParams(BEGUN.ds) && |DomainNames(BEGUN.ds)| == 1;
        hide Apply, Accounted, Entered;
        ActiveStep(BEGUN, EMPTY, c, w);
      }
    } else if g.open {
      hide Apply, Entered, Booked, Kept;
      ActiveStep(l, g, c, w);
    } else {
      hide Booked, Kept;
      assert Apply(l, c, w) == l;
    }
  }

  /** After every run of calls in DTA mode the library is as the ledger says: the parameters of each domain are those
      that were declared for it while the collection was active, in that order, each with the type and default it was
      declared with and the last values that were added and fitted, and likewise the constraints; and the files have
      been touched as what the closing call found says. */
  lemma {:induction false} RunIsLedger(l: Lib, g: Ledger, calls: seq<(Call, World)>)
    requires Collecting(l) && Accounted(l, g) && AllDta(calls)
    ensures Accounted(Run(l, calls), Book(g, calls))
    decreases |calls|
  {
    hide Collecting, Accounted, Apply, Noted;
    if calls == [] {
    } else {
      var (c, w) := calls[0];
      NotedStep(l, g, c, w);
      ApplyKeeps(l, c, w);
      RunIsLedger(Apply(l, c, w), Noted(g, c, w), calls[1..]);
    }
  }

  /** A collection that has ended was ended by one call, and nothing has happened since. */
  lemma {:induction false} EndedByOne(l: Lib, g: Ledger, calls: seq<(Call, World)>) returns (k: nat)
    requires Collecting(l) && Accounted(l, g) && AllDta(calls) && (l == START || Active(l))
    requires Run(l, calls).Lib? && Run(l, calls).initialized && Run(l, calls).collection == 0
    ensures k < |calls| && Active(Run(l, calls[..k]))
    ensures EndedWith(Run(l, calls[..k]), Run(l, calls), Run(l, calls).ds, calls[k].1)
    decreases |calls|
  {
    hide Apply, Collecting, Accounted, EndedWith, Noted;
    var (c, w) := calls[0];
    var r := Apply(l, c, w);
    NotedStep(l, g, c, w);
    ApplyKeeps(l, c, w);
    StageAfter(l, g, c, w);
    if l == START || Active(r) {
      k := EndedByOne(r, Noted(g, c, w), calls[1..]);
      assert calls[..k + 1][1..] == calls[1..][..k] && calls[..k + 1][0] == calls[0];
      k := k + 1;
    } else {
      k := 0;
      Frozen(r, calls[1..]);
      CallEnds(l, c, w);
      assert Run(l, calls[..0]) == l;
    }
  }

  lemma StageAfter(l: Lib, g: Ledger, c: Call, w: World)
    requires Collecting(l) && Accounted(l, g) && w.dta && (l == START || Active(l))
    ensures var r := Apply(l, c, w); if l == START then r == START || Active(r)
                                     else r.Lib? && r.initialized && (r.collection == 0 || Active(r))
  {
    NotedStep(l, g, c, w);
    hide Apply, Booked, Kept, Filed, Collecting;
    if l == START && !c.EndCollection? {
      assert g == Unopened;
      FirstStaysOpen(c, w);
    }
    if l == START && c.EndCollection? { assert Noted(g, c, w) == g; }
  }

  lemma FirstStaysOpen(c: Call, w: World)
    requires !c.EndCollection?
    ensures Noted(Unopened, c, w).Ledger? && Noted(Unopened, c, w).open
  {
  }
}
