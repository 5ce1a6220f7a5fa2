/** The tuning registry of src/common/atpcommon.c as a value: domains with their parameters and constraints, and
    what each step of src/atplib/atplib.c does to it. */
module RegistryModel {
  import opened Options

  type Int32 = x: int | -0x8000_0000 <= x <= 0x7FFF_FFFF
  type UInt8 = x: int | 0 <= x <= 0xFF

  const DEFAULT_DOMAIN := "default"
  const TYPE_RANGE: UInt8 := 1
  const TYPE_ENUM: UInt8 := 2

  /** `values` is missing until values are added: `ATP_param_new` leaves `valueArray` and `nValues` unset. */
  datatype Param = Param(name: string, ptype: UInt8, deflt: Int32, values: Option<seq<Int32>>)
  datatype Constraint = Constraint(name: string, expr: string)
  datatype Domain = Domain(name: string, params: seq<Param>, constraints: seq<Constraint>)

  // ---------------------------------------------------------------- looking things up

  /** The first place of `name`. */
  function IndexOf(names: seq<string>, name: string): (r: Option<nat>)
    ensures r.None? ==> name !in names
    ensures r.Some? ==> r.value < |names| && names[r.value] == name && name !in names[..r.value]
  {
    if names == [] then None
    else
      var last := |names| - 1;
      assert names == names[..last] + [names[last]];
      match IndexOf(names[..last], name)
      case Some(i) => assert names[..last][..i] == names[..i]; Some(i)
      case None => if names[last] == name then Some(last) else None
  }

  function DomainNames(ds: seq<Domain>): (r: seq<string>)
    ensures |r| == |ds| && forall i :: 0 <= i < |ds| ==> r[i] == ds[i].name
  {
    seq(|ds|, i requires 0 <= i < |ds| => ds[i].name)
  }

  function ParamNames(ps: seq<Param>): (r: seq<string>)
    ensures |r| == |ps| && forall i :: 0 <= i < |ps| ==> r[i] == ps[i].name
  {
    seq(|ps|, i requires 0 <= i < |ps| => ps[i].name)
  }

  function ConstraintNames(cs: seq<Constraint>): (r: seq<string>)
    ensures |r| == |cs| && forall i :: 0 <= i < |cs| ==> r[i] == cs[i].name
  {
    seq(|cs|, i requires 0 <= i < |cs| => cs[i].name)
  }

  /** A null domain name stands for the default domain. */
  function DomainKey(name: Option<string>): string {
    if name.Some? then name.value else DEFAULT_DOMAIN
  }

  function FindDomain(ds: seq<Domain>, name: Option<string>): (r: Option<nat>)
    ensures r.Some? ==> r.value < |ds| && ds[r.value].name == DomainKey(name)
  {
    IndexOf(DomainNames(ds), DomainKey(name))
  }

  /** `ATP_param_find_unique`: the last domain that has the parameter, and its first place there. */
  function FindUnique(ds: seq<Domain>, name: string): (r: Option<(nat, nat)>)
    ensures r.Some? ==> r.value.0 < |ds| && r.value.1 < |ds[r.value.0].params|
                        && ds[r.value.0].params[r.value.1].name == name
    ensures r.None? ==> forall i, j :: 0 <= i < |ds| && 0 <= j < |ds[i].params| ==> ds[i].params[j].name != name
  {
    if ds == [] then None
    else
      var last := |ds| - 1;
      match IndexOf(ParamNames(ds[last].params), name)
      case Some(j) => Some((last, j))
      case None => FindUnique(ds[..last], name)
  }

  // ---------------------------------------------------------------- changing it

  function AddDomain(ds: seq<Domain>, name: string): (r: seq<Domain>)
    ensures IndexOf(DomainNames(r), name).Some?
  {
    if IndexOf(DomainNames(ds), name).Some? then ds
    else
      var r := ds + [Domain(name, [], [])];
      assert DomainNames(r)[|ds|] == name;
      r
  }

  function AddParam(ds: seq<Domain>, d: nat, p: Param): seq<Domain>
    requires d < |ds|
  {
    ds[d := ds[d].(params := ds[d].params + [p])]
  }

  function SetValues(ds: seq<Domain>, d: nat, j: nat, values: seq<Int32>): seq<Domain>
    requires d < |ds| && j < |ds[d].params|
  {
    ds[d := ds[d].(params := ds[d].params[j := ds[d].params[j].(values := Some(values))])]
  }

  function AddConstraint(ds: seq<Domain>, d: nat, c: Constraint): seq<Domain>
    requires d < |ds|
  {
    ds[d := ds[d].(constraints := ds[d].constraints + [c])]
  }

  // ---------------------------------------------------------------- what a registry keeps

  predicate Unique(names: seq<string>) {
    forall i, j :: 0 <= i < j < |names| ==> names[i] != names[j]
  }

  /** Parameter names are unique across all domains. */
  predicate UniqueParams(ds: seq<Domain>) {
    forall i, j, k, l ::
      (0 <= i < |ds| && 0 <= j < |ds[i].params| && 0 <= k < |ds| && 0 <= l < |ds[k].params|
       && ds[i].params[j].name == ds[k].params[l].name) ==> i == k && j == l
  }

  predicate UniqueConstraints(ds: seq<Domain>) {
    forall i :: 0 <= i < |ds| ==> Unique(ConstraintNames(ds[i].constraints))
  }

  predicate ValuesFit(p: Param) {
    p.values.Some? ==> p.values.value != [] && (p.ptype == TYPE_RANGE ==> |p.values.value| == 3)
  }

  predicate AllValuesFit(ds: seq<Domain>) {
    forall i, j :: 0 <= i < |ds| && 0 <= j < |ds[i].params| ==> ValuesFit(ds[i].params[j])
  }

  predicate WellFormed(ds: seq<Domain>) {
    && ds != [] && ds[0].name == DEFAULT_DOMAIN
    && Unique(DomainNames(ds)) && UniqueParams(ds) && UniqueConstraints(ds) && AllValuesFit(ds)
  }

  /** The registry that `ATP_init` makes. */
  lemma FreshIsWellFormed()
    ensures AddDomain([], DEFAULT_DOMAIN) == [Domain(DEFAULT_DOMAIN, [], [])]
    ensures WellFormed([Domain(DEFAULT_DOMAIN, [], [])])
  {
    hide AddDomain, Unique, UniqueParams, UniqueConstraints, AllValuesFit;
    FirstDomain(DEFAULT_DOMAIN);
    OneDomain(DEFAULT_DOMAIN);
  }

  lemma FirstDomain(name: string)
    ensures AddDomain([], name) == [Domain(name, [], [])]
  {
    assert DomainNames([]) == [];
  }

  lemma OneDomain(name: string)
    ensures var ds := [Domain(name, [], [])];
            Unique(DomainNames(ds)) && UniqueParams(ds) && UniqueConstraints(ds) && AllValuesFit(ds)
  {
    hide AddDomain, IndexOf;
    var ds := [Domain(name, [], [])];
    assert |DomainNames(ds)| == 1;
    assert ConstraintNames(ds[0].constraints) == [];
  }

  lemma DomainAdded(ds: seq<Domain>, name: string)
    requires WellFormed(ds)
    ensures WellFormed(AddDomain(ds, name))
  {
    var r := AddDomain(ds, name);
    if r != ds {
      assert name !in DomainNames(ds);
      forall i, j | 0 <= i < j < |r| ensures DomainNames(r)[i] != DomainNames(r)[j] {
        assert DomainNames(r)[i] == DomainNames(ds)[i];
      }
    }
  }

  lemma ParamAdded(ds: seq<Domain>, d: nat, p: Param)
    requires WellFormed(ds) && d < |ds| && FindUnique(ds, p.name).None? && p.values.None?
    ensures WellFormed(AddParam(ds, d, p))
  {
    hide FindUnique, IndexOf, UniqueParams, Unique;
    NewParamUnique(ds, d, p);
    assert DomainNames(AddParam(ds, d, p)) == DomainNames(ds);
  }

  lemma NewParamUnique(ds: seq<Domain>, d: nat, p: Param)
    requires UniqueParams(ds) && d < |ds| && FindUnique(ds, p.name).None?
    ensures UniqueParams(AddParam(ds, d, p))
  {
    hide FindUnique;
    var r := AddParam(ds, d, p);
    forall i, j, k, l | 0 <= i < |r| && 0 <= j < |r[i].params| && 0 <= k < |r| && 0 <= l < |r[k].params|
                        && r[i].params[j].name == r[k].params[l].name
      ensures i == k && j == l
    {
      assert j < |ds[i].params| ==> r[i].params[j] == ds[i].params[j];
      assert l < |ds[k].params| ==> r[k].params[l] == ds[k].params[l];
    }
  }

  lemma ValuesSet(ds: seq<Domain>, d: nat, j: nat, values: seq<Int32>)
    requires WellFormed(ds) && d < |ds| && j < |ds[d].params| && values != []
    requires ds[d].params[j].ptype == TYPE_RANGE ==> |values| == 3
    ensures WellFormed(SetValues(ds, d, j, values))
  {
    assert DomainNames(SetValues(ds, d, j, values)) == DomainNames(ds);
  }

  lemma ConstraintAdded(ds: seq<Domain>, d: nat, c: Constraint)
    requires WellFormed(ds) && d < |ds| && IndexOf(ConstraintNames(ds[d].constraints), c.name).None?
    ensures WellFormed(AddConstraint(ds, d, c))
  {
    var r := AddConstraint(ds, d, c);
    assert DomainNames(r) == DomainNames(ds);
    assert ConstraintNames(r[d].constraints) == ConstraintNames(ds[d].constraints) + [c.name];
  }

  /** With unique names the search finds the one parameter of that name. */
  lemma UniqueIsFound(ds: seq<Domain>, i: nat, j: nat)
    requires UniqueParams(ds) && i < |ds| && j < |ds[i].params|
    ensures FindUnique(ds, ds[i].params[j].name) == Some((i, j))
  {
    var r := FindUnique(ds, ds[i].params[j].name);
    assert r.Some?;
    assert ds[r.value.0].params[r.value.1].name == ds[i].params[j].name;
  }
}
