/** The registry of src/common/atpcommon.c as it is kept: tables that grow ten cells at a time, filled in place. */
module AtpCommon {
  import opened Options
  import opened RegistryModel
  import opened Description
  import opened DescWriter

  /** `DOMAIN_MARGIN`, `PARAMS_MARGIN` and `CONSTRAINTS_MARGIN`. */
  const MARGIN: nat := 10

  /** A growing table: the allocated cells, how many are in use, and the size it was last given. */
  datatype Table<T> = Table(cells: seq<T>, used: nat, max: nat)

  /** The first ten cells of a table in a domain are counted but never allocated. */
  predicate ValidTable<T>(t: Table<T>) {
    t.used <= |t.cells| && (if t.used == 0 then t.cells == [] else |t.cells| == t.max)
  }

  function Used<T>(t: Table<T>): seq<T>
    requires ValidTable(t)
  {
    t.cells[..t.used]
  }

  /** `realloc` to `n` cells: the new ones hold whatever the memory held. */
  function Realloc<T>(cells: seq<T>, n: nat, junk: T): (r: seq<T>)
    requires |cells| <= n
    ensures |r| == n && cells <= r
  {
    cells + seq(n - |cells|, _ => junk)
  }

  /** Nothing ever counts the explorations of a domain. */
  datatype DomainCell = DomainCell(
    name: string, params: Table<Param>, constraints: Table<Constraint>, explorations: seq<UInt8>, numExplorations: nat)

  predicate ValidCell(c: DomainCell) {
    ValidTable(c.params) && ValidTable(c.constraints) && c.numExplorations == 0
  }

  function View(c: DomainCell): Domain
    requires ValidCell(c)
  {
    Domain(c.name, Used(c.params), Used(c.constraints))
  }

  predicate ValidCells(cs: seq<DomainCell>) {
    forall i :: 0 <= i < |cs| ==> ValidCell(cs[i])
  }

  function Views(cs: seq<DomainCell>): (r: seq<Domain>)
    requires ValidCells(cs)
    ensures |r| == |cs| && forall i :: 0 <= i < |cs| ==> r[i] == View(cs[i])
  {
    seq(|cs|, i requires 0 <= i < |cs| => View(cs[i]))
  }

  /** One more entry in a table, as `ATP_param_new` and `ATP_constraint_new` make it. */
  lemma TableGrown<T>(t: Table<T>, t': Table<T>, x: T)
    requires ValidTable(t) && t'.used == t.used + 1 && t.used < |t'.cells| == t'.max
    requires t'.cells[..t.used] == t.cells[..t.used] && t'.cells[t.used] == x
    ensures ValidTable(t') && Used(t') == Used(t) + [x]
  {
  }

  /** Replacing the cell of one domain. */
  lemma CellReplaced(cs: seq<DomainCell>, d: nat, c: DomainCell)
    requires d < |cs| && ValidCells(cs) && ValidCell(c)
    ensures ValidCells(cs[d := c]) && Views(cs[d := c]) == Views(cs)[d := View(c)]
  {
    hide View, ValidCell;
  }

  /** A new domain at the end. */
  lemma CellAdded(cs: seq<DomainCell>, c: DomainCell, name: string)
    requires ValidCells(cs) && ValidCell(c) && View(c) == Domain(name, [], [])
    requires FindDomain(Views(cs), Some(name)).None?
    ensures ValidCells(cs + [c]) && Views(cs + [c]) == AddDomain(Views(cs), name)
    ensures FindDomain(Views(cs + [c]), Some(name)) == Some(|cs|)
  {
    var ds := Views(cs);
    assert Views(cs + [c]) == ds + [View(c)];
    hide View, ValidCell;
    var names := DomainNames(ds + [View(c)]);
    assert names == DomainNames(ds) + [name];
    NextName(names, |cs|, name);
    assert names[..|cs|] == DomainNames(ds) && names[..|cs| + 1] == names;
  }

  lemma NextName(names: seq<string>, i: nat, name: string)
    requires i < |names|
    ensures IndexOf(names[..i + 1], name)
         == match IndexOf(names[..i], name)
            case Some(k) => Some(k)
            case None => if names[i] == name then Some(i) else None
  {
    assert names[..i + 1][..i] == names[..i];
  }

  /** Once found, a name stays where it was first found. */
  lemma {:induction false} FoundStays(names: seq<string>, i: nat, name: string)
    requires i <= |names| && IndexOf(names[..i], name).Some?
    ensures IndexOf(names, name) == IndexOf(names[..i], name)
    decreases |names| - i
  {
    if i == |names| {
      assert names[..i] == names;
    } else {
      NextName(names, i, name);
      FoundStays(names, i + 1, name);
    }
  }

  lemma NothingFound(name: string)
    ensures FindUnique([], name) == None
  {
  }

  lemma NextUnique(ds: seq<Domain>, i: nat, name: string)
    requires i < |ds|
    ensures FindUnique(ds[..i + 1], name)
         == match IndexOf(ParamNames(ds[i].params), name)
            case Some(j) => Some((i, j))
            case None => FindUnique(ds[..i], name)
  {
    hide ParamNames, IndexOf;
    assert ds[..i + 1][..i] == ds[..i] && ds[..i + 1][i] == ds[i];
  }

  // ---------------------------------------------------------------- files

  /** What a call does to the lock file and to the description file.  `Write(None)` is the writing of a registry in
      which the values of some parameter were never set: the C code then reads uninitialised memory. */
  datatype FileOp = RemoveLock | LockRefused | LockCreated | Write(text: Option<string>)

  predicate AllValued(ds: seq<Domain>) {
    forall i :: 0 <= i < |ds| ==> Valued(ds[i].params)
  }

  /** `ATP_gen_descfile`, when the lock file exists or not and the description file can be opened or not. */
  function WriterOps(ds: seq<Domain>, locked: bool, writable: bool): seq<FileOp> {
    if locked then [LockRefused]
    else if !writable then [LockCreated]
    else [LockCreated, Write(if AllValued(ds) then Some(DescText(ds)) else None)]
  }

  /** The lock is refused exactly when the lock file is there and created otherwise, and the file is written exactly
      when the lock was created and the file can be opened: then it holds the text of the registry. */
  lemma WrittenWhen(ds: seq<Domain>, locked: bool, writable: bool)
    ensures var ops := WriterOps(ds, locked, writable);
            && (LockRefused in ops <==> locked) && (LockCreated in ops <==> !locked)
            && ((exists text :: Write(text) in ops) <==> !locked && writable)
            && (!locked && writable && AllValued(ds) ==> Write(Some(DescText(ds))) in ops)
  {
    hide AllValued, DescText;
    if !locked && writable { assert WriterOps(ds, locked, writable)[1].Write?; }
  }

  class Registry {
    var domains: seq<DomainCell>     // the allocated cells
    var numDomains: nat
    var maxNumDomains: nat
    var collection: int              // -1 before, 1 during, 0 after the collection
    var initialized: bool
    const junk: DomainCell           // what freshly allocated memory happens to hold
    const junkParam: Param
    const junkConstraint: Constraint

    constructor (junk: DomainCell, junkParam: Param, junkConstraint: Constraint)
      ensures Valid() && Contents() == [] && collection == 0 && !initialized
    {
      domains, numDomains, maxNumDomains := [], 0, 0;
      collection, initialized := 0, false;
      this.junk, this.junkParam, this.junkConstraint := junk, junkParam, junkConstraint;
    }

    /** The counts in use never exceed the cells allocated. */
    ghost predicate Valid()
      reads this
    {
      && numDomains <= |domains| == maxNumDomains && ValidCells(domains[..numDomains])
      && (!initialized ==> numDomains == 0)
    }

    ghost function Contents(): (r: seq<Domain>)
      requires Valid()
      reads this
      ensures |r| == numDomains && forall i :: 0 <= i < numDomains ==> ValidCell(domains[i]) && r[i] == View(domains[i])
    {
      assert forall i :: 0 <= i < numDomains ==> domains[..numDomains][i] == domains[i];
      Views(domains[..numDomains])
    }

    // -------------------------------------------------------------- looking things up

    /** `ATP_domain_find` */
    method DomainFind(name: Option<string>) returns (r: Option<nat>)
      requires Valid()
      ensures r == FindDomain(Contents(), name)
      decreases name.None?
    {
      if name.None? {
        r := DomainFind(Some(DEFAULT_DOMAIN));
        return;
      }
      ghost var names := DomainNames(Contents());
      for i := 0 to numDomains
        invariant IndexOf(names[..i], name.value) == None
      {
        NextName(names, i, name.value);
        if domains[i].name == name.value {
          FoundStays(names, i + 1, name.value);
          return Some(i);
        }
      }
      assert names[..numDomains] == names;
      r := None;
    }

    /** `ATP_param_find` */
    method ParamFind(pname: string, d: nat) returns (r: Option<nat>)
      requires Valid() && d < numDomains
      ensures r == IndexOf(ParamNames(Contents()[d].params), pname)
    {
      ghost var names := ParamNames(Contents()[d].params);
      var t := domains[d].params;
      for i := 0 to t.used
        invariant IndexOf(names[..i], pname) == None
      {
        NextName(names, i, pname);
        if t.cells[i].name == pname {
          FoundStays(names, i + 1, pname);
          return Some(i);
        }
      }
      assert names[..t.used] == names;
      r := None;
    }

    /** `ATP_constraint_find` */
    method ConstraintFind(cname: string, d: nat) returns (r: Option<nat>)
      requires Valid() && d < numDomains
      ensures r == IndexOf(ConstraintNames(Contents()[d].constraints), cname)
    {
      ghost var names := ConstraintNames(Contents()[d].constraints);
      var t := domains[d].constraints;
      for i := 0 to t.used
        invariant IndexOf(names[..i], cname) == None
      {
        NextName(names, i, cname);
        if t.cells[i].name == cname {
          FoundStays(names, i + 1, cname);
          return Some(i);
        }
      }
      assert names[..t.used] == names;
      r := None;
    }

    /** `ATP_param_find_unique`: only the inner loop is left early, so a later domain wins. */
    method ParamFindUnique(pname: string) returns (r: Option<(nat, nat)>)
      requires Valid()
      ensures r == FindUnique(Contents(), pname)
    {
      hide FindUnique, ParamNames, IndexOf;
      ghost var ds := Contents();
      r := None;
      NothingFound(pname);
      for i := 0 to numDomains
        invariant r == FindUnique(ds[..i], pname)
      {
        var j := ParamFind(pname, i);
        if j.Some? { r := Some((i, j.value)); }
        NextUnique(ds, i, pname);
      }
      assert ds[..numDomains] == ds;
    }

    // -------------------------------------------------------------- adding

    /** `ATP_domain_new` */
    method DomainNew(name: string) returns (d: nat)
      requires Valid() && initialized
      modifies this`domains, this`numDomains, this`maxNumDomains
      ensures Valid() && Contents() == AddDomain(old(Contents()), name)
      ensures FindDomain(Contents(), Some(name)) == Some(d)
    {
      var found := DomainFind(Some(name));
      if found.Some? { return found.value; }
      ghost var before := domains[..numDomains];
      if numDomains + 1 > maxNumDomains {
        domains := Realloc(domains, maxNumDomains + MARGIN, junk);
        maxNumDomains := maxNumDomains + MARGIN;
      }
      d := numDomains;
      var c := DomainCell(name, Table([], 0, MARGIN), Table([], 0, MARGIN), [], 0);
      domains := domains[d := c];
      numDomains := numDomains + 1;
      assert domains[..numDomains] == before + [c];
      CellAdded(before, c, name);
    }

    /** `ATP_param_new` */
    method ParamNew(pname: string, ptype: UInt8, deflt: Int32, d: nat) returns (j: nat)
      requires Valid() && d < numDomains
      modifies this`domains
      ensures Valid() && Contents() == AddParam(old(Contents()), d, Param(pname, ptype, deflt, None))
      ensures j == |old(Contents())[d].params|
    {
      ghost var before := domains[..numDomains];
      var c := domains[d];
      assert c == before[d];
      var t := c.params;
      j := t.used;
      if j + 1 > t.max || j == 0 {
        t := t.(cells := Realloc(t.cells, t.max + MARGIN, junkParam), max := t.max + MARGIN);
      }
      var p := Param(pname, ptype, deflt, None);
      t := t.(cells := t.cells[j := p], used := j + 1);
      TableGrown(c.params, t, p);
      c := c.(params := t);
      CellReplaced(before, d, c);
      domains := domains[d := c];
      assert domains[..numDomains] == before[d := c];
    }

    /** `ATP_constraint_new` */
    method ConstraintNew(cname: string, expr: string, d: nat)
      requires Valid() && d < numDomains
      modifies this`domains
      ensures Valid() && Contents() == AddConstraint(old(Contents()), d, Constraint(cname, expr))
    {
      ghost var before := domains[..numDomains];
      var c := domains[d];
      assert c == before[d];
      var t := c.constraints;
      if t.used + 1 > t.max || t.used == 0 {
        t := t.(cells := Realloc(t.cells, t.max + MARGIN, junkConstraint), max := t.max + MARGIN);
      }
      var x := Constraint(cname, expr);
      t := t.(cells := t.cells[t.used := x], used := t.used + 1);
      TableGrown(c.constraints, t, x);
      c := c.(constraints := t);
      CellReplaced(before, d, c);
      domains := domains[d := c];
      assert domains[..numDomains] == before[d := c];
    }

    /** `ATP_param_add_values`: the values are copied, and replace those the parameter had. */
    method ParamAddValues(d: nat, j: nat, vArray: seq<Int32>)
      requires Valid() && d < numDomains && j < |Contents()[d].params|
      modifies this`domains
      ensures Valid() && Contents() == SetValues(old(Contents()), d, j, vArray)
    {
      var values: seq<Int32> := [];
      for i := 0 to |vArray|
        invariant values == vArray[..i]
      {
        values := values + [vArray[i]];
      }
      assert values == vArray;
      ghost var before := domains[..numDomains];
      var c := domains[d];
      assert c == before[d];
      var t := c.params;
      t := t.(cells := t.cells[j := t.cells[j].(values := Some(values))]);
      c := c.(params := t);
      assert Used(t) == Used(before[d].params)[j := t.cells[j]];
      CellReplaced(before, d, c);
      domains := domains[d := c];
      assert domains[..numDomains] == before[d := c];
    }

    /** `ATP_exploration_new`: the hints are stored, but `numExplorations` is not touched. */
    method ExplorationNew(expList: seq<UInt8>, d: nat)
      requires Valid() && d < numDomains
      modifies this`domains
      ensures Valid() && Contents() == old(Contents())
    {
      ghost var before := domains[..numDomains];
      var c := domains[d];
      assert c == before[d];
      c := c.(explorations := expList);
      CellReplaced(before, d, c);
      domains := domains[d := c];
      assert domains[..numDomains] == before[d := c];
      assert Views(before)[d := View(c)] == Views(before);
    }

    // -------------------------------------------------------------- writing

    /** The loop over the domains. */
    method PrintDomains() returns (ok: bool, desc: string)
      requires Valid()
      ensures ok == AllValued(Contents())
      ensures ok ==> desc == DescText(Contents())
    {
      hide DomainLines, DescText, View, Valued;
      ghost var ds := Contents();
      ok, desc := true, "{\n";
      RegistryShown(ds);
      for i := 0 to numDomains
        invariant ok && desc + (DomainLines(ds, i) + "}\n") == DescText(ds)
        invariant forall j :: 0 <= j < i ==> Valued(ds[j].params)
      {
        ok, desc := PrintLine(desc, View(domains[i]), i == numDomains - 1, ds, i);
        if !ok { return; }
      }
      NoLines(ds);
      desc := desc + "}\n";
    }

    /** `ATP_gen_descfile`; when it refuses, creates and writes is said by `WrittenWhen`. */
    method GenDescfile(locked: bool, writable: bool) returns (ops: seq<FileOp>)
      requires Valid()
      ensures ops == WriterOps(Contents(), locked, writable)
    {
      if locked { return [LockRefused]; }
      if !writable { return [LockCreated]; }
      var ok, desc := PrintDomains();
      ops := [LockCreated, Write(if ok then Some(desc) else None)];
    }

    // -------------------------------------------------------------- the collection

    /** `ATP_init`; true when it was the first call, which also removes the lock file. */
    method Init() returns (first: bool)
      requires Valid()
      modifies this
      ensures Valid() && initialized && first == !old(initialized)
      ensures if first then Contents() == AddDomain([], DEFAULT_DOMAIN) && collection == -1
              else Contents() == old(Contents()) && collection == old(collection)
    {
      if initialized { return false; }
      domains := Realloc([], MARGIN, junk);
      maxNumDomains, numDomains := MARGIN, 0;
      initialized := true;
      assert Contents() == [];
      var d := DomainNew(DEFAULT_DOMAIN);
      collection := -1;
      first := true;
    }

    /** `ATP_collection_is_active` */
    method CollectionIsActive() returns (b: bool)
      ensures b == (collection == 1)
    {
      b := collection == 1;
    }

    /** `ATP_collection_is_not_init` */
    method CollectionIsNotInit() returns (b: bool)
      ensures b == (collection == -1)
    {
      b := collection == -1;
    }

    /** `ATP_collection_set` */
    method CollectionSet()
      modifies this`collection
      ensures collection == 1
    {
      collection := 1;
    }

    /** `ATP_collection_unset` */
    method CollectionUnset()
      modifies this`collection
      ensures collection == 0
    {
      collection := 0;
    }
  }
}
