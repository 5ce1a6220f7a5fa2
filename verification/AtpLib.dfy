/** The functions of src/atplib/atplib.c over the registry in memory, each against the state machine of the API. */
module AtpLib {
  import JsonMachine
  import opened JsonGrammar
  import opened Options
  import opened RegistryModel
  import opened DescLoader
  import opened AtpCommon
  import opened AtpDesc
  import opened ApiModel

  // ---------------------------------------------------------------- the default domain is always there

  predicate HasDefault(ds: seq<Domain>) {
    ds != [] && ds[0].name == DEFAULT_DOMAIN
  }

  lemma DefaultIsFound(ds: seq<Domain>)
    requires HasDefault(ds)
    ensures FindDomain(ds, None).Some?
  {
    assert DomainNames(ds)[0] == DEFAULT_DOMAIN;
  }

  predicate KeepsDefault(l: Load) {
    l.Load? ==> HasDefault(l.ds)
  }

  lemma EnterKeepsDefault(l: Load, name: string, depth: nat)
    requires KeepsDefault(l)
    ensures KeepsDefault(DescLoader.Enter(l, name, depth))
  {
    hide IndexOf, DomainNames;
  }

  /** Whatever a description file holds, loading it neither removes nor renames the default domain. */
  lemma {:induction false} LoadKeepsDefault(l: Load, v: Json, depth: nat)
    requires KeepsDefault(l)
    ensures KeepsDefault(Value(l, v, depth))
    decreases v, 0
  {
    match v {
      case JObject(ms) =>
        MembersKeepDefault(l, ms, |ms|, depth + 1);
        hide LoadMembers;
      case JArray(vs) =>
        if l.Load? { ItemsKeepDefault(l.(box := EnterArray(l.box, |vs|)), vs, |vs|, depth + 1); }
        hide LoadItems, EnterArray;
      case _ =>
    }
  }

  lemma {:induction false} MembersKeepDefault(l: Load, ms: seq<Member>, k: nat, depth: nat)
    requires KeepsDefault(l) && k <= |ms|
    ensures KeepsDefault(LoadMembers(l, ms, k, depth))
    decreases ms, k
  {
    hide Value, DescLoader.Enter, KeepsDefault;
    if k == 0 {
    } else {
      MembersKeepDefault(l, ms, k - 1, depth);
      var r, name := LoadMembers(l, ms, k - 1, depth), CString(ms[k - 1].name);
      EnterKeepsDefault(r, name, depth);
      LoadKeepsDefault(DescLoader.Enter(r, name, depth), ms[k - 1].value, depth);
    }
  }

  lemma {:induction false} ItemsKeepDefault(l: Load, vs: seq<Json>, k: nat, depth: nat)
    requires KeepsDefault(l) && k <= |vs|
    ensures KeepsDefault(LoadItems(l, vs, k, depth))
    decreases vs, k
  {
    hide Value, KeepsDefault;
    if k == 0 {
    } else {
      ItemsKeepDefault(l, vs, k - 1, depth);
      LoadKeepsDefault(LoadItems(l, vs, k - 1, depth), vs[k - 1], depth);
    }
  }

  lemma FileKeepsDefault(ds: seq<Domain>, file: DescFile, stale: Box)
    requires HasDefault(ds) && LoadFile(ds, file, stale).Some? && LoadFile(ds, file, stale).value.Load?
    ensures HasDefault(LoadFile(ds, file, stale).value.ds)
  {
    var v := ReadDocument(JsonMachine.SkipMark(file.text)).value;
    LoadKeepsDefault(Load(ds, stale), v, 0);
    hide Value, ReadDocument;
  }

  lemma FreshHasDefault()
    ensures HasDefault(AddDomain([], DEFAULT_DOMAIN))
  {
    FreshIsWellFormed();
  }

  // ---------------------------------------------------------------- the functions

  class Library {
    const reg: Registry
    var loaded: bool                 // desc_file_loaded
    var ops: seq<FileOp>             // what has been done to files

    constructor (junk: DomainCell, junkParam: Param, junkConstraint: Constraint)
      ensures Valid() && State() == START && fresh(reg)
    {
      reg := new Registry(junk, junkParam, junkConstraint);
      loaded, ops := false, [];
    }

    ghost predicate Valid()
      reads this, reg
    {
      reg.Valid() && (reg.initialized ==> HasDefault(reg.Contents()))
    }

    ghost function State(): Lib
      requires Valid()
      reads this, reg
    {
      Lib(reg.Contents(), reg.initialized, reg.collection, loaded, ops)
    }

    /** `ATP_init`, with the removal of the lock file. */
    method AtpInit()
      requires Valid()
      modifies this`ops, reg
      ensures Valid() && State() == Init(old(State()))
    {
      FreshHasDefault();
      hide AddDomain;
      var first := reg.Init();
      if first { ops := ops + [RemoveLock]; }
    }

    /** `load_desc_file`; not `ok` when the loader goes outside its memory. */
    method LoadDescFile(w: World, junk: char) returns (ok: bool)
      requires Valid()
      modifies this, reg
      ensures ok ==> Valid() && State() == LoadOnce(old(State()), w)
      ensures !ok ==> LoadOnce(old(State()), w) == Broken
    {
      if loaded { return true; }
      FreshHasDefault();
      hide AddDomain, LoadFile;
      ghost var ds := if reg.initialized then reg.Contents() else AddDomain([], DEFAULT_DOMAIN);
      var status, first := ParseAtpDesc(reg, w.file, w.stale, junk);
      ok := status != Faulted;
      if status == FileLoaded {
        FileKeepsDefault(ds, w.file, w.stale);
        loaded := true;
        if first { ops := ops + [RemoveLock]; }
      }
    }

    /** `atp_init_collection` */
    method AtpInitCollection(w: World, junk: char) returns (ok: bool)
      requires Valid()
      modifies this, reg
      ensures ok ==> Valid() && State() == BeginCall(old(State()), w)
      ensures !ok ==> BeginCall(old(State()), w) == Broken
    {
      hide LoadOnce, Init;
      ok := true;
      if !w.dta {
        ok := LoadDescFile(w, junk);
        if ok { reg.CollectionUnset(); }
      } else {
        AtpInit();
        var notInit := reg.CollectionIsNotInit();
        if notInit { reg.CollectionSet(); }
      }
    }

    /** `atp_end_collection` */
    method AtpEndCollection(w: World)
      requires Valid()
      modifies this`ops, reg`collection
      ensures Valid() && State() == Apply(old(State()), EndCollection, w)
    {
      hide WriterOps;
      var active := reg.CollectionIsActive();
      if active {
        reg.CollectionUnset();
        var done := reg.GenDescfile(w.locked, w.writable);
        ops := ops + done;
      }
    }

    /** `atp_param_declare` */
    method AtpParamDeclare(pname: string, ptype: UInt8, deflt: Int32, dom: Option<string>, w: World, junk: char)
      returns (ok: bool)
      requires Valid()
      modifies this, reg
      ensures var r := Apply(old(State()), ParamDeclare(pname, ptype, deflt, dom), w);
              if ok then Valid() && State() == r else r == Broken
    {
      hide BeginCall, DeclareParam;
      ok := AtpInitCollection(w, junk);
      if !ok { return; }
      var active := reg.CollectionIsActive();
      if !active { return; }
      ActiveIsInitialized(old(State()), w);
      DeclareInDomain(pname, ptype, deflt, dom, w);
    }

    method DeclareInDomain(pname: string, ptype: UInt8, deflt: Int32, dom: Option<string>, w: World)
      requires Valid() && reg.initialized && reg.collection == 1
      modifies this`ops, reg
      ensures Valid() && State() == DeclareParam(old(State()), Param(pname, ptype, deflt, None), dom, w)
    {
      hide FindUnique, End, IndexOf, DomainNames, AddDomain;
      DefaultIsFound(reg.Contents());
      var d := FindOrCreate(dom);
      var found := reg.ParamFindUnique(pname);
      if found.Some? {
        ghost var l := State();
        AtpEndCollection(w);
        assert Apply(l, EndCollection, w) == End(l, w);
      } else {
        var j := reg.ParamNew(pname, ptype, deflt, d);
      }
    }

    /** `ATP_domain_find`, then `ATP_domain_new` if there is none; the default domain is always found. */
    method FindOrCreate(dom: Option<string>) returns (d: nat)
      requires Valid() && reg.initialized && (dom.None? ==> FindDomain(reg.Contents(), None).Some?)
      modifies reg`domains, reg`numDomains, reg`maxNumDomains
      ensures Valid() && reg.Contents() == AddDomain(old(reg.Contents()), DomainKey(dom))
      ensures d < reg.numDomains && IndexOf(DomainNames(reg.Contents()), DomainKey(dom)) == Some(d)
    {
      hide IndexOf;
      var found := reg.DomainFind(dom);
      if found.Some? {
        d := found.value;
      } else {
        d := reg.DomainNew(dom.value);
      }
    }

    /** `atp_param_add_values` */
    method AtpParamAddValues(name: Option<string>, values: Option<seq<Int32>>, dom: Option<string>, w: World,
                             junk: char)
      returns (ok: bool)
      requires Valid()
      modifies this, reg
      ensures var r := Apply(old(State()), ParamAddValues(name, values, dom), w);
              if ok then Valid() && State() == r else r == Broken
    {
      hide BeginCall, AddValues;
      ok := AtpInitCollection(w, junk);
      if !ok { return; }
      var active := reg.CollectionIsActive();
      if !active || name.None? || values.None? { return; }
      ActiveIsInitialized(old(State()), w);
      ValuesInDomain(name.value, values.value, dom);
    }

    method ValuesInDomain(name: string, values: seq<Int32>, dom: Option<string>)
      requires Valid() && reg.initialized
      modifies reg`domains
      ensures Valid() && State() == AddValues(old(State()), name, values, dom)
    {
      hide IndexOf;
      if |values| == 0 { return; }
      var d := reg.DomainFind(dom);
      if d.None? { return; }
      var j := reg.ParamFind(name, d.value);
      if j.None? { return; }
      var ptype := reg.domains[d.value].params.cells[j.value].ptype;
      if ptype == TYPE_RANGE && |values| != 3 { return; }
      reg.ParamAddValues(d.value, j.value, values);
    }

    /** `atp_constraint_declare` */
    method AtpConstraintDeclare(cname: Option<string>, expr: Option<string>, dom: Option<string>, w: World, junk: char)
      returns (ok: bool)
      requires Valid()
      modifies this, reg
      ensures var r := Apply(old(State()), ConstraintDeclare(cname, expr, dom), w);
              if ok then Valid() && State() == r else r == Broken
    {
      hide BeginCall, DeclareConstraint;
      ok := AtpInitCollection(w, junk);
      if !ok { return; }
      var active := reg.CollectionIsActive();
      if !active || cname.None? || expr.None? { return; }
      ActiveIsInitialized(old(State()), w);
      ConstraintInDomain(cname.value, expr.value, dom, w);
    }

    method ConstraintInDomain(cname: string, expr: string, dom: Option<string>, w: World)
      requires Valid() && reg.initialized
      modifies this`ops, reg
      ensures Valid() && State() == DeclareConstraint(old(State()), Constraint(cname, expr), dom, w)
    {
      hide IndexOf, End;
      var d := reg.DomainFind(dom);
      if d.None? { return; }
      var found := reg.ConstraintFind(cname, d.value);
      if found.Some? {
        ghost var l := State();
        AtpEndCollection(w);
        assert Apply(l, EndCollection, w) == End(l, w);
      } else {
        reg.ConstraintNew(cname, expr, d.value);
      }
    }

    /** `atp_exploration_declare` */
    method AtpExplorationDeclare(hints: Option<seq<UInt8>>, dom: Option<string>, w: World, junk: char)
      returns (ok: bool)
      requires Valid()
      modifies this, reg
      ensures var r := Apply(old(State()), ExplorationDeclare(hints, dom), w);
              if ok then Valid() && State() == r else r == Broken
    {
      hide BeginCall;
      ok := AtpInitCollection(w, junk);
      if !ok { return; }
      var active := reg.CollectionIsActive();
      if !active || hints.None? || dom.None? { return; }
      StoreHints(hints.value, dom);
    }

    /** The hints are stored, but nothing that is ever read changes. */
    method StoreHints(hints: seq<UInt8>, dom: Option<string>)
      requires Valid()
      modifies reg`domains
      ensures Valid() && State() == old(State())
    {
      hide IndexOf;
      var d := reg.DomainFind(dom);
      if d.Some? { reg.ExplorationNew(hints, d.value); }
    }

    /** `atp_param_get`: the default that is handed to the runtime system, if the parameter is known. */
    method AtpParamGet(pname: string) returns (r: Option<Int32>)
      requires Valid()
      ensures r == match FindUnique(reg.Contents(), pname)
                   case None => None
                   case Some((i, j)) => Some(reg.Contents()[i].params[j].deflt)
    {
      hide FindUnique;
      var found := reg.ParamFindUnique(pname);
      if found.None? { return None; }
      r := Some(reg.domains[found.value.0].params.cells[found.value.1].deflt);
    }
  }

  /** Collection is active only in an initialised library. */
  lemma ActiveIsInitialized(l: Lib, w: World)
    requires l.Lib? && BeginCall(l, w).Lib? && BeginCall(l, w).collection == 1
    ensures BeginCall(l, w).initialized
  {
    hide LoadFile;
  }
}
