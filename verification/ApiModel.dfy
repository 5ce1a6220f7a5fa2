/** The declaration API of src/atplib/atplib.c as a state machine, and what every run of it keeps. */
module ApiModel {
  import opened JsonMachine
  import opened JsonGrammar
  import opened Options
  import opened RegistryModel
  import opened DescLoader
  import opened AtpCommon
  import opened AtpDesc

  /** The library in one process: the registry, the collection flag, whether the description file has been loaded,
      and what has been done to files.  `Broken` is the state after an access outside allocated memory. */
  datatype Lib =
    | Lib(ds: seq<Domain>, initialized: bool, collection: int, loaded: bool, ops: seq<FileOp>)
    | Broken

  const START := Lib([], false, 0, false, [])

  /** What a call finds: the execution mode, whether the lock file exists and the description file can be opened
      for writing when the call gets there, the description file, and the contents of uninitialised memory. */
  datatype World = World(dta: bool, locked: bool, writable: bool, file: DescFile, stale: Box)

  datatype Call =
    | ParamDeclare(pname: string, ptype: UInt8, deflt: Int32, dom: Option<string>)
    | ParamAddValues(name: Option<string>, values: Option<seq<Int32>>, dom: Option<string>)
    | ConstraintDeclare(cname: Option<string>, expr: Option<string>, dom: Option<string>)
    | ExplorationDeclare(hints: Option<seq<UInt8>>, dom: Option<string>)
    | InitCollection
    | EndCollection

  // ---------------------------------------------------------------- the calls

  /** `ATP_init` */
  function Init(l: Lib): Lib {
    if l.Broken? || l.initialized then l
    else l.(ds := AddDomain([], DEFAULT_DOMAIN), initialized := true, collection := -1, ops := l.ops + [RemoveLock])
  }

  /** `load_desc_file`: once a load has succeeded there is no other. */
  function LoadOnce(l: Lib, w: World): Lib {
    if l.Broken? || l.loaded then l
    else
      match LoadFile(Init(l).ds, w.file, w.stale)
      case None => l
      case Some(Fault) => Broken
      case Some(Load(ds, _)) => Init(l).(ds := ds, loaded := true)
  }

  /** `atp_init_collection` */
  function BeginCall(l: Lib, w: World): Lib {
    if !w.dta then
      var r := LoadOnce(l, w);
      if r.Broken? then Broken else r.(collection := 0)
    else
      var r := Init(l);
      if r.Lib? && r.collection == -1 then r.(collection := 1) else r
  }

  /** `atp_end_collection` */
  function End(l: Lib, w: World): Lib {
    if l.Lib? && l.collection == 1
    then l.(collection := 0, ops := l.ops + WriterOps(l.ds, w.locked, w.writable))
    else l
  }

  /** `atp_param_declare`, once collection is active: the domain is created before the name is looked up. */
  function DeclareParam(l: Lib, p: Param, dom: Option<string>, w: World): Lib
    requires l.Lib?
  {
    var ds := AddDomain(l.ds, DomainKey(dom));
    var r := l.(ds := ds);
    if FindUnique(ds, p.name).Some? then End(r, w)
    else r.(ds := AddParam(ds, IndexOf(DomainNames(ds), DomainKey(dom)).value, p))
  }

  /** `atp_param_add_values` */
  function AddValues(l: Lib, name: string, values: seq<Int32>, dom: Option<string>): Lib
    requires l.Lib?
  {
    var d := FindDomain(l.ds, dom);
    if values == [] || d.None? then l
    else
      var j := IndexOf(ParamNames(l.ds[d.value].params), name);
      if j.None? || (l.ds[d.value].params[j.value].ptype == TYPE_RANGE && |values| != 3) then l
      else l.(ds := SetValues(l.ds, d.value, j.value, values))
  }

  /** `atp_constraint_declare` */
  function DeclareConstraint(l: Lib, c: Constraint, dom: Option<string>, w: World): Lib
    requires l.Lib?
  {
    var d := FindDomain(l.ds, dom);
    if d.None? then l
    else if IndexOf(ConstraintNames(l.ds[d.value].constraints), c.name).Some? then End(l, w)
    else l.(ds := AddConstraint(l.ds, d.value, c))
  }

  /** A call while collection is active. */
  function Declare(l: Lib, c: Call, w: World): Lib
    requires l.Lib?
  {
    match c
    case ParamDeclare(pname, ptype, deflt, dom) => DeclareParam(l, Param(pname, ptype, deflt, None), dom, w)
    case ParamAddValues(Some(name), Some(values), dom) => AddValues(l, name, values, dom)
    case ConstraintDeclare(Some(cname), Some(expr), dom) => DeclareConstraint(l, Constraint(cname, expr), dom, w)
    case _ => l
  }

  function Apply(l: Lib, c: Call, w: World): Lib {
    if c.EndCollection? then End(l, w)
    else
      var e := BeginCall(l, w);
      if e.Broken? || e.collection != 1 then e else Declare(e, c, w)
  }

  /** A run: the calls in order, each with what it finds. */
  function Run(l: Lib, calls: seq<(Call, World)>): Lib
    decreases |calls|
  {
    if calls == [] then l else Run(Apply(l, calls[0].0, calls[0].1), calls[1..])
  }

  // ---------------------------------------------------------------- collecting

  predicate AllDta(calls: seq<(Call, World)>) {
    forall i :: 0 <= i < |calls| ==> calls[i].1.dta
  }

  /** What a process in DTA mode can be like: not started, collecting, or done, with the file operations that go
      with it.  `Done` remembers the registry as it was written. */
  predicate Collecting(l: Lib) {
    l.Lib? && !l.loaded &&
    if !l.initialized then l == START
    else
      && WellFormed(l.ds)
      && ((l.collection == 1 && l.ops == [RemoveLock])
          || (l.collection == 0 && exists locked, writable ::
                                     l.ops == [RemoveLock] + WriterOps(l.ds, locked, writable)))
  }

  lemma InitKeeps(l: Lib, w: World)
    requires Collecting(l) && w.dta
    ensures var e := BeginCall(l, w);
            Collecting(e) && e.initialized && (l.initialized ==> e == l) && (!l.initialized ==> e.collection == 1)
  {
    FreshIsWellFormed();
    hide WriterOps, WellFormed, AddDomain;
    assert [] + [RemoveLock] == [RemoveLock];
  }

  lemma EndKeeps(l: Lib, w: World)
    requires l.Lib? && !l.loaded && l.initialized && WellFormed(l.ds) && l.collection == 1 && l.ops == [RemoveLock]
    ensures Collecting(End(l, w)) && End(l, w).collection == 0 && End(l, w).ds == l.ds && End(l, w).initialized
  {
    hide WriterOps, WellFormed;
    var e := End(l, w);
    assert e.ops == [RemoveLock] + WriterOps(e.ds, w.locked, w.writable);
  }

  lemma DeclareParamKeeps(l: Lib, p: Param, dom: Option<string>, w: World)
    requires Collecting(l) && l.initialized && l.collection == 1 && p.values.None?
    ensures Collecting(DeclareParam(l, p, dom, w)) && DeclareParam(l, p, dom, w).initialized
  {
    hide WellFormed, FindUnique, WriterOps, AddParam, AddDomain;
    var ds := AddDomain(l.ds, DomainKey(dom));
    DomainAdded(l.ds, DomainKey(dom));
    if FindUnique(ds, p.name).Some? {
      EndKeeps(l.(ds := ds), w);
    } else {
      ParamAdded(ds, IndexOf(DomainNames(ds), DomainKey(dom)).value, p);
    }
  }

  lemma AddValuesKeeps(l: Lib, name: string, values: seq<Int32>, dom: Option<string>)
    requires Collecting(l) && l.initialized && l.collection == 1
    ensures Collecting(AddValues(l, name, values, dom)) && AddValues(l, name, values, dom).initialized
  {
    hide WellFormed, WriterOps, SetValues, FindDomain;
    var d := FindDomain(l.ds, dom);
    if values != [] && d.Some? {
      var j := IndexOf(ParamNames(l.ds[d.value].params), name);
      if j.Some? && !(l.ds[d.value].params[j.value].ptype == TYPE_RANGE && |values| != 3) {
        ValuesSet(l.ds, d.value, j.value, values);
      }
    }
  }

  lemma DeclareConstraintKeeps(l: Lib, c: Constraint, dom: Option<string>, w: World)
    requires Collecting(l) && l.initialized && l.collection == 1
    ensures Collecting(DeclareConstraint(l, c, dom, w)) && DeclareConstraint(l, c, dom, w).initialized
  {
    hide WellFormed, WriterOps, AddConstraint, FindDomain;
    var d := FindDomain(l.ds, dom);
    if d.Some? {
      if IndexOf(ConstraintNames(l.ds[d.value].constraints), c.name).Some? {
        EndKeeps(l, w);
      } else {
        ConstraintAdded(l.ds, d.value, c);
      }
    }
  }

  /** Every call in DTA mode keeps the invariant. */
  lemma ApplyKeeps(l: Lib, c: Call, w: World)
    requires Collecting(l) && w.dta
    ensures Collecting(Apply(l, c, w))
  {
    hide Collecting, WellFormed, BeginCall, End, DeclareParam, AddValues, DeclareConstraint;
    if c.EndCollection? {
      EndOrNot(l, w);
    } else {
      InitKeeps(l, w);
      var e := BeginCall(l, w);
      IsLib(e);
      if e.collection == 1 {
        match c {
          case ParamDeclare(pname, ptype, deflt, dom) => DeclareParamKeeps(e, Param(pname, ptype, deflt, None), dom, w);
          case ParamAddValues(Some(name), Some(values), dom) => AddValuesKeeps(e, name, values, dom);
          case ConstraintDeclare(Some(cname), Some(expr), dom) =>
            DeclareConstraintKeeps(e, Constraint(cname, expr), dom, w);
          case _ =>
        }
      }
    }
  }

  lemma IsLib(l: Lib)
    requires Collecting(l)
    ensures l.Lib?
  {
  }

  lemma EndOrNot(l: Lib, w: World)
    requires Collecting(l)
    ensures Collecting(End(l, w))
  {
    hide WellFormed, WriterOps;
    if l.collection == 1 { EndKeeps(l, w); }
  }

  /** Over every run of calls in DTA mode: domain names are unique, parameter names are unique across domains,
      constraint names within their domain, range parameters have three values if any, and the files have been
      touched at most by one removal of the lock, one attempt to create it and one write. */
  lemma {:induction false} RegistryInvariant(l: Lib, calls: seq<(Call, World)>)
    requires Collecting(l) && AllDta(calls)
    ensures Collecting(Run(l, calls))
    decreases |calls|
  {
    hide Collecting, Apply;
    if calls == [] {
    } else {
      ApplyKeeps(l, calls[0].0, calls[0].1);
      RegistryInvariant(Apply(l, calls[0].0, calls[0].1), calls[1..]);
    }
  }

  /** Once ended, a collection stays ended: no sequence of calls changes the registry or touches a file again. */
  lemma {:induction false} Frozen(l: Lib, calls: seq<(Call, World)>)
    requires l.Lib? && l.initialized && l.collection == 0 && AllDta(calls)
    ensures Run(l, calls) == l
    decreases |calls|
  {
    if calls == [] {
    } else {
      Frozen(l, calls[1..]);
    }
  }

  /** How far a collection has come: not begun, begun, active, ended. */
  function Stage(l: Lib): nat
    requires l.Lib?
  {
    if !l.initialized then 3 else if l.collection == -1 then 2 else if l.collection == 1 then 1 else 0
  }

  /** Collection only ever moves forward, and no call leaves it between initialised and active. */
  lemma CollectionMovesForward(l: Lib, c: Call, w: World)
    requires Collecting(l) && w.dta
    ensures Apply(l, c, w).Lib? && Stage(Apply(l, c, w)) <= Stage(l) && Stage(Apply(l, c, w)) != 2
    ensures Stage(Apply(l, c, w)) == 3 <==> !l.initialized && c.EndCollection?
  {
    hide BeginCall, Declare, Collecting, WellFormed, WriterOps;
    ApplyKeeps(l, c, w);
    StartOrNot(l);
    StartOrNot(Apply(l, c, w));
    if !c.EndCollection? {
      InitKeeps(l, w);
      var e := BeginCall(l, w);
      StartOrNot(e);
      if e.collection == 1 { StaysInitialized(e, c, w); }
    }
  }

  lemma StartOrNot(l: Lib)
    requires Collecting(l)
    ensures l.Lib? && (if l.initialized then l.collection == 0 || l.collection == 1 else l.collection == 0)
  {
    hide WellFormed, WriterOps;
  }

  lemma StaysInitialized(e: Lib, c: Call, w: World)
    requires Collecting(e) && e.initialized && e.collection == 1
    ensures Declare(e, c, w).Lib? && Declare(e, c, w).initialized
  {
    hide WellFormed, WriterOps;
  }

  // ---------------------------------------------------------------- applying what was tuned

  predicate AllRat(calls: seq<(Call, World)>) {
    forall i :: 0 <= i < |calls| ==> !calls[i].1.dta
  }

  /** Outside DTA mode no call collects, and none writes: at most the lock file is removed, by the first load. */
  lemma {:induction false} RatNeverWrites(l: Lib, calls: seq<(Call, World)>)
    requires AllRat(calls) && l.Lib? && l.collection == 0 && l.ops == (if l.initialized then [RemoveLock] else [])
    ensures var r := Run(l, calls);
            r.Lib? ==> r.collection == 0 && r.ops == (if r.initialized then [RemoveLock] else [])
    decreases |calls|
  {
    if calls == [] {
    } else {
      var r := Apply(l, calls[0].0, calls[0].1);
      RatStep(l, calls[0].0, calls[0].1);
      hide Apply;
      if r.Lib? { RatNeverWrites(r, calls[1..]); } else { BrokenStays(calls[1..]); }
    }
  }

  lemma RatStep(l: Lib, c: Call, w: World)
    requires !w.dta && l.Lib? && l.collection == 0 && l.ops == (if l.initialized then [RemoveLock] else [])
    ensures var r := Apply(l, c, w);
            r.Lib? ==> r.collection == 0 && r.ops == (if r.initialized then [RemoveLock] else [])
    ensures l.loaded ==> Apply(l, c, w) == l
  {
    hide LoadFile;
    assert [] + [RemoveLock] == [RemoveLock];
  }

  lemma {:induction false} BrokenStays(calls: seq<(Call, World)>)
    ensures Run(Broken, calls) == Broken
    decreases |calls|
  {
    if calls == [] {
    } else {
      BrokenStays(calls[1..]);
    }
  }

  /** Once the file has been loaded, no call changes anything. */
  lemma {:induction false} LoadedOnce(l: Lib, calls: seq<(Call, World)>)
    requires l.Lib? && l.initialized && l.collection == 0 && l.loaded
    ensures Run(l, calls) == l
    decreases |calls|
  {
    if calls == [] {
    } else {
      LoadedOnce(l, calls[1..]);
    }
  }

  /** Outside DTA mode a description file that is missing, empty, or not accepted by the parser leaves the library as it
      was, with no collection. */
  lemma NothingToLoad(l: Lib, c: Call, w: World)
    requires l.Lib? && !w.dta && !c.EndCollection?
    requires w.file == NoFile || w.file == FileText("")
             || (w.file.FileText? && ReadDocument(SkipMark(w.file.text)).Err?)
    ensures Apply(l, c, w) == l.(collection := 0)
  {
    hide ReadDocument;
  }

  /** One that is there and cannot be opened is closed all the same, unless a file has been loaded before. */
  lemma NotOpened(l: Lib, c: Call, w: World)
    requires l.Lib? && !w.dta && !c.EndCollection? && w.file == Unopenable
    ensures Apply(l, c, w) == if l.loaded then l.(collection := 0) else Broken
  {
  }

  /** One that is accepted is loaded into the registry, which is initialised before if need be. */
  lemma AcceptedIsLoaded(l: Lib, c: Call, w: World)
    requires l.Lib? && !w.dta && !c.EndCollection? && !l.loaded
    requires w.file.FileText? && w.file.text != "" && ReadDocument(SkipMark(w.file.text)).Ok?
    ensures var ds := if l.initialized then l.ds else [Domain("default", [], [])];
            var ops := if l.initialized then l.ops else l.ops + [RemoveLock];
            Apply(l, c, w) == match Value(Load(ds, w.stale), ReadDocument(SkipMark(w.file.text)).value, 0)
                              case Fault => Broken
                              case Load(r, _) => Lib(r, true, 0, true, ops)
  {
    FreshIsWellFormed();
    hide ReadDocument, Value, AddDomain;
  }
}
