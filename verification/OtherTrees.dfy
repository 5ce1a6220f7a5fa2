/** What the loader of src/common/atpdesc.c makes of some accepted files that the library does not write itself. */
module OtherTrees {
  import opened JsonGrammar
  import opened Options
  import opened RegistryModel
  import opened DescLoader
  import opened LoaderProofs

  /** `{x: v}` */
  function Only(x: string, v: Json): Json {
    JObject([Member(x, v)])
  }

  const NOTHING := JObject([])

  lemma OnlyMember(l: Load, x: string, v: Json, depth: nat)
    requires l.Load?
    ensures Value(l, Only(x, v), depth)
         == LeaveObject(Value(Enter(l, CString(x), depth + 1), v, depth + 1), 1, depth + 1)
  {
    hide Enter, LeaveObject;
    var ms := [Member(x, v)];
    assert LoadMembers(l, ms, 0, depth + 1) == l;
    assert LoadMembers(l, ms, 1, depth + 1) == Value(Enter(l, CString(x), depth + 1), v, depth + 1);
  }

  lemma NoMember(l: Load, depth: nat)
    ensures Value(l, NOTHING, depth) == l
  {
  }

  /** The record after the name of a domain: the domain is there, and nothing has been collected for it. */
  lemma DomainEntered(l: Load, dom: string)
    requires l.Load? && NothingPending(l.box)
    ensures var r := Enter(l, CString(dom), 1); var ds := AddDomain(l.ds, CString(dom));
            && r.Load? && r.ds == ds && r.box.current == IndexOf(DomainNames(ds), CString(dom))
            && r.box.inDomain && r.box.paramCounter == r.box.constraintCounter == 0
            && r.box.nvalues == r.box.room == 0 && r.box.range == [] && r.box.ptype == r.box.dflt == 0
            && r.box.cname == r.box.expr == None
  {
    hide AddDomain, IndexOf, CString;
  }

  lemma SectionEntered(l: Load, name: string)
    requires l.Load? && (name == "params" || name == "explorations")
    ensures Enter(l, name, 2) == l.(box := EnterSection(l.box, name))
    ensures EnterSection(l.box, "params").inParam && !EnterSection(l.box, "params").inConstraint
    ensures EnterSection(l.box, "explorations").inExploration && EnterSection(l.box, "explorations").room == l.box.room
  {
  }

  lemma ParamEntered(l: Load, name: string)
    requires l.Load? && l.box.inParam && !l.box.inConstraint && l.box.paramCounter == 0
    ensures Enter(l, name, 3) == l.(box := l.box.(paramCounter := 1, pname := Some(name)))
  {
  }

  /** `{"params": {name: {}}}`, its names at depths 2 and 3. */
  lemma BareEntered(l: Load, name: string)
    requires l.Load? && l.box.paramCounter == 0
    ensures Value(l, Only("params", Only(name, NOTHING)), 1)
         == l.(box := EnterSection(l.box, "params").(paramCounter := 1, pname := Some(CString(name))))
  {
    WriterNames();
    SectionEntered(l, "params");
    var l2 := l.(box := EnterSection(l.box, "params"));
    ParamEntered(l2, CString(name));
    var l3 := l2.(box := l2.box.(paramCounter := 1, pname := Some(CString(name))));
    NoMember(l3, 3);
    OnlyMember(l2, name, NOTHING, 2);
    OnlyMember(l, "params", Only(name, NOTHING), 1);
    hide CString, Only, Value, Enter, EnterSection;
  }

  /** What is committed for it at the end of the file. */
  lemma BareCommitted(l: Load)
    requires l.Load? && l.box.inDomain && HasDomain(l) && l.box.pname.Some? && l.box.paramCounter == 1
    requires l.box.constraintCounter == 0 && l.box.nvalues == 0 && l.box.range == []
    requires l.box.ptype == l.box.dflt == 0
    ensures var r := LeaveObject(l, 1, 1);
            && l.box.current.value < |l.ds|
            && r.Load? && r.ds == AddParam(l.ds, l.box.current.value, Param(l.box.pname.value, 0, 0, Some([])))
  {
    assert l.box.range[..0] == [];
    hide AddParam;
  }

  /** A parameter without any field: the fields are zero and there are no values. */
  lemma BareParam(l: Load, dom: string, name: string)
    requires l.Load? && NothingPending(l.box)
    ensures var r := Value(l, Only(dom, Only("params", Only(name, NOTHING))), 0);
            var ds := AddDomain(l.ds, CString(dom)); var i := IndexOf(DomainNames(ds), CString(dom));
            && i.Some? && i.value < |ds|
            && r.Load? && r.ds == AddParam(ds, i.value, Param(CString(name), 0, 0, Some([])))
  {
    DomainEntered(l, dom);
    OnlyMember(l, dom, Only("params", Only(name, NOTHING)), 0);
    hide CString, Only, Value, Enter, AddDomain, IndexOf, LeaveObject, AddParam, DomainNames;
    var l1 := Enter(l, CString(dom), 1);
    BareEntered(l1, name);
    var l3 := l1.(box := EnterSection(l1.box, "params").(paramCounter := 1, pname := Some(CString(name))));
    BareCommitted(l3);
  }

  lemma ExplorationFaults(l: Load, i: int)
    requires l.Load? && l.box.room == 0
    ensures Value(l, Only("explorations", JInt(i)), 1) == Fault
  {
    WriterNames();
    OnlyMember(l, "explorations", JInt(i), 1);
    SectionEntered(l, "explorations");
    NothingToLeave();
    hide CString, Only, Enter, Value, LeaveObject, EnterSection;
    NoRoom(l.(box := EnterSection(l.box, "explorations")), i);
  }

  /** An integer where explorations are expected, outside any array, is written through a null pointer. */
  lemma BareExploration(l: Load, dom: string, i: int)
    requires l.Load? && NothingPending(l.box)
    ensures Value(l, Only(dom, Only("explorations", JInt(i))), 0) == Fault
  {
    DomainEntered(l, dom);
    OnlyMember(l, dom, Only("explorations", JInt(i)), 0);
    NothingToLeave();
    hide CString, AddDomain, IndexOf, Only, Enter, Value, LeaveObject;
    ExplorationFaults(Enter(l, CString(dom), 1), i);
  }

  lemma NothingToLeave()
    ensures forall d: nat :: LeaveObject(Fault, 1, d) == Fault
  {
  }

  lemma NoRoom(l: Load, i: int)
    requires l.Load? && l.box.inExploration && l.box.room == 0
    ensures Value(l, JInt(i), 2) == Fault
  {
  }

  /** An array is a level of its own: inside one at the top the names that are domains elsewhere are sections, so that
      no domain is added, and the parameter of the tree above is collected but not committed. */
  lemma ArrayOnTop(l: Load, name: string)
    requires l.Load? && l.box.paramCounter == 0
    ensures var r := Value(l, JArray([Only("params", Only(name, NOTHING))]), 0);
            && r.Load? && r.ds == l.ds && r.box.paramCounter == 1 && r.box.pname == Some(CString(name))
  {
    var params := Only("params", Only(name, NOTHING));
    var a := l.(box := EnterArray(l.box, 1));
    OneItem(a, params);
    ArrayKeepsCounter(l.box, 1);
    assert Value(l, JArray([params]), 0) == LoadItems(a, [params], 1, 1);
    hide CString, Only, Value, EnterArray;
    BareEntered(a, name);
  }

  lemma OneItem(a: Load, v: Json)
    ensures LoadItems(a, [v], 1, 1) == Value(a, v, 1)
  {
    hide Value;
    assert LoadItems(a, [v], 0, 1) == a;
  }

  lemma ArrayKeepsCounter(b: Box, n: nat)
    ensures EnterArray(b, n).paramCounter == b.paramCounter
  {
  }
}
