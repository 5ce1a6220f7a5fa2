/** The loader of src/common/atpdesc.c as it runs: mutually recursive walks over the nodes of a parsed file, all
    updating one record and appending to the registry. */
module AtpDesc {
  import opened JsonMachine
  import opened JsonGrammar
  import JsonLayout
  import JsonParser
  import opened JsonTheorems
  import opened Options
  import opened RegistryModel
  import opened DescLoader
  import opened AtpCommon

  // ---------------------------------------------------------------- C strings in memory

  lemma {:induction false} UpToZero(s: string, rest: string)
    ensures CString(s + ['\0'] + rest) == CString(s)
  {
    if s == "" || s[0] == '\0' {
    } else {
      UpToZero(s[1..], rest);
      assert (s + ['\0'] + rest)[1..] == s[1..] + ['\0'] + rest;
    }
  }

  /** The key of member `k`. */
  function KeyOf(b: Block, k: nat): string
    requires b.Members? && k < |b.entries| && b.entries[k].name <= |b.keys|
  {
    CString(b.keys[b.entries[k].name..])
  }

  lemma KeyRead(b: Block, k: nat, name: string)
    requires HasKey(b, k, name)
    ensures b.Members? && k < |b.entries| && b.entries[k].name <= |b.keys| && KeyOf(b, k) == CString(name)
  {
    var e := b.entries[k].name;
    UpToZero(name, b.keys[e + |name| + 1..]);
    assert b.keys[e..] == b.keys[e..e + |name|] + [b.keys[e + |name|]] + b.keys[e + |name| + 1..];
  }

  lemma {:induction false} EarlierItem(nodes: seq<Node>, l: Link, vs: seq<Json>, k: nat, x: nat)
    requires l.At? && l.i < |nodes| && x < k <= |vs| && RepresentsItems(nodes, l, vs, k)
    ensures var b := nodes[l.i].block; b.Items? && x < |b.items| && Represents(nodes, b.items[x], l, vs[x])
    decreases k
  {
    hide Represents;
    if x >= k - 1 {
    } else {
      EarlierItem(nodes, l, vs, k - 1, x);
    }
  }

  lemma {:induction false} EarlierMember(nodes: seq<Node>, l: Link, ms: seq<Member>, k: nat, x: nat)
    requires l.At? && l.i < |nodes| && x < k <= |ms| && RepresentsMembers(nodes, l, ms, k)
    ensures var b := nodes[l.i].block; HasKey(b, x, ms[x].name) && Represents(nodes, b.entries[x].value, l, ms[x].value)
    decreases k
  {
    hide Represents;
    if x >= k - 1 {
    } else {
      EarlierMember(nodes, l, ms, k - 1, x);
    }
  }

  // ---------------------------------------------------------------- the loader

  class Loader {
    const reg: Registry
    const junk: Int32
    var current: Option<nat>
    var pname: Option<string>
    var cname: Option<string>
    var range: seq<Int32>
    var nvalues: nat
    var room: nat
    var cursor: nat
    var ptype: Int8
    var dflt: Int32
    var expr: Option<string>
    var inDomain: bool
    var inParam: bool
    var inRange: bool
    var inType: bool
    var inDefault: bool
    var inConstraint: bool
    var inExploration: bool
    var paramCounter: nat
    var constraintCounter: nat

    /** `data_container_t data_buf;`, which starts with whatever `b` the stack holds. */
    constructor (reg: Registry, b: Box)
      ensures this.reg == reg && Record() == b
    {
      this.reg, junk := reg, b.junk;
      current, pname, cname, range := b.current, b.pname, b.cname, b.range;
      nvalues, room, cursor := b.nvalues, b.room, b.cursor;
      ptype, dflt, expr := b.ptype, b.dflt, b.expr;
      inDomain, inParam, inRange, inType, inDefault := b.inDomain, b.inParam, b.inRange, b.inType, b.inDefault;
      inConstraint, inExploration := b.inConstraint, b.inExploration;
      paramCounter, constraintCounter := b.paramCounter, b.constraintCounter;
    }

    ghost function Record(): Box
      reads this
    {
      Box(current, pname, cname, range, nvalues, room, cursor, ptype, dflt, expr, inDomain, inParam, inRange, inType,
          inDefault, inConstraint, inExploration, paramCounter, constraintCounter, junk)
    }

    ghost predicate Ready()
      reads reg
    {
      reg.Valid() && reg.initialized
    }

    ghost function State(): Load
      requires Ready()
      reads this, reg
    {
      Load(reg.Contents(), Record())
    }

    /** `data_buf_init`, in three parts. */
    method DataBufInit()
      modifies this
      ensures Record() == Cleared(junk)
    {
      ClearData();
      ClearNumbers();
      ClearFlags();
    }

    method ClearData()
      modifies this`current, this`pname, this`cname, this`range, this`expr
      ensures current == None && pname == None && cname == None && range == [] && expr == None
    {
      current := None;
      pname, cname, expr := None, None, None;
      range := [];
    }

    method ClearNumbers()
      modifies this`nvalues, this`room, this`cursor, this`ptype, this`dflt, this`paramCounter, this`constraintCounter
      ensures nvalues == 0 && room == 0 && cursor == 0 && ptype == 0 && dflt == 0
      ensures paramCounter == 0 && constraintCounter == 0
    {
      nvalues, room, cursor := 0, 0, 0;
      ptype, dflt := 0, 0;
      paramCounter, constraintCounter := 0, 0;
    }

    method ClearFlags()
      modifies this`inDomain, this`inParam, this`inRange, this`inType, this`inDefault
      modifies this`inConstraint, this`inExploration
      ensures !inDomain && !inParam && !inRange && !inType && !inDefault && !inConstraint && !inExploration
    {
      inDomain, inParam := false, false;
      inRange, inType, inDefault := false, false, false;
      inConstraint, inExploration := false, false;
    }

    /** `commit_param`; not `ok` where the C code would use a pointer it does not have. */
    method CommitParam() returns (ok: bool)
      requires Ready()
      modifies reg`domains
      ensures Ready()
      ensures var r := DescLoader.CommitParam(old(State())); if ok then State() == r else r == Fault
    {
      if paramCounter == 0 { return true; }
      if current.None? || current.value >= reg.numDomains || pname.None? || nvalues > |range| { return false; }
      var d := current.value;
      ghost var ds := reg.Contents();
      var j := reg.ParamNew(pname.value, ToUInt8(ptype), dflt, d);
      reg.ParamAddValues(d, j, range[..nvalues]);
      SetAfterAdd(ds, d, Param(pname.value, ToUInt8(ptype), dflt, None), range[..nvalues]);
      ok := true;
    }

    /** `commit_constraint` */
    method CommitConstraint() returns (ok: bool)
      requires Ready()
      modifies reg`domains
      ensures Ready()
      ensures if ok then State() == DescLoader.CommitConstraint(old(State()))
              else DescLoader.CommitConstraint(old(State())) == Fault
    {
      if constraintCounter == 0 { return true; }
      if current.None? || current.value >= reg.numDomains || cname.None? || expr.None? { return false; }
      reg.ConstraintNew(cname.value, expr.value, current.value);
      ok := true;
    }

    /** The first two steps at a domain's name, and the last two of the outermost object. */
    method CommitBoth() returns (ok: bool)
      requires Ready()
      modifies reg`domains
      ensures Ready()
      ensures var r := DescLoader.CommitConstraint(DescLoader.CommitParam(old(State())));
              if ok then State() == r else r == Fault
    {
      ok := CommitParam();
      if ok { ok := CommitConstraint(); }
    }

    /** `enter_section` */
    method EnterSection(name: string)
      modifies this`inParam, this`inConstraint, this`inExploration
      ensures Record() == DescLoader.EnterSection(old(Record()), name)
    {
      inParam, inConstraint, inExploration := false, false, false;
      if name == "params" { inParam := true; }
      if name == "constraints" { inConstraint := true; }
      if name == "explorations" { inExploration := true; }
    }

    /** `enter_subsection` */
    method EnterSubsection(name: string)
      modifies this`inRange, this`inType, this`inDefault
      ensures Record() == DescLoader.EnterSubsection(old(Record()), name)
    {
      inRange, inType, inDefault := false, false, false;
      if name == "range" { inRange := true; }
      if name == "type" { inType := true; }
      if name == "default" { inDefault := true; }
    }

    // -------------------------------------------------------------- the walk

    /** The part of `process_object` for depth 1. */
    method AtDomain(name: string) returns (ok: bool)
      requires Ready()
      modifies this, reg
      ensures Ready() && reg.collection == old(reg.collection)
      ensures var r := EnterDomain(old(State()), name); if ok then State() == r else r == Fault
    {
      ok := true;
      if inDomain { ok := CommitBoth(); }
      if ok { StartDomain(name); }
    }

    method StartDomain(name: string)
      requires Ready()
      modifies this, reg
      ensures Ready() && reg.collection == old(reg.collection)
      ensures var ds := AddDomain(old(reg.Contents()), name);
              State() == Load(ds, Cleared(junk).(inDomain := true, current := IndexOf(DomainNames(ds), name)))
    {
      DataBufInit();
      inDomain := true;
      var d := reg.DomainNew(name);
      current := Some(d);
    }

    /** The part of `process_object` for depth 3. */
    method AtEntry(name: string) returns (ok: bool)
      requires Ready()
      modifies this`paramCounter, this`pname, this`constraintCounter, this`cname, reg`domains
      ensures Ready()
      ensures var r := EnterConstraint(EnterParam(old(State()), name), name); if ok then State() == r else r == Fault
    {
      ok := true;
      if inParam { ok := AtParam(name); }
      if ok && inConstraint { ok := AtConstraint(name); }
    }

    method AtParam(name: string) returns (ok: bool)
      requires Ready() && inParam
      modifies this`paramCounter, this`pname, reg`domains
      ensures Ready()
      ensures var r := EnterParam(old(State()), name); if ok then State() == r else r == Fault
    {
      ok := CommitParam();
      if !ok { return; }
      paramCounter := paramCounter + 1;
      pname := Some(name);
    }

    method AtConstraint(name: string) returns (ok: bool)
      requires Ready() && inConstraint
      modifies this`constraintCounter, this`cname, reg`domains
      ensures Ready()
      ensures var r := EnterConstraint(old(State()), name); if ok then State() == r else r == Fault
    {
      ok := CommitConstraint();
      if !ok { return; }
      constraintCounter := constraintCounter + 1;
      cname := Some(name);
    }

    /** What happens at a name, by depth. */
    method AtName(name: string, depth: nat) returns (ok: bool)
      requires Ready()
      modifies this, reg
      ensures Ready() && reg.collection == old(reg.collection)
      ensures var r := Enter(old(State()), name, depth); if ok then State() == r else r == Fault
    {
      hide EnterDomain, EnterParam, EnterConstraint, DescLoader.EnterSection, DescLoader.EnterSubsection;
      ok := true;
      if depth == 1 {
        ok := AtDomain(name);
      } else if depth == 2 {
        EnterSection(name);
      } else if depth == 3 {
        ok := AtEntry(name);
      } else if depth == 4 {
        EnterSubsection(name);
      }
    }

    /** The case `json_integer` of `process_value`. */
    method StoreInt(i: int) returns (ok: bool)
      requires Ready()
      modifies this`cursor, this`range, this`ptype, this`dflt
      ensures Ready()
      ensures var r := DescLoader.StoreInt(old(State()), i); if ok then State() == r else r == Fault
    {
      hide DescLoader.StoreField, Ready;
      ok := true;
      if inExploration {
        if cursor >= room { return false; }
        cursor := cursor + 1;
      }
      if inParam { ok := StoreField(i); }
    }

    method StoreField(i: int) returns (ok: bool)
      modifies this`cursor, this`range, this`ptype, this`dflt
      ensures var r := DescLoader.StoreField(old(Record()), i);
              if ok then r == Some(Record()) else r == None
    {
      if inRange {
        if cursor >= |range| { return false; }
        StoreValue(i);
      }
      if inType { ptype := ToInt8(i); }
      if inDefault { dflt := ToInt32(i); }
      ok := true;
    }

    /** `data_buf->range[data_buf->cursor++] = ...` */
    method StoreValue(i: int)
      requires cursor < |range|
      modifies this`cursor, this`range
      ensures var b := old(Record()); Record() == b.(range := b.range[b.cursor := ToInt32(i)], cursor := b.cursor + 1)
    {
      range := range[cursor := ToInt32(i)];
      cursor := cursor + 1;
    }

    /** The allocations of `process_array`. */
    method StartArray(n: nat)
      modifies this`nvalues, this`range, this`cursor, this`room
      ensures Record() == EnterArray(old(Record()), n)
    {
      if inRange { StartRange(n); }
      if inExploration { StartExplorations(n); }
    }

    method StartRange(n: nat)
      modifies this`nvalues, this`range, this`cursor
      ensures Record() == old(Record()).(nvalues := n, range := seq(n, _ => junk), cursor := 0)
    {
      nvalues := n;
      range := seq(n, _ => junk);
      cursor := 0;
    }

    method StartExplorations(n: nat)
      modifies this`cursor, this`room
      ensures Record() == old(Record()).(room := 4 * n, cursor := 0)
    {
      room := 4 * n;
      cursor := 0;
    }

    /** `process_array` */
    method ProcessArray(nodes: seq<Node>, value: Link, depth: nat, ghost vs: seq<Json>) returns (ok: bool)
      requires Ready() && value.At? && value.i < |nodes| && nodes[value.i].length == |vs|
      requires RepresentsItems(nodes, value, vs, |vs|)
      modifies this, reg
      ensures Ready() && reg.collection == old(reg.collection)
      ensures var l := old(State()); var r := LoadItems(l.(box := EnterArray(l.box, |vs|)), vs, |vs|, depth);
              if ok then State() == r else r == Fault
      decreases vs, 0
    {
      hide Ready, RepresentsItems, EnterArray, Represents, Value;
      var length := nodes[value.i].length;
      StartArray(length);
      ghost var l := State();
      for x := 0 to length
        invariant Ready() && reg.collection == old(reg.collection)
        invariant State() == LoadItems(l, vs, x, depth)
      {
        EarlierItem(nodes, value, vs, |vs|, x);
        ok := ProcessValue(nodes, nodes[value.i].block.items[x], depth, value, vs[x]);
        if !ok {
          FaultStays(l, vs, x + 1, depth);
          return;
        }
      }
      ok := true;
    }

    /** `process_object` */
    method ProcessObject(nodes: seq<Node>, value: Link, depth: nat, ghost ms: seq<Member>) returns (ok: bool)
      requires Ready() && value.At? && value.i < |nodes| && nodes[value.i].length == |ms|
      requires RepresentsMembers(nodes, value, ms, |ms|)
      modifies this, reg
      ensures Ready() && reg.collection == old(reg.collection)
      ensures var r := LeaveObject(LoadMembers(old(State()), ms, |ms|, depth), |ms|, depth);
              if ok then State() == r else r == Fault
      decreases ms, 0
    {
      hide Ready, RepresentsMembers, HasKey, Represents, Value, Enter, KeyOf;
      var length := nodes[value.i].length;
      ghost var l := State();
      for x := 0 to length
        invariant Ready() && reg.collection == old(reg.collection)
        invariant State() == LoadMembers(l, ms, x, depth)
      {
        EarlierMember(nodes, value, ms, |ms|, x);
        ok := ProcessMember(nodes, nodes[value.i].block, x, depth, value, ms[x]);
        if !ok {
          FaultRemains(l, ms, x + 1, depth);
          return;
        }
      }
      ok := true;
      if inDomain && depth == 1 && length > 0 { ok := CommitBoth(); }
    }

    /** The body of the loop of `process_object`. */
    method ProcessMember(nodes: seq<Node>, b: Block, x: nat, depth: nat, ghost parent: Link, ghost m: Member)
      returns (ok: bool)
      requires Ready() && HasKey(b, x, m.name) && Represents(nodes, b.entries[x].value, parent, m.value)
      modifies this, reg
      ensures Ready() && reg.collection == old(reg.collection)
      ensures var r := Value(Enter(old(State()), CString(m.name), depth), m.value, depth);
              if ok then State() == r else r == Fault
      decreases m, 0
    {
      hide Ready, HasKey, Represents, Enter, KeyOf;
      KeyRead(b, x, m.name);
      ok := AtName(KeyOf(b, x), depth);
      if ok { ok := ProcessValue(nodes, b.entries[x].value, depth, parent, m.value); }
    }

    /** `process_value`, on the nodes of a parse that stand for `v`. */
    method ProcessValue(nodes: seq<Node>, value: Link, depth: nat, ghost parent: Link, ghost v: Json) returns (ok: bool)
      requires Ready() && Represents(nodes, value, parent, v)
      modifies this, reg
      ensures Ready() && reg.collection == old(reg.collection)
      ensures var r := Value(old(State()), v, depth); if ok then State() == r else r == Fault
      decreases v, 0
    {
      ok := true;
      if value.Null? { return; }
      var n := nodes[value.i];
      match n.kind {
        case KObject => ok := ProcessObject(nodes, value, depth + 1, v.members);
        case KArray => ok := ProcessArray(nodes, value, depth + 1, v.items);
        case KInteger => ok := StoreInt(n.scalar);
        case KString =>
          if inConstraint {
            UpToZero(v.s, "");
            assert v.s + ['\0'] + "" == n.block.chars;
            expr := Some(CString(n.block.chars));
          }
        case _ =>
      }
    }
  }

  // ---------------------------------------------------------------- a file

  /** The description file as the loader finds it: missing, there but not to be opened, or holding a text.  A file
      that opens but cannot be read counts as one that holds nothing. */
  datatype DescFile = NoFile | Unopenable | FileText(text: string)

  /** What `parse_atp_desc` makes of a file: nothing if it is missing, empty or not accepted by the parser.  A file
      that cannot be opened is closed all the same, through a null pointer. */
  function LoadFile(ds: seq<Domain>, file: DescFile, stale: Box): Option<Load> {
    match file
    case NoFile => None
    case Unopenable => Some(Fault)
    case FileText(text) =>
      if text == "" then None
      else
        match ReadDocument(SkipMark(text))
        case Err => None
        case Ok(v, _) => Some(Value(Load(ds, stale), v, 0))
  }

  datatype Status = NotLoaded | FileLoaded | Faulted

  /** `parse_atp_desc`: the file is parsed, then the nodes are walked; `stale` is what the uninitialised record
      holds.  Freeing the nodes afterwards does not touch the registry, which has copies of all names. */
  method ParseAtpDesc(reg: Registry, file: DescFile, stale: Box, junk: char)
    returns (status: Status, first: bool)
    requires reg.Valid()
    modifies reg
    ensures reg.Valid()
    ensures status == NotLoaded ==> reg.Contents() == old(reg.Contents()) && reg.collection == old(reg.collection)
                                    && reg.initialized == old(reg.initialized) && !first
    ensures status == FileLoaded ==>
              && reg.initialized && first == !old(reg.initialized)
              && reg.collection == if first then -1 else old(reg.collection)
    ensures var ds := if old(reg.initialized) then old(reg.Contents()) else AddDomain([], DEFAULT_DOMAIN);
            match LoadFile(ds, file, stale)
            case None => status == NotLoaded
            case Some(Fault) => status == Faulted
            case Some(Load(r, _)) => status == FileLoaded && reg.Contents() == r
  {
    if file.NoFile? { return NotLoaded, false; }
    if file.Unopenable? { return Faulted, false; }
    if file.text == "" { return NotLoaded, false; }
    hide Represents, Value, ReadDocument, JsonLayout.Laid, LoadFile;
    var root, nodes := JsonParser.JsonParseEx(file.text, junk);
    if root.Null? {
      status, first := NotLoaded, false;
    } else {
      ghost var v := ReadDocument(SkipMark(file.text)).value;
      assert nodes[0..|nodes|] == nodes;
      LaidRepresents(v, Null, 0, nodes);
      first := reg.Init();
      var loader := new Loader(reg, stale);
      var ok := loader.ProcessValue(nodes, root, 0, Null, v);
      status := if ok then FileLoaded else Faulted;
    }
    FileCases(if old(reg.initialized) then old(reg.Contents()) else AddDomain([], DEFAULT_DOMAIN), file, stale);
  }

  lemma FileCases(ds: seq<Domain>, file: DescFile, stale: Box)
    requires file.FileText? && file.text != ""
    ensures LoadFile(ds, file, stale)
         == match ReadDocument(SkipMark(file.text)) case Err => None case Ok(v, _) => Some(Value(Load(ds, stale), v, 0))
  {
  }

  lemma {:induction false} FaultStays(l: Load, vs: seq<Json>, k: nat, depth: nat)
    requires k <= |vs| && LoadItems(l, vs, k, depth) == Fault
    ensures LoadItems(l, vs, |vs|, depth) == Fault
    decreases |vs| - k
  {
    if k >= |vs| {
    } else {
      FaultStays(l, vs, k + 1, depth);
    }
  }

  lemma {:induction false} FaultRemains(l: Load, ms: seq<Member>, k: nat, depth: nat)
    requires k <= |ms| && LoadMembers(l, ms, k, depth) == Fault
    ensures LoadMembers(l, ms, |ms|, depth) == Fault
    decreases |ms| - k
  {
    if k >= |ms| {
    } else {
      FaultRemains(l, ms, k + 1, depth);
    }
  }

  lemma SetAfterAdd(ds: seq<Domain>, d: nat, p: Param, values: seq<Int32>)
    requires d < |ds|
    ensures SetValues(AddParam(ds, d, p), d, |ds[d].params|, values) == AddParam(ds, d, p.(values := Some(values)))
  {
    var q := p.(values := Some(values));
    assert (ds[d].params + [p])[|ds[d].params| := q] == ds[d].params + [q];
  }
}
