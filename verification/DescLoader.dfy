/** Loading a description file (src/common/atpdesc.c): one record collects a parameter or a constraint, which is
    committed only when the next name arrives or the domain ends. */
module DescLoader {
  import opened JsonGrammar
  import opened Options
  import opened RegistryModel

  // ---------------------------------------------------------------- the record

  type Int8 = x: int | -0x80 <= x <= 0x7F

  /** Two's complement truncation. */
  function ToInt32(i: int): Int32 {
    (i + 0x8000_0000) % 0x1_0000_0000 - 0x8000_0000
  }

  function ToInt8(i: int): Int8 {
    (i + 0x80) % 0x100 - 0x80
  }

  function ToUInt8(i: int): UInt8 {
    i % 0x100
  }

  /** The cut gives the one 32-bit integer that is congruent to the argument, so it changes nothing exactly when the
      argument has 32 bits. */
  lemma CutTo32(i: int, n: Int32)
    ensures ToInt32(i) == n <==> (n - i) % 0x1_0000_0000 == 0
    ensures ToInt32(i) == i <==> -0x8000_0000 <= i <= 0x7FFF_FFFF
  {
    var q := (i + 0x8000_0000) / 0x1_0000_0000;
    assert ToInt32(i) == i - q * 0x1_0000_0000;
    assert n - i == (n - ToInt32(i)) - q * 0x1_0000_0000;
    RemainderKept(n - ToInt32(i), -q);
  }

  lemma RemainderKept(a: int, k: int)
    ensures (a + k * 0x1_0000_0000) % 0x1_0000_0000 == a % 0x1_0000_0000
  {
  }

  /** The type of a parameter goes through a signed byte and comes back, cut to a byte. */
  lemma TypeThroughInt8(i: int)
    ensures ToUInt8(ToInt8(i)) == i % 0x100
    ensures ToUInt8(ToInt8(i)) == i <==> 0 <= i <= 0xFF
  {
  }

  /** A string as the C library sees it: up to the first zero byte. */
  function CString(s: string): string {
    if s == "" || s[0] == '\0' then "" else [s[0]] + CString(s[1..])
  }

  /** `data_container_t`.  `range` is the array allocated for the values, and `room` the number of bytes allocated
      for the explorations, whose contents are never used.  `junk` is what fresh memory holds. */
  datatype Box = Box(
    current: Option<nat>, pname: Option<string>, cname: Option<string>, range: seq<Int32>, nvalues: nat, room: nat,
    cursor: nat, ptype: Int8, dflt: Int32, expr: Option<string>,
    inDomain: bool, inParam: bool, inRange: bool, inType: bool, inDefault: bool, inConstraint: bool,
    inExploration: bool, paramCounter: nat, constraintCounter: nat, junk: Int32)

  /** `data_buf_init` */
  function Cleared(junk: Int32): Box {
    Box(None, None, None, [], 0, 0, 0, 0, 0, None, false, false, false, false, false, false, false, 0, 0, junk)
  }

  /** The registry and the record, or an access outside allocated memory or through a null pointer. */
  datatype Load = Load(ds: seq<Domain>, box: Box) | Fault

  // ---------------------------------------------------------------- committing

  predicate HasDomain(l: Load)
    requires l.Load?
  {
    l.box.current.Some? && l.box.current.value < |l.ds|
  }

  /** `commit_param` */
  function CommitParam(l: Load): Load {
    if l.Fault? || l.box.paramCounter == 0 then l
    else if !HasDomain(l) || l.box.pname.None? || l.box.nvalues > |l.box.range| then Fault
    else
      var b := l.box;
      var p := Param(b.pname.value, ToUInt8(b.ptype), b.dflt, Some(b.range[..b.nvalues]));
      l.(ds := AddParam(l.ds, b.current.value, p))
  }

  /** `commit_constraint` */
  function CommitConstraint(l: Load): Load {
    if l.Fault? || l.box.constraintCounter == 0 then l
    else if !HasDomain(l) || l.box.cname.None? || l.box.expr.None? then Fault
    else l.(ds := AddConstraint(l.ds, l.box.current.value, Constraint(l.box.cname.value, l.box.expr.value)))
  }

  // ---------------------------------------------------------------- walking the tree

  function EnterDomain(l: Load, name: string): Load {
    var done := if l.Load? && l.box.inDomain then CommitConstraint(CommitParam(l)) else l;
    if done.Fault? then Fault
    else
      var ds := AddDomain(done.ds, name);
      Load(ds, Cleared(done.box.junk).(inDomain := true, current := IndexOf(DomainNames(ds), name)))
  }

  /** `enter_section` */
  function EnterSection(b: Box, name: string): Box {
    b.(inParam := name == "params", inConstraint := name == "constraints", inExploration := name == "explorations")
  }

  function EnterParam(l: Load, name: string): Load {
    if l.Fault? || !l.box.inParam then l
    else
      var done := CommitParam(l);
      if done.Fault? then Fault
      else done.(box := done.box.(paramCounter := done.box.paramCounter + 1, pname := Some(name)))
  }

  function EnterConstraint(l: Load, name: string): Load {
    if l.Fault? || !l.box.inConstraint then l
    else
      var done := CommitConstraint(l);
      if done.Fault? then Fault
      else done.(box := done.box.(constraintCounter := done.box.constraintCounter + 1, cname := Some(name)))
  }

  /** `enter_subsection` */
  function EnterSubsection(b: Box, name: string): Box {
    b.(inRange := name == "range", inType := name == "type", inDefault := name == "default")
  }

  /** What happens at a name, before its value is processed. */
  function Enter(l: Load, name: string, depth: nat): Load {
    if l.Fault? then Fault
    else if depth == 1 then EnterDomain(l, name)
    else if depth == 2 then l.(box := EnterSection(l.box, name))
    else if depth == 3 then EnterConstraint(EnterParam(l, name), name)
    else if depth == 4 then l.(box := EnterSubsection(l.box, name))
    else l
  }

  /** What an array allocates before its items are processed. */
  function EnterArray(b: Box, n: nat): Box {
    var c := if b.inRange then b.(nvalues := n, range := seq(n, _ => b.junk), cursor := 0) else b;
    if c.inExploration then c.(room := 4 * n, cursor := 0) else c
  }

  /** An integer inside a parameter goes where the flags say. */
  function StoreField(b: Box, i: int): Option<Box> {
    if b.inRange && b.cursor >= |b.range| then None
    else
      var c := if b.inRange then b.(range := b.range[b.cursor := ToInt32(i)], cursor := b.cursor + 1) else b;
      var d := if c.inType then c.(ptype := ToInt8(i)) else c;
      Some(if d.inDefault then d.(dflt := ToInt32(i)) else d)
  }

  /** The case `json_integer`. */
  function StoreInt(l: Load, i: int): Load {
    if l.Fault? || (l.box.inExploration && l.box.cursor >= l.box.room) then Fault
    else
      var b := if l.box.inExploration then l.box.(cursor := l.box.cursor + 1) else l.box;
      if !b.inParam then l.(box := b)
      else match StoreField(b, i) case None => Fault case Some(c) => l.(box := c)
  }

  /** `process_value` */
  function Value(l: Load, v: Json, depth: nat): Load
    decreases v, 0
  {
    if l.Fault? then Fault
    else
      match v
      case JObject(ms) => LeaveObject(LoadMembers(l, ms, |ms|, depth + 1), |ms|, depth + 1)
      case JArray(vs) => LoadItems(l.(box := EnterArray(l.box, |vs|)), vs, |vs|, depth + 1)
      case JInt(i) => StoreInt(l, i)
      case JString(s) => if l.box.inConstraint then l.(box := l.box.(expr := Some(CString(s)))) else l
      case _ => l
  }

  /** The first `k` members of an object. */
  function LoadMembers(l: Load, ms: seq<Member>, k: nat, depth: nat): Load
    requires k <= |ms|
    decreases ms, k
  {
    if k == 0 then l
    else Value(Enter(LoadMembers(l, ms, k - 1, depth), CString(ms[k - 1].name), depth), ms[k - 1].value, depth)
  }

  /** What `process_object` does after the loop. */
  function LeaveObject(l: Load, n: nat, depth: nat): Load {
    if l.Load? && l.box.inDomain && depth == 1 && n > 0 then CommitConstraint(CommitParam(l)) else l
  }

  /** The first `k` items of an array. */
  function LoadItems(l: Load, vs: seq<Json>, k: nat, depth: nat): Load
    requires k <= |vs|
    decreases vs, k
  {
    if k == 0 then l else Value(LoadItems(l, vs, k - 1, depth), vs[k - 1], depth)
  }

  // ---------------------------------------------------------------- writing within what was allocated

  /** Integers one after the other, with no name or array between them. */
  function StoreAll(l: Load, ints: seq<int>): Load {
    if ints == [] then l else StoreInt(StoreAll(l, ints[..|ints| - 1]), ints[|ints| - 1])
  }

  /** There is room for `n` integers more, where integers are stored at all. */
  predicate Fits(b: Box, n: nat) {
    (b.inExploration ==> b.cursor + n <= b.room) && (b.inParam && b.inRange ==> b.cursor + n <= |b.range|)
  }

  /** The integers stand in the range, each cut to 32 bits, after those that were there; nothing else has moved. */
  predicate Stored(l: Load, ints: seq<int>, r: Load)
    requires l.Load?
  {
    var b := l.box;
    && r.Load? && r.ds == l.ds && r.box.room == b.room && |r.box.range| == |b.range|
    && r.box.inParam == b.inParam && r.box.inExploration == b.inExploration && r.box.inRange == b.inRange
    && (b.inExploration || (b.inParam && b.inRange) ==> r.box.cursor == b.cursor + |ints|)
    && (b.inParam && b.inRange ==>
          && b.cursor + |ints| <= |b.range|
          && r.box.range[..b.cursor] == b.range[..b.cursor]
          && forall k :: 0 <= k < |ints| ==> (r.box.range[b.cursor + k] - ints[k]) % 0x1_0000_0000 == 0)
  }

  /** An array of `n` items has room for `n` integers of a range, and for four times as many of explorations. */
  lemma ArrayRoom(b: Box, n: nat, k: nat)
    requires !(b.inParam && b.inExploration)
    ensures b.inParam && b.inRange ==> (Fits(EnterArray(b, n), k) <==> k <= n)
    ensures b.inExploration ==> (Fits(EnterArray(b, n), k) <==> k <= 4 * n)
  {
  }

  lemma OneStored(l: Load, i: int)
    requires l.Load? && !(l.box.inParam && l.box.inExploration)
    ensures StoreInt(l, i).Load? <==> Fits(l.box, 1)
    ensures Fits(l.box, 1) ==> Stored(l, [i], StoreInt(l, i))
  {
    CutTo32(i, ToInt32(i));
    hide ToInt32, ToInt8;
  }

  lemma StoredOnce(l: Load, ints: seq<int>, m: Load, i: int, r: Load)
    requires l.Load? && Stored(l, ints, m) && Stored(m, [i], r)
    ensures Stored(l, ints + [i], r)
  {
    if l.box.inParam && l.box.inRange {
      var n := l.box.cursor + |ints|;
      assert r.box.range[..n] == m.box.range[..n];
      assert forall k :: 0 <= k < n ==> r.box.range[k] == r.box.range[..n][k] == m.box.range[k];
    }
  }

  /** Integers of a range or of explorations stay within the memory allocated for them exactly as long as there is room
      for all of them; other integers are never written outside. */
  lemma {:induction false} IntegersFit(l: Load, ints: seq<int>)
    requires l.Load? && !(l.box.inParam && l.box.inExploration) && ints != []
    ensures StoreAll(l, ints).Load? <==> Fits(l.box, |ints|)
    ensures Fits(l.box, |ints|) ==> Stored(l, ints, StoreAll(l, ints))
    decreases |ints|
  {
    var before, last := ints[..|ints| - 1], ints[|ints| - 1];
    var m := StoreAll(l, before);
    assert ints == before + [last];
    if before == [] {
      OneStored(l, last);
    } else {
      IntegersFit(l, before);
      if m.Load? {
        OneStored(m, last);
        if StoreInt(m, last).Load? { StoredOnce(l, before, m, last, StoreInt(m, last)); }
      }
    }
  }
}
