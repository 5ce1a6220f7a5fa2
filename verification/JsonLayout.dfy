/** The memory a parsed value occupies: the chain of nodes in document order, once as pass 1 measures it and
    once as pass 2 fills it. */
module JsonLayout {
  import opened JsonMachine
  import opened JsonGrammar

  /** The number of nodes of a value. */
  function Size(v: Json): (n: nat)
    ensures n > 0
  {
    match v
    case JArray(vs) => 1 + SizeItems(vs)
    case JObject(ms) => 1 + SizeMembers(ms)
    case _ => 1
  }

  function SizeItems(vs: seq<Json>): nat {
    if vs == [] then 0 else Size(vs[0]) + SizeItems(vs[1..])
  }

  function SizeMembers(ms: seq<Member>): nat {
    if ms == [] then 0 else Size(ms[0].value) + SizeMembers(ms[1..])
  }

  /** The bytes the keys of an object take, each with its terminating zero. */
  function KeyText(ms: seq<Member>): string {
    if ms == [] then "" else ms[0].name + ['\0'] + KeyText(ms[1..])
  }

  // ---------------------------------------------------------------- after pass 1

  /** The nodes of `v` when pass 1 is over: kinds, scalars and measured lengths, but no memory below. */
  function Measured(v: Json, parent: Link, base: nat): (r: seq<Node>)
    ensures |r| == Size(v)
    decreases v, 0
  {
    match v
    case JNull => [Fresh(parent, KNull)]
    case JBool(b) => [Fresh(parent, KBoolean).(scalar := if b then 1 else 0)]
    case JInt(i) => [Fresh(parent, KInteger).(scalar := i)]
    case JDouble => [Fresh(parent, KDouble)]
    case JString(s) => [Fresh(parent, KString).(length := |s|)]
    case JArray(vs) => [Fresh(parent, KArray).(length := |vs|)] + MeasuredItems(vs, At(base), base + 1)
    case JObject(ms) =>
      [Fresh(parent, KObject).(length := |ms|, block := KeyBytes(|KeyText(ms)|))]
      + MeasuredMembers(ms, At(base), base + 1)
  }

  function MeasuredItems(vs: seq<Json>, parent: Link, base: nat): (r: seq<Node>)
    ensures |r| == SizeItems(vs)
    decreases vs, 0
  {
    if vs == [] then []
    else Measured(vs[0], parent, base) + MeasuredItems(vs[1..], parent, base + Size(vs[0]))
  }

  function MeasuredMembers(ms: seq<Member>, parent: Link, base: nat): (r: seq<Node>)
    ensures |r| == SizeMembers(ms)
    decreases ms, 0
  {
    if ms == [] then []
    else Measured(ms[0].value, parent, base) + MeasuredMembers(ms[1..], parent, base + Size(ms[0].value))
  }

  // ---------------------------------------------------------------- after pass 2

  /** The positions of the items of an array whose first item is at `base`. */
  function ItemLinks(vs: seq<Json>, base: nat): (r: seq<Link>)
    ensures |r| == |vs|
  {
    if vs == [] then [] else [At(base)] + ItemLinks(vs[1..], base + Size(vs[0]))
  }

  /** The entries of an object: the first key is at offset `mem` of the key area, the first value at `base`. */
  function MemberEntries(ms: seq<Member>, mem: nat, base: nat): (r: seq<Entry>)
    ensures |r| == |ms|
  {
    if ms == [] then []
    else
      [Entry(mem, |ms[0].name|, At(base))]
      + MemberEntries(ms[1..], mem + |ms[0].name| + 1, base + Size(ms[0].value))
  }

  function LaidArray(vs: seq<Json>, parent: Link, base: nat): Node {
    Fresh(parent, KArray).(length := |vs|, block := if vs == [] then NoBlock else Items(ItemLinks(vs, base + 1)))
  }

  function LaidObject(ms: seq<Member>, parent: Link, base: nat): Node {
    Fresh(parent, KObject).(
      length := |ms|, objectMem := |KeyText(ms)|,
      block := if ms == [] then KeyBytes(0) else Members(MemberEntries(ms, 0, base + 1), KeyText(ms)))
  }

  /** The nodes of `v` when pass 2 is over: every string, key area and container filled in. */
  function Laid(v: Json, parent: Link, base: nat): (r: seq<Node>)
    ensures |r| == Size(v)
    decreases v, 0
  {
    match v
    case JNull => Measured(v, parent, base)
    case JBool(_) => Measured(v, parent, base)
    case JInt(_) => Measured(v, parent, base)
    case JDouble => Measured(v, parent, base)
    case JString(s) => [Fresh(parent, KString).(length := |s|, block := Chars(s + ['\0']))]
    case JArray(vs) => [LaidArray(vs, parent, base)] + LaidItems(vs, At(base), base + 1)
    case JObject(ms) => [LaidObject(ms, parent, base)] + LaidMembers(ms, At(base), base + 1)
  }

  function LaidItems(vs: seq<Json>, parent: Link, base: nat): (r: seq<Node>)
    ensures |r| == SizeItems(vs)
    decreases vs, 0
  {
    if vs == [] then []
    else Laid(vs[0], parent, base) + LaidItems(vs[1..], parent, base + Size(vs[0]))
  }

  function LaidMembers(ms: seq<Member>, parent: Link, base: nat): (r: seq<Node>)
    ensures |r| == SizeMembers(ms)
    decreases ms, 0
  {
    if ms == [] then []
    else Laid(ms[0].value, parent, base) + LaidMembers(ms[1..], parent, base + Size(ms[0].value))
  }
}
