/** What a parse allocates is a linked tree, so freeing its root frees all of it. */
module JsonRelease {
  import opened JsonMachine
  import opened JsonGrammar
  import opened JsonLayout
  import opened JsonTheorems
  import opened JsonFree
  import JsonParser

  /** The tree of the nodes laid out for `v` from `base` on. */
  function TreeOf(v: Json, base: nat): Tree
    decreases v, 0
  {
    match v
    case JArray(vs) => Tree(base, ItemTrees(vs, base + 1))
    case JObject(ms) => Tree(base, MemberTrees(ms, base + 1))
    case _ => Tree(base, [])
  }

  function ItemTrees(vs: seq<Json>, base: nat): (r: seq<Tree>)
    ensures |r| == |vs|
    decreases vs, 0
  {
    if vs == [] then [] else [TreeOf(vs[0], base)] + ItemTrees(vs[1..], base + Size(vs[0]))
  }

  function MemberTrees(ms: seq<Member>, base: nat): (r: seq<Tree>)
    ensures |r| == |ms|
    decreases ms, 0
  {
    if ms == [] then [] else [TreeOf(ms[0].value, base)] + MemberTrees(ms[1..], base + Size(ms[0].value))
  }

  /** The numbers from `a` up to, but not including, `b`. */
  function Interval(a: nat, b: nat): set<nat> {
    if a >= b then {} else Interval(a, b - 1) + {b - 1}
  }

  lemma {:induction false} InInterval(a: nat, b: nat)
    ensures forall i :: i in Interval(a, b) <==> a <= i < b
    ensures a <= b ==> |Interval(a, b)| == b - a
    decreases b
  {
    if a >= b {
    } else {
      InInterval(a, b - 1);
    }
  }

  lemma Join(a: nat, b: nat, c: nat)
    requires a <= b <= c
    ensures Interval(a, b) + Interval(b, c) == Interval(a, c) && Interval(a, b) !! Interval(b, c)
  {
    InInterval(a, b);
    InInterval(b, c);
    InInterval(a, c);
    hide Interval;
  }

  lemma Below(a: nat, b: nat)
    requires a < b
    ensures {a} + Interval(a + 1, b) == Interval(a, b) && a !in Interval(a + 1, b)
  {
    InInterval(a + 1, b);
    InInterval(a, b);
    hide Interval;
  }

  function MemoryOf(nodes: seq<Node>): map<nat, Node> {
    map i | 0 <= i < |nodes| :: nodes[i]
  }

  lemma {:induction false} ItemTreeAt(vs: seq<Json>, base: nat, k: nat)
    requires k < |vs|
    ensures ItemTrees(vs, base)[k] == TreeOf(vs[k], ItemBase(vs, base, k))
    ensures ItemBase(vs, base, k + 1) == ItemBase(vs, base, k) + Size(vs[k])
    decreases |vs|
  {
    hide TreeOf, Size;
    if k == 0 {
    } else {
      ItemTreeAt(vs[1..], base + Size(vs[0]), k - 1);
    }
  }

  lemma {:induction false} MemberTreeAt(ms: seq<Member>, base: nat, k: nat)
    requires k < |ms|
    ensures MemberTrees(ms, base)[k] == TreeOf(ms[k].value, MemberBase(ms, base, k))
    ensures MemberBase(ms, base, k + 1) == MemberBase(ms, base, k) + Size(ms[k].value)
    decreases |ms|
  {
    hide TreeOf, Size;
    if k == 0 {
    } else {
      MemberTreeAt(ms[1..], base + Size(ms[0].value), k - 1);
    }
  }

  lemma {:induction false} ItemsEnd(vs: seq<Json>, base: nat)
    ensures ItemBase(vs, base, |vs|) == base + SizeItems(vs)
    decreases |vs|
  {
    hide Size;
    if vs == [] {
    } else {
      ItemsEnd(vs[1..], base + Size(vs[0]));
    }
  }

  lemma {:induction false} MembersEnd(ms: seq<Member>, base: nat)
    ensures MemberBase(ms, base, |ms|) == base + SizeMembers(ms)
    decreases |ms|
  {
    hide Size;
    if ms == [] {
    } else {
      MembersEnd(ms[1..], base + Size(ms[0].value));
    }
  }

  /** The nodes of a value are distinct, and they are the ones laid out for it. */
  lemma {:induction false} TreeIsDistinct(v: Json, base: nat)
    ensures Distinct(TreeOf(v, base)) && Ids(TreeOf(v, base)) == Interval(base, base + Size(v))
    decreases v, 1
  {
    hide Interval, DistinctKids, IdsOf;
    Below(base, base + Size(v));
    match v {
      case JArray(vs) =>
        ItemsDistinct(vs, base + 1, |vs|);
        ItemsEnd(vs, base + 1);
      case JObject(ms) =>
        MembersDistinct(ms, base + 1, |ms|);
        MembersEnd(ms, base + 1);
      case _ =>
        LeafIsDistinct(base);
    }
  }

  lemma LeafIsDistinct(base: nat)
    ensures Distinct(Tree(base, [])) && Ids(Tree(base, [])) == Interval(base, base + 1)
  {
    assert Ids(Tree(base, [])) == {base} && Interval(base, base + 1) == Interval(base, base) + {base};
  }

  /** One more tree, next to those before it. */
  lemma OneMore(ts: seq<Tree>, k: nat, a: nat, b: nat, c: nat)
    requires k < |ts| && DistinctKids(ts, k) && Distinct(ts[k]) && a <= b <= c
    requires IdsOf(ts, k) == Interval(a, b) && Ids(ts[k]) == Interval(b, c)
    ensures DistinctKids(ts, k + 1) && IdsOf(ts, k + 1) == Interval(a, c)
  {
    hide Interval, Ids, Distinct;
    Join(a, b, c);
  }

  lemma {:induction false} ItemsDistinct(vs: seq<Json>, base: nat, k: nat)
    requires k <= |vs|
    ensures var ts := ItemTrees(vs, base);
            && DistinctKids(ts, k) && base <= ItemBase(vs, base, k)
            && IdsOf(ts, k) == Interval(base, ItemBase(vs, base, k))
    decreases vs, 0, k
  {
    hide TreeOf, ItemTrees, Ids, Distinct, Size;
    if k == 0 {
    } else {
      hide IdsOf, DistinctKids, Interval, ItemBase;
      ItemsDistinct(vs, base, k - 1);
      ItemTreeAt(vs, base, k - 1);
      var b := ItemBase(vs, base, k - 1);
      TreeIsDistinct(vs[k - 1], b);
      OneMore(ItemTrees(vs, base), k - 1, base, b, b + Size(vs[k - 1]));
    }
  }

  lemma {:induction false} MembersDistinct(ms: seq<Member>, base: nat, k: nat)
    requires k <= |ms|
    ensures var ts := MemberTrees(ms, base);
            && DistinctKids(ts, k) && base <= MemberBase(ms, base, k)
            && IdsOf(ts, k) == Interval(base, MemberBase(ms, base, k))
    decreases ms, 0, k
  {
    hide TreeOf, MemberTrees, Ids, Distinct, Size;
    if k == 0 {
    } else {
      hide IdsOf, DistinctKids, Interval, MemberBase;
      MembersDistinct(ms, base, k - 1);
      MemberTreeAt(ms, base, k - 1);
      var b := MemberBase(ms, base, k - 1);
      TreeIsDistinct(ms[k - 1].value, b);
      OneMore(MemberTrees(ms, base), k - 1, base, b, b + Size(ms[k - 1].value));
    }
  }

  /** The first of the nodes laid out for a value is what the root of its tree says. */
  lemma LaidRoot(v: Json, parent: Link, base: nat)
    ensures var l := Laid(v, parent, base); var t := TreeOf(v, base);
            && l != [] && l[0].parent == parent && Sound(l[0]) && t.id == base
            && (if IsContainer(l[0]) then l[0].length == |t.kids| else t.kids == [])
  {
    hide LaidItems, LaidMembers, ItemTrees, MemberTrees, ItemLinks, MemberEntries, KeyText;
  }

  /** The nodes laid out for a value are linked as its tree says. */
  lemma {:induction false} LaidLinked(v: Json, parent: Link, base: nat, nodes: seq<Node>)
    requires Holds(nodes, base, Laid(v, parent, base))
    ensures Linked(MemoryOf(nodes), TreeOf(v, base), parent)
    decreases v, 1
  {
    hide ItemTrees, MemberTrees, ItemLinks, MemberEntries, KeyText, Sound, LaidItems, LaidMembers, Size;
    LaidRoot(v, parent, base);
    assert nodes[base] == nodes[base..base + |Laid(v, parent, base)|][0];
    match v {
      case JArray(vs) =>
        HoldsSplit(nodes, base, [LaidArray(vs, parent, base)], LaidItems(vs, At(base), base + 1));
        hide Laid, Holds;
        ItemsLinked(vs, base, |vs|, nodes);
      case JObject(ms) =>
        HoldsSplit(nodes, base, [LaidObject(ms, parent, base)], LaidMembers(ms, At(base), base + 1));
        hide Laid, Holds;
        MembersLinked(ms, base, |ms|, nodes);
      case _ =>
    }
  }

  lemma {:induction false} ItemsLinked(vs: seq<Json>, base: nat, k: nat, nodes: seq<Node>)
    requires base < |nodes| && k <= |vs|
    requires vs != [] ==> nodes[base].block == Items(ItemLinks(vs, base + 1))
    requires Holds(nodes, base + 1, LaidItems(vs, At(base), base + 1))
    ensures LinkedKids(MemoryOf(nodes), Tree(base, ItemTrees(vs, base + 1)), k)
    decreases vs, 0, k
  {
    hide Laid, Linked, Holds, TreeOf, ItemTrees, ItemBase;
    if k == 0 {
    } else {
      ItemsLinked(vs, base, k - 1, nodes);
      ItemAt(vs, At(base), base + 1, k - 1, nodes);
      ItemTreeAt(vs, base + 1, k - 1);
      TreeRoot(vs[k - 1], ItemBase(vs, base + 1, k - 1));
      LaidLinked(vs[k - 1], At(base), ItemBase(vs, base + 1, k - 1), nodes);
    }
  }

  lemma TreeRoot(v: Json, base: nat)
    ensures TreeOf(v, base).id == base
  {
  }

  lemma {:induction false} MembersLinked(ms: seq<Member>, base: nat, k: nat, nodes: seq<Node>)
    requires base < |nodes| && k <= |ms|
    requires ms != [] ==> nodes[base].block == Members(MemberEntries(ms, 0, base + 1), KeyText(ms))
    requires Holds(nodes, base + 1, LaidMembers(ms, At(base), base + 1))
    ensures LinkedKids(MemoryOf(nodes), Tree(base, MemberTrees(ms, base + 1)), k)
    decreases ms, 0, k
  {
    hide Laid, Linked, Holds, TreeOf, MemberTrees, MemberBase, LaidMembers;
    if k == 0 {
    } else {
      MembersLinked(ms, base, k - 1, nodes);
      MemberAt(ms, At(base), base + 1, k - 1, nodes);
      MemberTreeAt(ms, base + 1, k - 1);
      TreeRoot(ms[k - 1].value, MemberBase(ms, base + 1, k - 1));
      LaidLinked(ms[k - 1].value, At(base), MemberBase(ms, base + 1, k - 1), nodes);
    }
  }

  function BlocksOf(mem: map<nat, Node>): set<nat> {
    set i | i in mem && HasBlock(mem[i])
  }

  /** A set of identifiers that covers the memory takes all of it, and every block with it. */
  lemma CoversMemory(nodes: seq<Node>, ids: set<nat>)
    requires ids == Interval(0, |nodes|)
    ensures MemoryOf(nodes) - ids == map[] && Owners(MemoryOf(nodes), ids) == BlocksOf(MemoryOf(nodes))
  {
    InInterval(0, |nodes|);
    hide Interval, HasBlock;
    assert MemoryOf(nodes).Keys <= ids;
  }

  /** Every number below `n` once. */
  ghost predicate Once(s: seq<nat>, n: nat) {
    NoRepeat(s) && forall i :: i in s <==> 0 <= i < n
  }

  /** Freeing the tree of a parse leaves no node and no block, and frees each node and each block once. */
  lemma AllReleased(v: Json, nodes: seq<Node>)
    requires nodes == Laid(v, Null, 0)
    ensures var t := TreeOf(v, 0); var mem := MemoryOf(nodes);
            && Linked(mem, t, Null) && Distinct(t) && t.id == 0
            && mem - Ids(t) == map[] && Owners(mem, Ids(t)) == BlocksOf(mem)
            && Once(Order(t), Size(v))
            && NoRepeat(Owned(mem, Order(t))) && forall i :: i in Owned(mem, Order(t)) <==> i in BlocksOf(mem)
  {
    hide TreeOf, Linked, Distinct, Ids, Order, Laid, MemoryOf, Owned, Size, Interval, Rounds, NoRepeat, HasBlock;
    var t, mem := TreeOf(v, 0), MemoryOf(nodes);
    assert nodes[0..|nodes|] == nodes;
    LaidLinked(v, Null, 0, nodes);
    TreeIsDistinct(v, 0);
    TreeRoot(v, 0);
    InOrder(t);
    OrderNoRepeat(t);
    InInterval(0, Size(v));
    CoversMemory(nodes, Ids(t));
    OwnedIsExact(mem, Order(t));
    assert forall i :: i in BlocksOf(mem) <==> i in Owners(mem, Ids(t));
  }

  /** Parsing a text and freeing the result: no live node and no live block remains, and every node and every block
      the parse made has been freed exactly once. */
  method ParseAndFree(text: string, junk: char) returns (m: Memory)
    ensures m.mem == map[] && m.blocks == {}
    ensures match ReadDocument(SkipMark(text))
            case Err => m.freed == [] && m.released == []
            case Ok(v, _) =>
              && Once(m.freed, Size(v)) && NoRepeat(m.released)
              && forall i :: i in m.released <==> 0 <= i < |Laid(v, Null, 0)| && HasBlock(Laid(v, Null, 0)[i])
  {
    hide TreeOf, Linked, Distinct, Ids, Order, Laid, Owned, Owners, Size, Interval, NoRepeat, HasBlock, Once;
    var root, nodes := JsonParser.JsonParseEx(text, junk);
    if root.Null? {
      m := new Memory(map[], {});
      return;
    }
    ghost var v := ReadDocument(SkipMark(text)).value;
    AllReleased(v, nodes);
    var mem := MemoryOf(nodes);
    m := new Memory(mem, BlocksOf(mem));
    m.ValueFree(root, TreeOf(v, 0), Null);
    assert m.freed == Order(TreeOf(v, 0)) && m.released == Owned(mem, Order(TreeOf(v, 0)));
  }
}
