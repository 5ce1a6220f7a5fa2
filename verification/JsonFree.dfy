/** `json_value_free_ex` (src/common/json.c): freeing a tree of values without a stack, by counting the lengths of
    its containers down and following parent links. */
module JsonFree {
  import opened JsonMachine

  /** A tree of values in memory: where its root is, and the trees of its children in order. */
  datatype Tree = Tree(id: nat, kids: seq<Tree>)

  function Ids(t: Tree): set<nat>
    decreases t, 0
  {
    {t.id} + IdsOf(t.kids, |t.kids|)
  }

  /** The nodes of the first `k` trees. */
  function IdsOf(ts: seq<Tree>, k: nat): set<nat>
    requires k <= |ts|
    decreases ts, k
  {
    if k == 0 then {} else IdsOf(ts, k - 1) + Ids(ts[k - 1])
  }

  /** No node occurs twice. */
  predicate Distinct(t: Tree)
    decreases t, 0
  {
    t.id !in IdsOf(t.kids, |t.kids|) && DistinctKids(t.kids, |t.kids|)
  }

  predicate DistinctKids(ts: seq<Tree>, k: nat)
    requires k <= |ts|
    decreases ts, k
  {
    k > 0 ==> DistinctKids(ts, k - 1) && Distinct(ts[k - 1]) && IdsOf(ts, k - 1) !! Ids(ts[k - 1])
  }

  /** Child `k` of a container. */
  function Child(n: Node, k: nat): Link {
    match n.block
    case Items(items) => if k < |items| then items[k] else Null
    case Members(entries, _) => if k < |entries| then entries[k].value else Null
    case _ => Null
  }

  predicate IsContainer(n: Node) {
    n.kind == KArray || n.kind == KObject
  }

  /** The node has allocated a string, an array of values, or an array of entries with their keys. */
  predicate HasBlock(n: Node) {
    n.block.Chars? || n.block.Items? || n.block.Members?
  }

  /** Only strings and containers have a block, and the pointer of a node without one is null. */
  predicate Sound(n: Node) {
    && (HasBlock(n) ==> IsContainer(n) || n.kind == KString)
    && (n.block.KeyBytes? ==> n.block.count == 0)
  }

  /** The node is what the tree says: its parent, its length, and its children, each with itself as parent. */
  predicate Linked(mem: map<nat, Node>, t: Tree, parent: Link)
    decreases t, 0
  {
    && t.id in mem && mem[t.id].parent == parent && Sound(mem[t.id])
    && (if IsContainer(mem[t.id]) then mem[t.id].length == |t.kids| else t.kids == [])
    && LinkedKids(mem, t, |t.kids|)
  }

  /** The first `k` children are linked to the root. */
  predicate LinkedKids(mem: map<nat, Node>, t: Tree, k: nat)
    requires k <= |t.kids| && t.id in mem
    decreases t.kids, k
  {
    k > 0 ==>
      && LinkedKids(mem, t, k - 1) && Child(mem[t.id], k - 1) == At(t.kids[k - 1].id)
      && Linked(mem, t.kids[k - 1], At(t.id))
  }

  // ---------------------------------------------------------------- the loop

  /** `blocks` are the nodes whose string, key area or array has been allocated and not freed; `freed` and `released`
      are the nodes and the blocks freed so far. */
  datatype Heap = Heap(mem: map<nat, Node>, blocks: set<nat>, freed: seq<nat>, released: seq<nat>, value: Link)

  /** One round: down to the last child, or free this node and go back to its parent.  `Lost` is an access to memory
      that has been freed, a block freed twice, or the freeing of a pointer that was never allocated. */
  function Round(h: Heap): Result {
    if h.value.Null? || h.value.i !in h.mem then Lost
    else
      var v := h.value.i;
      var n := h.mem[v];
      if IsContainer(n) && n.length > 0 then
        if v in h.blocks
        then Kept(h.(mem := h.mem[v := n.(length := n.length - 1)], value := Child(n, n.length - 1)))
        else Lost
      else if !(IsContainer(n) || n.kind == KString) || NullBlock(n) then
        Kept(h.(mem := h.mem - {v}, freed := h.freed + [v], value := n.parent))
      else if HasBlock(n) && v in h.blocks then
        Kept(Heap(h.mem - {v}, h.blocks - {v}, h.freed + [v], h.released + [v], n.parent))
      else Lost
  }

  predicate NullBlock(n: Node) {
    n.block.NoBlock? || n.block == KeyBytes(0)
  }

  datatype Result = Lost | Kept(h: Heap)

  /** A round that is not lost has read a live node and, of a container with children, a live block; and what it frees
      was live, and is so no more. */
  lemma LiveOnly(h: Heap)
    requires Round(h).Kept?
    ensures h.value.At? && h.value.i in h.mem
    ensures var v, n, h' := h.value.i, h.mem[h.value.i], Round(h).h;
            if IsContainer(n) && n.length > 0
            then v in h.blocks && h'.freed == h.freed && h'.released == h.released && h'.blocks == h.blocks
            else
              && h'.freed == h.freed + [v] && v !in h'.mem
              && (h'.released == h.released || (h'.released == h.released + [v] && HasBlock(n) && v in h.blocks))
              && (IsContainer(n) || n.kind == KString ==> v in h'.blocks ==> NullBlock(n))
  {
  }

  /** The loop, with at most `fuel` rounds. */
  function Free(h: Heap, fuel: nat): Result
    decreases fuel
  {
    if h.value.Null? then Kept(h)
    else if fuel == 0 then Lost
    else match Round(h) case Lost => Lost case Kept(h') => Free(h', fuel - 1)
  }

  // ---------------------------------------------------------------- the order of freeing

  /** Children from the last to the first, each with everything below it, then the node itself. */
  function Order(t: Tree): seq<nat>
    decreases t, 0
  {
    OrderOf(t.kids, |t.kids|) + [t.id]
  }

  function OrderOf(ts: seq<Tree>, k: nat): seq<nat>
    requires k <= |ts|
    decreases ts, k
  {
    if k == 0 then [] else Order(ts[k - 1]) + OrderOf(ts, k - 1)
  }

  /** The rounds spent on a tree. */
  function Rounds(t: Tree): nat
    decreases t, 0
  {
    RoundsOf(t.kids, |t.kids|) + 1
  }

  function RoundsOf(ts: seq<Tree>, k: nat): nat
    requires k <= |ts|
    decreases ts, k
  {
    if k == 0 then 0 else 1 + Rounds(ts[k - 1]) + RoundsOf(ts, k - 1)
  }

  /** Every node is freed exactly once: the order has no repetition and its elements are the nodes. */
  lemma {:induction false} OrderIsExact(t: Tree)
    requires Distinct(t)
    ensures (set x | x in Order(t)) == Ids(t) && |Order(t)| == |Ids(t)|
    ensures Rounds(t) == 2 * |Ids(t)| - 1
    decreases t, 0
  {
    OrderOfIsExact(t.kids, |t.kids|);
    assert Order(t) == OrderOf(t.kids, |t.kids|) + [t.id];
  }

  lemma {:induction false} OrderOfIsExact(ts: seq<Tree>, k: nat)
    requires k <= |ts| && DistinctKids(ts, k)
    ensures (set x | x in OrderOf(ts, k)) == IdsOf(ts, k) && |OrderOf(ts, k)| == |IdsOf(ts, k)|
    ensures RoundsOf(ts, k) == 2 * |IdsOf(ts, k)|
    decreases ts, k
  {
    if k == 0 {
    } else {
      OrderIsExact(ts[k - 1]);
      OrderOfIsExact(ts, k - 1);
      assert |IdsOf(ts, k - 1) + Ids(ts[k - 1])| == |IdsOf(ts, k - 1)| + |Ids(ts[k - 1])|;
    }
  }

  predicate NoRepeat(s: seq<nat>) {
    forall i, j :: 0 <= i < j < |s| ==> s[i] != s[j]
  }

  lemma {:induction false} InOrder(t: Tree)
    ensures forall x :: x in Order(t) <==> x in Ids(t)
    decreases t, 0
  {
    InOrderOf(t.kids, |t.kids|);
  }

  lemma {:induction false} InOrderOf(ts: seq<Tree>, k: nat)
    requires k <= |ts|
    ensures forall x :: x in OrderOf(ts, k) <==> x in IdsOf(ts, k)
    decreases ts, k
  {
    if k == 0 {
    } else {
      hide Order, Ids;
      InOrderOf(ts, k - 1);
      InOrder(ts[k - 1]);
    }
  }

  lemma JoinNoRepeat(x: seq<nat>, y: seq<nat>)
    requires NoRepeat(x) && NoRepeat(y) && forall i <- x :: i !in y
    ensures NoRepeat(x + y)
  {
    forall i, j | 0 <= i < j < |x + y| ensures (x + y)[i] != (x + y)[j] {
      if i < |x| <= j {
        assert x[i] in x && y[j - |x|] in y;
      }
    }
  }

  lemma {:induction false} OrderNoRepeat(t: Tree)
    requires Distinct(t)
    ensures NoRepeat(Order(t))
    decreases t, 0
  {
    OrderOfNoRepeat(t.kids, |t.kids|);
    InOrderOf(t.kids, |t.kids|);
    JoinNoRepeat(OrderOf(t.kids, |t.kids|), [t.id]);
  }

  lemma {:induction false} OrderOfNoRepeat(ts: seq<Tree>, k: nat)
    requires k <= |ts| && DistinctKids(ts, k)
    ensures NoRepeat(OrderOf(ts, k))
    decreases ts, k
  {
    if k == 0 {
    } else {
      OrderNoRepeat(ts[k - 1]);
      OrderOfNoRepeat(ts, k - 1);
      InOrder(ts[k - 1]);
      InOrderOf(ts, k - 1);
      hide NoRepeat, Order, Ids, Distinct;
      JoinNoRepeat(Order(ts[k - 1]), OrderOf(ts, k - 1));
    }
  }

  /** `u` is `t` or one of the trees in it. */
  predicate Within(u: Tree, t: Tree)
    decreases t, 0
  {
    u == t || WithinKids(u, t.kids, |t.kids|)
  }

  predicate WithinKids(u: Tree, ts: seq<Tree>, k: nat)
    requires k <= |ts|
    decreases ts, k
  {
    k > 0 && (Within(u, ts[k - 1]) || WithinKids(u, ts, k - 1))
  }

  /** The order of a tree inside `t` is one stretch of the order of `t`. */
  lemma {:induction false} Stretch(u: Tree, t: Tree) returns (at: nat)
    requires Within(u, t)
    ensures at + |Order(u)| <= |Order(t)| && Order(t)[at..at + |Order(u)|] == Order(u)
    ensures u != t ==> at + |Order(u)| < |Order(t)|
    decreases t, 0
  {
    if u == t {
      at := 0;
    } else {
      at := StretchOfKids(u, t.kids, |t.kids|);
      assert Order(t)[..|Order(t)| - 1] == OrderOf(t.kids, |t.kids|);
    }
  }

  lemma {:induction false} StretchOfKids(u: Tree, ts: seq<Tree>, k: nat) returns (at: nat)
    requires k <= |ts| && WithinKids(u, ts, k)
    ensures at + |Order(u)| <= |OrderOf(ts, k)| && OrderOf(ts, k)[at..at + |Order(u)|] == Order(u)
    decreases ts, k
  {
    hide Order;
    if Within(u, ts[k - 1]) {
      at := Stretch(u, ts[k - 1]);
    } else {
      var i := StretchOfKids(u, ts, k - 1);
      at := |Order(ts[k - 1])| + i;
    }
  }

  /** For every node of the tree, everything below it is freed before it. */
  lemma ChildrenFirst(u: Tree, t: Tree, i: nat, j: nat)
    requires Within(u, t) && Distinct(t)
    requires i < |Order(t)| && Order(t)[i] in IdsOf(u.kids, |u.kids|)
    requires j < |Order(t)| && Order(t)[j] == u.id
    ensures i < j
  {
    var at := Stretch(u, t);
    OrderNoRepeat(t);
    InOrderOf(u.kids, |u.kids|);
    hide Distinct, Within, IdsOf;
    var o := OrderOf(u.kids, |u.kids|);
    assert Order(u) == o + [u.id];
    assert Order(t)[at + |o|] == u.id;
    var k :| 0 <= k < |o| && o[k] == Order(t)[i];
    assert Order(t)[at + k] == Order(t)[at..at + |Order(u)|][k];
  }

  // ---------------------------------------------------------------- freeing a tree

  /** A tree stays linked when only other nodes change or go. */
  lemma {:induction false} LinkedElsewhere(mem: map<nat, Node>, mem': map<nat, Node>, t: Tree, parent: Link)
    requires Linked(mem, t, parent)
    requires forall x <- Ids(t) :: x in mem ==> x in mem' && mem'[x] == mem[x]
    ensures Linked(mem', t, parent)
    decreases t, 0
  {
    assert t.id in Ids(t);
    KidsElsewhere(mem, mem', t, |t.kids|);
  }

  lemma {:induction false} KidsElsewhere(mem: map<nat, Node>, mem': map<nat, Node>, t: Tree, k: nat)
    requires k <= |t.kids| && t.id in mem && LinkedKids(mem, t, k)
    requires t.id in mem' && mem'[t.id].block == mem[t.id].block
    requires forall x <- IdsOf(t.kids, k) :: x in mem ==> x in mem' && mem'[x] == mem[x]
    ensures LinkedKids(mem', t, k)
    decreases t.kids, k
  {
    if k == 0 {
    } else {
      KidsElsewhere(mem, mem', t, k - 1);
      LinkedElsewhere(mem, mem', t.kids[k - 1], At(t.id));
    }
  }

  function Owners(mem: map<nat, Node>, ids: set<nat>): set<nat> {
    set x | x in ids && x in mem && HasBlock(mem[x])
  }

  /** The nodes of `order` that have a block, in that order. */
  function Owned(mem: map<nat, Node>, order: seq<nat>): seq<nat> {
    if order == [] then [] else Own(mem, order[0]) + Owned(mem, order[1..])
  }

  function Own(mem: map<nat, Node>, v: nat): seq<nat> {
    if v in mem && HasBlock(mem[v]) then [v] else []
  }

  /** Freed in an order without repetition, every block is freed exactly once. */
  lemma {:induction false} OwnedIsExact(mem: map<nat, Node>, order: seq<nat>)
    requires NoRepeat(order)
    ensures NoRepeat(Owned(mem, order))
    ensures forall x :: x in Owned(mem, order) <==> x in order && x in mem && HasBlock(mem[x])
  {
    if order == [] {
    } else {
      OwnedIsExact(mem, order[1..]);
      assert forall x :: x in order <==> x == order[0] || x in order[1..];
      assert order[0] !in order[1..];
      hide HasBlock;
    }
  }

  lemma {:induction false} OwnedSame(mem: map<nat, Node>, mem': map<nat, Node>, order: seq<nat>)
    requires forall i <- order :: (i in mem <==> i in mem') && (i in mem ==> HasBlock(mem[i]) == HasBlock(mem'[i]))
    ensures Owned(mem, order) == Owned(mem', order)
  {
    hide HasBlock;
    if order == [] {
    } else {
      OwnedSame(mem, mem', order[1..]);
    }
  }

  lemma {:induction false} OwnedJoined(mem: map<nat, Node>, x: seq<nat>, y: seq<nat>)
    ensures Owned(mem, x + y) == Owned(mem, x) + Owned(mem, y)
    decreases |x|
  {
    hide Own;
    if x == [] {
      assert [] + y == y;
    } else {
      OwnedJoined(mem, x[1..], y);
      assert (x + y)[1..] == x[1..] + y;
    }
  }

  /** The heap after the nodes `ids` have been freed in the order given. */
  function Gone(h: Heap, ids: set<nat>, order: seq<nat>, value: Link): Heap {
    Heap(h.mem - ids, h.blocks - Owners(h.mem, ids), h.freed + order, h.released + Owned(h.mem, order), value)
  }

  lemma GoneFields(h: Heap, ids: set<nat>, order: seq<nat>, value: Link)
    ensures var g := Gone(h, ids, order, value);
            && g.mem == h.mem - ids && g.blocks == h.blocks - Owners(h.mem, ids) && g.value == value
            && g.freed == h.freed + order && g.released == h.released + Owned(h.mem, order)
  {
  }

  lemma OneRound(h: Heap, h1: Heap, fuel: nat)
    requires h.value.At? && Round(h) == Kept(h1) && fuel > 0
    ensures Free(h, fuel) == Free(h1, fuel - 1)
  {
  }

  lemma GoneTwice(h: Heap, h1: Heap, v: nat, a: set<nat>, b: set<nat>, x: seq<nat>, y: seq<nat>, l: Link, l1: Link)
    requires v in b && v in h.mem && v !in a && a !! b
    requires h1.blocks == h.blocks && h1.freed == h.freed && h1.released == h.released
    requires h1.mem.Keys == h.mem.Keys && forall i <- y :: i in b
    requires forall i <- h.mem :: (i != v ==> h1.mem[i] == h.mem[i]) && HasBlock(h1.mem[i]) == HasBlock(h.mem[i])
    ensures Gone(Gone(h1, a, x, l1), b, y, l) == Gone(h, a + b, x + y, l)
  {
    hide HasBlock;
    var m := h1.mem - a;
    assert m - b == h.mem - (a + b);
    assert Owners(h.mem, a + b) == Owners(h1.mem, a) + Owners(m, b);
    hide Owners;
    hide Owned;
    OwnedJoined(h.mem, x, y);
    OwnedSame(h.mem, h1.mem, x);
    OwnedSame(h.mem, m, y);
    assert h.released + Owned(h.mem, x) + Owned(m, y) == h.released + (Owned(h.mem, x) + Owned(m, y));
    assert h.freed + x + y == h.freed + (x + y);
    assert h.blocks - Owners(h1.mem, a) - Owners(m, b) == h.blocks - (Owners(h1.mem, a) + Owners(m, b));
  }

  /** The loop, started at the root of a linked tree whose blocks are live, frees the tree in order and leaves nothing
      else changed. */
  lemma {:induction false} FreesTree(h: Heap, t: Tree, parent: Link, fuel: nat)
    requires Linked(h.mem, t, parent) && Distinct(t) && h.value == At(t.id) && Rounds(t) <= fuel
    requires Owners(h.mem, Ids(t)) <= h.blocks
    ensures Free(h, fuel) == Free(Gone(h, Ids(t), Order(t), parent), fuel - Rounds(t))
    decreases t, 1
  {
    if IsContainer(h.mem[t.id]) {
      assert IdsOf(t.kids, |t.kids|) + {t.id} == Ids(t);
      FreesKids(h, t, parent, |t.kids|, fuel);
    } else {
      assert Ids(t) == {t.id} && Order(t) == [t.id];
      FreesOne(h, t.id, fuel);
      assert RoundsOf(t.kids, 0) == 0;
    }
  }

  /** A node without children, or whose children are gone. */
  lemma FreesOne(h: Heap, v: nat, fuel: nat)
    requires v in h.mem && h.value == At(v) && Sound(h.mem[v]) && fuel > 0
    requires IsContainer(h.mem[v]) ==> h.mem[v].length == 0
    requires HasBlock(h.mem[v]) ==> v in h.blocks
    ensures Free(h, fuel) == Free(Gone(h, {v}, [v], h.mem[v].parent), fuel - 1)
  {
    assert Owners(h.mem, {v}) == if HasBlock(h.mem[v]) then {v} else {};
    assert Owned(h.mem, [v]) == if HasBlock(h.mem[v]) then [v] else [];
    assert h.blocks - {} == h.blocks;
    assert Round(h) == Kept(Gone(h, {v}, [v], h.mem[v].parent));
  }

  /** Counting the length down leaves the last child linked, and freeing that child leaves the others linked. */
  lemma DownToKid(mem: map<nat, Node>, mem1: map<nat, Node>, t: Tree, k: nat)
    requires 0 < k <= |t.kids| && t.id in mem && t.id !in IdsOf(t.kids, k)
    requires LinkedKids(mem, t, k) && DistinctKids(t.kids, k)
    requires mem1 == mem[t.id := mem[t.id].(length := k - 1)]
    ensures Linked(mem1, t.kids[k - 1], At(t.id)) && Child(mem[t.id], k - 1) == At(t.kids[k - 1].id)
    ensures var mem2 := mem1 - Ids(t.kids[k - 1]);
            t.id in mem2 && mem2[t.id] == mem1[t.id] && LinkedKids(mem2, t, k - 1)
  {
    LinkedElsewhere(mem, mem1, t.kids[k - 1], At(t.id));
    KidsElsewhere(mem, mem1 - Ids(t.kids[k - 1]), t, k - 1);
  }

  /** The blocks of the remaining nodes are live after others have been freed. */
  lemma StillLive(h: Heap, h1: Heap, v: nat, a: set<nat>, b: set<nat>)
    requires v in h.mem && v !in a && a !! b
    requires v in h1.mem && h1.mem == h.mem[v := h1.mem[v]] && HasBlock(h1.mem[v]) == HasBlock(h.mem[v])
    requires Owners(h.mem, a + b) <= h.blocks && h1.blocks == h.blocks
    ensures Owners(h1.mem, a) <= h1.blocks
    ensures Owners(h1.mem - a, b) <= h1.blocks - Owners(h1.mem, a)
  {
    forall x | x in Owners(h1.mem, a) || x in Owners(h1.mem - a, b) ensures x in Owners(h.mem, a + b) {
    }
  }

  lemma OrderWithin(ts: seq<Tree>, k: nat, v: nat)
    requires k <= |ts| && DistinctKids(ts, k)
    ensures forall i <- OrderOf(ts, k) + [v] :: i in IdsOf(ts, k) + {v}
  {
    OrderOfIsExact(ts, k);
    forall i | i in OrderOf(ts, k) + [v] && i != v ensures i in IdsOf(ts, k) {
      assert i in set x | x in OrderOf(ts, k);
    }
  }

  function DownOne(h: Heap, v: nat, kid: nat): Heap
    requires v in h.mem && h.mem[v].length > 0
  {
    h.(mem := h.mem[v := h.mem[v].(length := h.mem[v].length - 1)], value := At(kid))
  }

  /** Freeing the last child and then the rest is freeing all of them. */
  lemma LastKidFirst(h: Heap, t: Tree, k: nat, parent: Link)
    requires 0 < k <= |t.kids| && t.id in h.mem && h.mem[t.id].length > 0
    requires DistinctKids(t.kids, k) && t.id !in IdsOf(t.kids, k)
    ensures var kid := t.kids[k - 1];
            var h2 := Gone(DownOne(h, t.id, kid.id), Ids(kid), Order(kid), At(t.id));
            && Gone(h2, IdsOf(t.kids, k - 1) + {t.id}, OrderOf(t.kids, k - 1) + [t.id], parent)
            == Gone(h, IdsOf(t.kids, k) + {t.id}, OrderOf(t.kids, k) + [t.id], parent)
  {
    var v, kid := t.id, t.kids[k - 1];
    var h1 := DownOne(h, v, kid.id);
    var b, y := IdsOf(t.kids, k - 1) + {v}, OrderOf(t.kids, k - 1) + [v];
    OrderWithin(t.kids, k - 1, v);
    assert Ids(kid) + b == IdsOf(t.kids, k) + {v};
    assert Order(kid) + y == OrderOf(t.kids, k) + [v];
    assert HasBlock(h1.mem[v]) == HasBlock(h.mem[v]);
    hide HasBlock, Gone, Order, Distinct;
    GoneTwice(h, h1, v, Ids(kid), b, Order(kid), y, parent, At(v));
  }

  /** The round that goes down to the last child, and what holds after that child has been freed. */
  lemma LastKid(h: Heap, t: Tree, k: nat)
    requires 0 < k <= |t.kids| && t.id in h.mem && h.value == At(t.id)
    requires var n := h.mem[t.id]; IsContainer(n) && n.length == k && Sound(n)
    requires LinkedKids(h.mem, t, k) && DistinctKids(t.kids, k) && t.id !in IdsOf(t.kids, k)
    requires Owners(h.mem, IdsOf(t.kids, k) + {t.id}) <= h.blocks
    ensures var kid := t.kids[k - 1]; var h1 := DownOne(h, t.id, kid.id);
            var h2 := Gone(h1, Ids(kid), Order(kid), At(t.id));
            && Round(h) == Kept(h1) && Linked(h1.mem, kid, At(t.id))
            && h2.value == At(t.id) && t.id in h2.mem && h2.mem[t.id] == h1.mem[t.id] && Sound(h1.mem[t.id])
            && LinkedKids(h2.mem, t, k - 1)
            && Owners(h1.mem, Ids(kid)) <= h1.blocks && Owners(h2.mem, IdsOf(t.kids, k - 1) + {t.id}) <= h2.blocks
  {
    var kid := t.kids[k - 1];
    var h1 := DownOne(h, t.id, kid.id);
    assert HasBlock(h.mem[t.id]) ==> t.id in Owners(h.mem, IdsOf(t.kids, k) + {t.id});
    assert Round(h) == Kept(h1);
    DownToKid(h.mem, h1.mem, t, k);
    hide LinkedKids, Linked, Owners, Round;
    var b := IdsOf(t.kids, k - 1) + {t.id};
    assert Ids(kid) + b == IdsOf(t.kids, k) + {t.id};
    StillLive(h, h1, t.id, Ids(kid), b);
  }

  lemma KidsBefore(t: Tree, k: nat)
    requires 0 < k <= |t.kids| && DistinctKids(t.kids, k) && t.id !in IdsOf(t.kids, k)
    ensures DistinctKids(t.kids, k - 1) && Distinct(t.kids[k - 1]) && t.id !in IdsOf(t.kids, k - 1)
  {
  }

  lemma FreesEmpty(h: Heap, t: Tree, fuel: nat)
    requires t.id in h.mem && h.value == At(t.id) && Sound(h.mem[t.id]) && fuel > 0
    requires IsContainer(h.mem[t.id]) ==> h.mem[t.id].length == 0
    requires Owners(h.mem, IdsOf(t.kids, 0) + {t.id}) <= h.blocks
    ensures Free(h, fuel)
         == Free(Gone(h, IdsOf(t.kids, 0) + {t.id}, OrderOf(t.kids, 0) + [t.id], h.mem[t.id].parent), fuel - 1)
  {
    var v := t.id;
    assert IdsOf(t.kids, 0) + {v} == {v} && OrderOf(t.kids, 0) + [v] == [v];
    assert HasBlock(h.mem[v]) ==> v in Owners(h.mem, {v});
    FreesOne(h, v, fuel);
  }

  /** The container has counted its length down to `k`; the children from `k` on are gone. */
  lemma {:induction false} FreesKids(h: Heap, t: Tree, parent: Link, k: nat, fuel: nat)
    requires k <= |t.kids| && t.id in h.mem && h.value == At(t.id)
    requires var n := h.mem[t.id]; IsContainer(n) && n.length == k && n.parent == parent && Sound(n)
    requires LinkedKids(h.mem, t, k) && DistinctKids(t.kids, k) && t.id !in IdsOf(t.kids, k)
    requires Owners(h.mem, IdsOf(t.kids, k) + {t.id}) <= h.blocks
    requires RoundsOf(t.kids, k) + 1 <= fuel
    ensures Free(h, fuel)
         == Free(Gone(h, IdsOf(t.kids, k) + {t.id}, OrderOf(t.kids, k) + [t.id], parent),
                 fuel - RoundsOf(t.kids, k) - 1)
    decreases t, 0, k
  {
    hide LinkedKids, Linked, Owners, Round, Gone, Free, HasBlock, Distinct, Ids, IdsOf, Order, OrderOf, Rounds, Sound;
    if k == 0 {
      FreesEmpty(h, t, fuel);
    } else {
      var kid := t.kids[k - 1];
      var h1 := DownOne(h, t.id, kid.id);
      LastKid(h, t, k);
      OneRound(h, h1, fuel);
      FreesTree(h1, kid, At(t.id), fuel - 1);
      KidsBefore(t, k);
      FreesKids(Gone(h1, Ids(kid), Order(kid), At(t.id)), t, parent, k - 1, fuel - 1 - Rounds(kid));
      LastKidFirst(h, t, k, parent);
    }
  }

  // ---------------------------------------------------------------- the function itself

  /** The allocator's view of the values of a parse. */
  class Memory {
    var mem: map<nat, Node>      // the live nodes
    var blocks: set<nat>         // the nodes whose block is live
    var freed: seq<nat>          // the nodes freed so far
    var released: seq<nat>       // the nodes whose block has been freed so far

    constructor (mem: map<nat, Node>, blocks: set<nat>)
      ensures this.mem == mem && this.blocks == blocks && freed == [] && released == []
    {
      this.mem, this.blocks, this.freed, this.released := mem, blocks, [], [];
    }

    /** `mem_free (value, ...)` */
    method FreeNode(v: nat)
      requires v in mem
      modifies this`mem, this`freed
      ensures mem == old(mem) - {v} && freed == old(freed) + [v]
    {
      mem := mem - {v};
      freed := freed + [v];
    }

    /** `mem_free (value->u....)` of a pointer that is null or whose block is live. */
    method FreeBlock(v: nat)
      requires v in mem && (NullBlock(mem[v]) || (HasBlock(mem[v]) && v in blocks))
      modifies this`blocks, this`released
      ensures if NullBlock(mem[v]) then blocks == old(blocks) && released == old(released)
              else blocks == old(blocks) - {v} && released == old(released) + [v]
    {
      if NullBlock(mem[v]) { return; }
      blocks := blocks - {v};
      released := released + [v];
    }

    /** `value->u.array.values [-- value->u.array.length]`, and the same for objects, in a block that is live. */
    method LastChild(v: nat) returns (child: Link)
      requires v in mem && IsContainer(mem[v]) && mem[v].length > 0 && v in blocks
      modifies this`mem
      ensures var n := old(mem)[v]; mem == old(mem)[v := n.(length := n.length - 1)] && child == Child(n, n.length - 1)
    {
      var n := mem[v].(length := mem[v].length - 1);
      mem := mem[v := n];
      child := Child(n, n.length);
    }

    /** `json_value_free_ex`: the nodes of the tree at `root` are freed in the order of the tree, each with its block,
        no node and no block is touched after it has been freed, and nothing else changes. */
    method ValueFree(root: Link, ghost t: Tree, ghost parent: Link)
      requires root.At? ==>
                 root.i == t.id && Linked(mem, t, parent) && Distinct(t) && Owners(mem, Ids(t)) <= blocks
      modifies this
      ensures root.Null? ==>
                && mem == old(mem) && blocks == old(blocks) && freed == old(freed) && released == old(released)
      ensures root.At? ==>
                && mem == old(mem) - Ids(t) && freed == old(freed) + Order(t)
                && blocks == old(blocks) - Owners(old(mem), Ids(t))
                && released == old(released) + Owned(old(mem), Order(t))
    {
      if root.Null? { return; }
      ghost var start := mem;
      mem := mem[root.i := mem[root.i].(parent := Null)];
      RootDetached(start, mem, t, parent);
      ghost var h := Heap(mem, blocks, freed, released, root);
      GoneDetached(h, start, t);
      hide Linked, Gone, Distinct, Ids, Order, Rounds, Owners, Owned;
      ghost var fuel := Rounds(t);
      FreesTree(h, t, Null, fuel);
      GoneFields(h, Ids(t), Order(t), Null);
      var value := root;
      while value.At?
        invariant Free(Heap(mem, blocks, freed, released, value), fuel) == Kept(Gone(h, Ids(t), Order(t), Null))
        decreases fuel
      {
        var v := value.i;
        fuel := fuel - 1;
        if IsContainer(mem[v]) && mem[v].length != 0 {
          value := LastChild(v);
          continue;
        }
        if IsContainer(mem[v]) || mem[v].kind == KString { FreeBlock(v); }
        value := mem[v].parent;
        FreeNode(v);
      }
    }
  }

  lemma RootDetached(mem: map<nat, Node>, mem': map<nat, Node>, t: Tree, parent: Link)
    requires Linked(mem, t, parent) && Distinct(t) && mem' == mem[t.id := mem[t.id].(parent := Null)]
    ensures Linked(mem', t, Null)
  {
    KidsElsewhere(mem, mem', t, |t.kids|);
  }

  lemma GoneDetached(h: Heap, start: map<nat, Node>, t: Tree)
    requires t.id in start && h.mem == start[t.id := start[t.id].(parent := Null)]
    ensures h.mem - Ids(t) == start - Ids(t) && Owners(h.mem, Ids(t)) == Owners(start, Ids(t))
    ensures Owned(h.mem, Order(t)) == Owned(start, Order(t))
  {
    assert t.id in Ids(t);
    OwnedSame(h.mem, start, Order(t));
  }
}
