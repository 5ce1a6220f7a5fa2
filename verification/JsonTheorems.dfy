/** What the two passes of `json_parse_ex` achieve together. */
module JsonTheorems {
  import opened JsonMachine
  import opened JsonGrammar
  import opened JsonLayout
  import JsonPass1
  import JsonPass2

  /** The flag machine refines the recursive reader on every text: no crash, no endless loop, the same texts
      rejected, and on acceptance the nodes of exactly the reader's value. */
  lemma TwoPassesCorrect(text: string, junk: char)
    ensures TwoPasses(text, junk) == match ReadDocument(text)
                                     case Err => Rejected
                                     case Ok(v, _) => Accepted(At(0), Laid(v, Null, 0))
  {
    hide Run, ReadDocument, Measured, Laid;
    JsonPass1.Pass1(text, junk);
    match ReadDocument(text) {
      case Err =>
      case Ok(v, q) => JsonPass2.Pass2(text, junk, v, q);
    }
  }

  // ---------------------------------------------------------------- measured and filled

  /** `f` is the node `m` after pass 2, its memory of exactly the measured size and completely used. */
  predicate Filled(m: Node, f: Node) {
    && f.kind == m.kind && f.parent == m.parent && f.scalar == m.scalar && f.length == m.length
    && match m.kind
       case KString => f.block.Chars? && |f.block.chars| == m.length + 1 && f.block.chars[m.length] == '\0'
       case KArray => if m.length == 0 then f == m else f.block.Items? && |f.block.items| == m.length
       case KObject =>
         m.block.KeyBytes?
         && if m.length == 0 then f == m
            else f.block.Members? && |f.block.entries| == m.length && |f.block.keys| == m.block.count == f.objectMem
       case _ => f == m
  }

  predicate AllFilled(ms: seq<Node>, fs: seq<Node>) {
    |ms| == |fs| && forall i :: 0 <= i < |ms| ==> Filled(ms[i], fs[i])
  }

  lemma FilledTogether(a: seq<Node>, b: seq<Node>, a': seq<Node>, b': seq<Node>)
    requires AllFilled(a, a') && AllFilled(b, b')
    ensures AllFilled(a + b, a' + b')
  {
    hide Filled;
  }

  lemma {:induction false} LaidFills(v: Json, parent: Link, base: nat)
    ensures AllFilled(Measured(v, parent, base), Laid(v, parent, base))
    decreases v, 0
  {
    match v {
      case JArray(vs) =>
        LaidItemsFill(vs, At(base), base + 1);
        FilledTogether(Measured(v, parent, base)[..1], MeasuredItems(vs, At(base), base + 1),
                       [LaidArray(vs, parent, base)], LaidItems(vs, At(base), base + 1));
      case JObject(ms) =>
        LaidMembersFill(ms, At(base), base + 1);
        FilledTogether(Measured(v, parent, base)[..1], MeasuredMembers(ms, At(base), base + 1),
                       [LaidObject(ms, parent, base)], LaidMembers(ms, At(base), base + 1));
      case _ =>
    }
  }

  lemma {:induction false} LaidItemsFill(vs: seq<Json>, parent: Link, base: nat)
    ensures AllFilled(MeasuredItems(vs, parent, base), LaidItems(vs, parent, base))
    decreases vs, 0
  {
    if vs == [] {
    } else {
      LaidFills(vs[0], parent, base);
      LaidItemsFill(vs[1..], parent, base + Size(vs[0]));
      hide AllFilled, Measured, Laid;
      FilledTogether(Measured(vs[0], parent, base), MeasuredItems(vs[1..], parent, base + Size(vs[0])),
                     Laid(vs[0], parent, base), LaidItems(vs[1..], parent, base + Size(vs[0])));
    }
  }

  lemma {:induction false} LaidMembersFill(ms: seq<Member>, parent: Link, base: nat)
    ensures AllFilled(MeasuredMembers(ms, parent, base), LaidMembers(ms, parent, base))
    decreases ms, 0
  {
    if ms == [] {
    } else {
      LaidFills(ms[0].value, parent, base);
      LaidMembersFill(ms[1..], parent, base + Size(ms[0].value));
      hide AllFilled, Measured, Laid;
      var v := ms[0].value;
      FilledTogether(Measured(v, parent, base), MeasuredMembers(ms[1..], parent, base + Size(v)),
                     Laid(v, parent, base), LaidMembers(ms[1..], parent, base + Size(v)));
    }
  }

  /** Whatever pass 1 accepts, pass 2 accepts as well, whatever the fresh memory holds, and it fills every
      string, key area, array and object to exactly the size pass 1 measured. */
  lemma PassesAgree(text: string, junk: char, measured: seq<Node>, root: Link)
    requires Run(Start(text, true, junk, [])) == Accepted(root, measured)
    ensures var second := Run(Start(text, false, junk, measured));
            second.Accepted? && second.root == root && AllFilled(measured, second.nodes)
  {
    hide Run, ReadDocument, Measured, Laid, AllFilled;
    JsonPass1.Pass1(text, junk);
    var r := ReadDocument(text);
    JsonPass2.Pass2(text, junk, r.value, r.next);
    LaidFills(r.value, Null, 0);
  }

  // ---------------------------------------------------------------- the tree the nodes stand for

  /** The node at `l`, reached from `parent`, stands for the value `v`. */
  predicate Represents(nodes: seq<Node>, l: Link, parent: Link, v: Json)
    decreases v, 0
  {
    l.At? && l.i < |nodes| &&
    var n := nodes[l.i];
    n.parent == parent &&
    match v
    case JNull => n.kind == KNull
    case JBool(b) => n.kind == KBoolean && n.scalar == if b then 1 else 0
    case JInt(i) => n.kind == KInteger && n.scalar == i
    case JDouble => n.kind == KDouble
    case JString(s) => n.kind == KString && n.block == Chars(s + ['\0']) && n.length == |s|
    case JArray(vs) => n.kind == KArray && n.length == |vs| && RepresentsItems(nodes, l, vs, |vs|)
    case JObject(ms) => n.kind == KObject && n.length == |ms| && RepresentsMembers(nodes, l, ms, |ms|)
  }

  /** The first `k` items of the array at `l` stand for the first `k` of `vs`. */
  predicate RepresentsItems(nodes: seq<Node>, l: Link, vs: seq<Json>, k: nat)
    requires l.At? && l.i < |nodes| && k <= |vs|
    decreases vs, k
  {
    k > 0 ==>
      var b := nodes[l.i].block;
      && RepresentsItems(nodes, l, vs, k - 1)
      && b.Items? && k <= |b.items| && Represents(nodes, b.items[k - 1], l, vs[k - 1])
  }

  /** A key is found at its offset, followed by a zero byte. */
  predicate HasKey(b: Block, k: nat, name: string) {
    && b.Members? && k < |b.entries| && b.entries[k].nameLength == |name|
    && var e := b.entries[k];
      e.name + |name| < |b.keys| && b.keys[e.name..e.name + |name|] == name && b.keys[e.name + |name|] == '\0'
  }

  predicate RepresentsMembers(nodes: seq<Node>, l: Link, ms: seq<Member>, k: nat)
    requires l.At? && l.i < |nodes| && k <= |ms|
    decreases ms, k
  {
    k > 0 ==>
      var b := nodes[l.i].block;
      && RepresentsMembers(nodes, l, ms, k - 1)
      && HasKey(b, k - 1, ms[k - 1].name) && Represents(nodes, b.entries[k - 1].value, l, ms[k - 1].value)
  }

  /** `nodes` holds `part` from position `base` on. */
  predicate Holds(nodes: seq<Node>, base: nat, part: seq<Node>) {
    base + |part| <= |nodes| && nodes[base..base + |part|] == part
  }

  lemma HoldsSplit(nodes: seq<Node>, base: nat, a: seq<Node>, b: seq<Node>)
    requires Holds(nodes, base, a + b)
    ensures Holds(nodes, base, a) && Holds(nodes, base + |a|, b)
  {
    assert nodes[base..base + |a| + |b|][..|a|] == a;
    assert nodes[base..base + |a| + |b|][|a|..] == b;
  }

  /** The position of item `k`, and of the value of member `k`. */
  function ItemBase(vs: seq<Json>, base: nat, k: nat): nat
    requires k <= |vs|
  {
    if k == 0 then base else ItemBase(vs[1..], base + Size(vs[0]), k - 1)
  }

  lemma {:induction false} ItemAt(vs: seq<Json>, parent: Link, base: nat, k: nat, nodes: seq<Node>)
    requires k < |vs| && Holds(nodes, base, LaidItems(vs, parent, base))
    ensures ItemLinks(vs, base)[k] == At(ItemBase(vs, base, k))
    ensures Holds(nodes, ItemBase(vs, base, k), Laid(vs[k], parent, ItemBase(vs, base, k)))
  {
    hide Laid;
    HoldsSplit(nodes, base, Laid(vs[0], parent, base), LaidItems(vs[1..], parent, base + Size(vs[0])));
    if k == 0 {
    } else {
      ItemAt(vs[1..], parent, base + Size(vs[0]), k - 1, nodes);
    }
  }

  function MemberBase(ms: seq<Member>, base: nat, k: nat): nat
    requires k <= |ms|
  {
    if k == 0 then base else MemberBase(ms[1..], base + Size(ms[0].value), k - 1)
  }

  lemma {:induction false} MemberAt(ms: seq<Member>, parent: Link, base: nat, k: nat, nodes: seq<Node>)
    requires k < |ms| && Holds(nodes, base, LaidMembers(ms, parent, base))
    ensures forall mem: nat :: MemberEntries(ms, mem, base)[k].value == At(MemberBase(ms, base, k))
    ensures Holds(nodes, MemberBase(ms, base, k), Laid(ms[k].value, parent, MemberBase(ms, base, k)))
  {
    hide Laid;
    HoldsSplit(nodes, base, Laid(ms[0].value, parent, base), LaidMembers(ms[1..], parent, base + Size(ms[0].value)));
    if k == 0 {
    } else {
      MemberAt(ms[1..], parent, base + Size(ms[0].value), k - 1, nodes);
    }
  }

  /** In the key area the keys follow one another, after `before`. */
  lemma {:induction false} KeyAt(ms: seq<Member>, base: nat, k: nat, before: string)
    requires k < |ms|
    ensures HasKey(Members(MemberEntries(ms, |before|, base), before + KeyText(ms)), k, ms[k].name)
  {
    hide Size;
    var name, rest := ms[0].name, ms[1..];
    var before' := before + name + ['\0'];
    assert before + KeyText(ms) == before' + KeyText(rest);
    var base' := base + Size(ms[0].value);
    assert MemberEntries(ms, |before|, base)
        == [Entry(|before|, |name|, At(base))] + MemberEntries(rest, |before'|, base');
    if k > 0 {
      KeyAt(rest, base', k - 1, before');
      hide KeyText, MemberEntries;
    } else {
      hide KeyText, MemberEntries;
      assert (before' + KeyText(rest))[|before|..|before| + |name|] == name;
    }
  }

  /** The nodes pass 2 leaves stand for the value they were laid out for. */
  lemma {:induction false} LaidRepresents(v: Json, parent: Link, base: nat, nodes: seq<Node>)
    requires Holds(nodes, base, Laid(v, parent, base))
    ensures Represents(nodes, At(base), parent, v)
    decreases v, 1
  {
    assert nodes[base] == nodes[base..base + Size(v)][0];
    match v {
      case JArray(vs) =>
        HoldsSplit(nodes, base, [LaidArray(vs, parent, base)], LaidItems(vs, At(base), base + 1));
        hide Laid, LaidItems;
        ItemsRepresented(vs, base, |vs|, nodes);
      case JObject(ms) =>
        HoldsSplit(nodes, base, [LaidObject(ms, parent, base)], LaidMembers(ms, At(base), base + 1));
        hide Laid, LaidMembers;
        MembersRepresented(ms, base, |ms|, nodes);
      case _ =>
    }
  }

  lemma {:induction false} ItemsRepresented(vs: seq<Json>, base: nat, k: nat, nodes: seq<Node>)
    requires base < |nodes| && k <= |vs|
    requires vs != [] ==> nodes[base].block == Items(ItemLinks(vs, base + 1))
    requires Holds(nodes, base + 1, LaidItems(vs, At(base), base + 1))
    ensures RepresentsItems(nodes, At(base), vs, k)
    decreases vs, 0, k
  {
    hide Laid, Represents, Holds;
    if k == 0 {
    } else {
      ItemsRepresented(vs, base, k - 1, nodes);
      ItemAt(vs, At(base), base + 1, k - 1, nodes);
      LaidRepresents(vs[k - 1], At(base), ItemBase(vs, base + 1, k - 1), nodes);
    }
  }

  lemma {:induction false} MembersRepresented(ms: seq<Member>, base: nat, k: nat, nodes: seq<Node>)
    requires base < |nodes| && k <= |ms|
    requires ms != [] ==> nodes[base].block == Members(MemberEntries(ms, 0, base + 1), KeyText(ms))
    requires Holds(nodes, base + 1, LaidMembers(ms, At(base), base + 1))
    ensures RepresentsMembers(nodes, At(base), ms, k)
    decreases ms, 0, k
  {
    hide Laid, Represents, Holds, LaidMembers, HasKey, MemberEntries, KeyText, Size;
    if k == 0 {
    } else {
      MembersRepresented(ms, base, k - 1, nodes);
      MemberAt(ms, At(base), base + 1, k - 1, nodes);
      KeyAt(ms, base + 1, k - 1, "");
      assert "" + KeyText(ms) == KeyText(ms);
      LaidRepresents(ms[k - 1].value, At(base), MemberBase(ms, base + 1, k - 1), nodes);
    }
  }

  /** A parse either fails, exactly when the reader does, or returns linked nodes that stand for the reader's
      value, each child naming its container as its parent. */
  lemma ParseIsReading(text: string, junk: char)
    ensures match ReadDocument(text)
            case Err => TwoPasses(text, junk) == Rejected
            case Ok(v, _) =>
              var r := TwoPasses(text, junk);
              r.Accepted? && |r.nodes| == Size(v) && Represents(r.nodes, r.root, Null, v)
  {
    hide TwoPasses, ReadDocument, Laid, Represents;
    TwoPassesCorrect(text, junk);
    match ReadDocument(text) {
      case Err =>
      case Ok(v, _) =>
        var l := Laid(v, Null, 0);
        assert l[0..|l|] == l;
        LaidRepresents(v, Null, 0, l);
    }
  }
}
