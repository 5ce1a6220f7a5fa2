/** Pass 2 against the recursive reader: on the nodes pass 1 measured, it visits the same values in the same
    order and fills every string, key area and container exactly. */
module JsonPass2 {
  import opened JsonText
  import opened JsonMachine
  import opened JsonGrammar
  import opened JsonLayout
  import opened JsonRounds
  import JsonPass1

  // ---------------------------------------------------------------- replacing parts of a sequence

  lemma SpliceTwice<T>(a: seq<T>, off: nat, x: seq<T>, y: seq<T>)
    requires off + |x| + |y| <= |a|
    ensures Splice(Splice(a, off, x), off + |x|, y) == Splice(a, off, x + y)
  {
  }

  lemma SpliceKeeps<T>(a: seq<T>, off: nat, x: seq<T>)
    requires off + |x| <= |a|
    ensures |Splice(a, off, x)| == |a|
    ensures forall i :: 0 <= i < off || off + |x| <= i < |a| ==> Splice(a, off, x)[i] == a[i]
    ensures forall i :: off <= i < off + |x| ==> Splice(a, off, x)[i] == x[i - off]
  {
  }

  // ---------------------------------------------------------------- numbers

  lemma {:induction false} SkipsGreedy(t: string, p: nat, q: nat)
    requires p <= q <= |t| && forall i :: p <= i < q ==> IsGreedy(t[i])
    requires !IsGreedy(Peek(t, q))
    ensures SkipGreedy(t, p) == q
    decreases q - p
  {
    if p >= q {
    } else {
      SkipsGreedy(t, p + 1, q);
    }
  }

  lemma NumberBytes(t: string, p: nat)
    requires p <= |t| && (IsDigit(Peek(t, p)) || Peek(t, p) == '-') && ReadNumber(t, p).Ok?
    ensures forall i :: p <= i < ReadNumber(t, p).next ==> IsGreedy(t[i])
  {
  }

  /** The two number lexers agree: if the byte after the number pass 1 lexed could not continue a number for
      pass 2, the greedy skip of pass 2 ends at the same place. */
  lemma ExtentsAgree(t: string, p: nat)
    requires p <= |t| && (IsDigit(Peek(t, p)) || Peek(t, p) == '-') && ReadNumber(t, p).Ok?
    ensures SkipGreedy(t, p) == ReadNumber(t, p).next <==> !IsGreedy(Peek(t, ReadNumber(t, p).next))
  {
    NumberBytes(t, p);
    if !IsGreedy(Peek(t, ReadNumber(t, p).next)) {
      SkipsGreedy(t, p, ReadNumber(t, p).next);
    }
  }

  // ---------------------------------------------------------------- strings

  predicate Writing(s: State) {
    && !s.first && s.ptr <= |s.text| && s.f.str && !s.f.escaped && !s.f.next && !s.f.reproc
    && s.top.At? && s.top.i < |s.nodes|
  }

  lemma StoreTwice(n: Node, off: nat, x: string, y: string)
    requires Store(n, off, x + y).Got?
    ensures Store(n, off, x).Got?
    ensures Store(Store(n, off, x).value, off + |x|, y) == Store(n, off, x + y)
  {
    match n.block {
      case Chars(cs) => SpliceTwice(cs, off, x, y);
      case Members(es, ks) => SpliceTwice(ks, n.objectMem + off, x, y);
      case _ =>
    }
  }

  lemma StoreNothing(n: Node, off: nat, y: string)
    requires Store(n, off, y).Got?
    ensures Store(n, off, "") == Got(n)
  {
    match n.block {
      case Chars(cs) => assert Splice(cs, off, "") == cs;
      case Members(es, ks) => assert Splice(ks, n.objectMem + off, "") == ks;
      case _ =>
    }
  }

  /** The state after `bytes` have been written and the text read up to `p`. */
  function Written(s: State, bytes: string, p: nat): State
    requires Writing(s) && Store(s.nodes[s.top.i], s.stringLength, bytes).Got?
  {
    s.(ptr := p, stringLength := s.stringLength + |bytes|,
       nodes := s.nodes[s.top.i := Store(s.nodes[s.top.i], s.stringLength, bytes).value])
  }

  /** One round for a plain character, two for an escape. */
  lemma WritePlain(s: State)
    requires Writing(s) && s.stringLength <= UINT_LIMIT && Peek(s.text, s.ptr) !in ['\0', '\\', '"']
    requires Store(s.nodes[s.top.i], s.stringLength, [Peek(s.text, s.ptr)]).Got?
    ensures Step(s) == Next(Written(s, [Peek(s.text, s.ptr)], s.ptr + 1))
  {
    hide Run, Step, Main, CloseString, EscapedChar, Store;
    StringRound(s);
  }

  lemma WriteEscape(s: State)
    requires Writing(s) && s.stringLength <= UINT_LIMIT
    requires var r := ReadEscape(s.text, s.ptr); r.Ok? && Store(s.nodes[s.top.i], s.stringLength, r.value).Got?
    ensures var r := ReadEscape(s.text, s.ptr);
            Step(s.(f := s.f.(escaped := true))) == Next(Written(s, r.value, r.next))
  {
    hide Run, Step, Main, CloseString, Store, UnicodeEscape, Utf8, Utf8Length, SimpleEscape;
    var s' := s.(f := s.f.(escaped := true));
    assert s'.(f := s'.f.(escaped := false)) == s;
    StringRound(s');
  }

  lemma Backslash2(s: State)
    requires Writing(s) && s.stringLength <= UINT_LIMIT && Peek(s.text, s.ptr) == '\\'
    ensures Step(s) == Next(s.(ptr := s.ptr + 1, f := s.f.(escaped := true)))
  {
    hide Run, Step, Main, CloseString, AddBytes;
    StringRound(s);
  }

  /** A character of a string, plain or escaped. */
  lemma WriteChar(s: State)
    requires Writing(s) && s.stringLength <= UINT_LIMIT && Peek(s.text, s.ptr) !in ['\0', '"']
    requires var r := ReadChar(s.text, s.ptr); r.Ok? && Store(s.nodes[s.top.i], s.stringLength, r.value).Got?
    ensures var r := ReadChar(s.text, s.ptr); Run(s) == Run(Written(s, r.value, r.next))
  {
    hide Run, Step, Store, ReadEscape;
    var r := ReadChar(s.text, s.ptr);
    var s' := Written(s, r.value, r.next);
    if s.text[s.ptr] == '\\' {
      var s1 := s.(ptr := s.ptr + 1);
      var s2 := s1.(f := s1.f.(escaped := true));
      Backslash2(s); Advance(s, s2);
      WriteEscape(s1); Advance(s2, s');
    } else {
      WritePlain(s); Advance(s, s');
    }
  }

  lemma WrittenTwice(s: State, x: string, p: nat, y: string, q: nat)
    requires Writing(s) && p <= |s.text| && Store(s.nodes[s.top.i], s.stringLength, x + y).Got?
    ensures Store(s.nodes[s.top.i], s.stringLength, x).Got? && Writing(Written(s, x, p))
    ensures var s' := Written(s, x, p);
            && Store(s'.nodes[s.top.i], s'.stringLength, y).Got?
            && Written(s', y, q) == Written(s, x + y, q)
  {
    StoreTwice(s.nodes[s.top.i], s.stringLength, x, y);
    hide Store;
  }

  /** The whole string is written, up to the closing quote, when there is room for it and its zero byte. */
  lemma {:induction false} String2(s: State)
    requires Writing(s)
    requires var r := ReadString(s.text, s.ptr, s.stringLength);
             r.Ok? && Store(s.nodes[s.top.i], s.stringLength, r.value + ['\0']).Got?
    ensures var r := ReadString(s.text, s.ptr, s.stringLength);
            && Peek(s.text, r.next - 1) == '"' && s.stringLength + |r.value| <= UINT_LIMIT
            && Store(s.nodes[s.top.i], s.stringLength, r.value).Got?
            && Run(s) == Run(Written(s, r.value, r.next - 1))
    decreases |s.text| - s.ptr
  {
    hide Run, Store, ReadChar;
    var n := s.nodes[s.top.i];
    var r := ReadString(s.text, s.ptr, s.stringLength);
    StoreTwice(n, s.stringLength, r.value, ['\0']);
    if Peek(s.text, s.ptr) == '"' {
      StoreNothing(n, s.stringLength, r.value);
      assert s.nodes[s.top.i := n] == s.nodes;
    } else {
      var e := ReadChar(s.text, s.ptr);
      var rest := ReadString(s.text, e.next, s.stringLength + |e.value|);
      hide ReadString, Written;
      assert r.value + ['\0'] == e.value + (rest.value + ['\0']);
      WrittenTwice(s, e.value, e.next, rest.value + ['\0'], 0);
      WrittenTwice(s, e.value, e.next, rest.value, r.next - 1);
      WriteChar(s);
      WrittenAt(s, e.value, e.next);
      String2(Written(s, e.value, e.next));
    }
  }

  lemma WrittenAt(s: State, bytes: string, p: nat)
    requires Writing(s) && Store(s.nodes[s.top.i], s.stringLength, bytes).Got?
    ensures var r := Written(s, bytes, p);
            && r.text == s.text && r.ptr == p && r.stringLength == s.stringLength + |bytes| && r.top == s.top
  {
    hide Store;
  }

  // ---------------------------------------------------------------- values

  /** A value is sought; the nodes from `s.alloc` on are as pass 1 left them. */
  predicate Ready2(s: State) {
    && !s.first && s.ptr <= |s.text| && Plain(s.f) && s.f.seekValue && !s.f.needComma && !s.f.needColon
    && s.alloc <= |s.nodes| && (s.top.At? ==> InContainer(s) && s.top.i < s.alloc)
  }

  /** `m` is what pass 1 left next in the chain. */
  predicate Pending(s: State, m: seq<Node>) {
    s.alloc + |m| <= |s.nodes| && s.nodes[s.alloc..s.alloc + |m|] == m
  }

  /** The value `v` sought in `s` is complete in `x`, its nodes filled in. */
  predicate Closed2(s: State, x: State, v: Json, q: nat)
    requires s.alloc + Size(v) <= |s.nodes|
  {
    && Complete(x) && ParentFits(x) && EndOf(x) == q
    && x == s.(ptr := x.ptr, f := x.f, top := At(s.alloc), root := if s.root.Null? then At(s.alloc) else s.root,
               alloc := s.alloc + Size(v), nodes := Splice(s.nodes, s.alloc, Laid(v, s.top, s.alloc)),
               stringLength := x.stringLength)
  }

  predicate Read2(s: State, x: State, v: Json, q: nat) {
    && s.alloc + Size(v) <= |s.nodes| && s.ptr <= |s.text| && q <= |s.text|
    && Closed2(s, x, v, q) && Run(s) == Resume(Finish(x))
  }

  /** What holds before a value is read again. */
  predicate Known2(s: State, v: Json, q: nat) {
    && Ready2(s) && Pending(s, Measured(v, s.top, s.alloc)) && ReadValue(s.text, s.ptr) == Ok(v, q)
    && !IsGreedy(Peek(s.text, q))
  }

  /** The state with the next node of the chain on top. */
  function Opened2(s: State): State
    requires Ready2(s) && s.alloc < |s.nodes|
  {
    s.(f := s.f.(seekValue := false), top := At(s.alloc), alloc := s.alloc + 1,
       root := if s.root.Null? then At(s.alloc) else s.root,
       nodes := s.nodes[s.alloc := Allocate(s.nodes[s.alloc], s.junk)])
  }

  lemma FirstPending(s: State, v: Json)
    requires Pending(s, Measured(v, s.top, s.alloc))
    ensures s.alloc < |s.nodes| && s.nodes[s.alloc] == Measured(v, s.top, s.alloc)[0]
    ensures s.nodes[s.alloc].parent == s.top
  {
    hide Measured;
    assert s.nodes[s.alloc..s.alloc + |Measured(v, s.top, s.alloc)|][0] == s.nodes[s.alloc];
    HeadParent(v, s.top, s.alloc);
  }

  lemma HeadParent(v: Json, parent: Link, base: nat)
    ensures Measured(v, parent, base)[0].parent == parent == Laid(v, parent, base)[0].parent
  {
  }

  lemma SpliceOne<T>(a: seq<T>, off: nat, x: T)
    requires off < |a|
    ensures Splice(a, off, [x]) == a[off := x]
  {
  }

  lemma WordStarts(t: string, p: nat, word: string)
    requires HasWord(t, p, word) && |word| > 0 && '\0' !in word
    ensures Peek(t, p) == word[0]
    ensures !(|t| - p < |word| - 1 || exists i :: 1 <= i < |word| && Peek(t, p + i) != word[i])
  {
    assert t[p..p + |word|][0] == t[p];
    JsonPass1.WordMatches(t, p, word);
  }

  lemma WordStep2(s: State, word: string, kind: Kind, scalar: int)
    requires Ready2(s) && JsonPass1.IsWord(word, kind, scalar) && HasWord(s.text, s.ptr, word) && |word| > 0
    requires s.alloc < |s.nodes| && s.nodes[s.alloc] == Fresh(s.top, kind).(scalar := scalar)
    ensures var o := Opened2(s);
            Step(s) == Finish(o.(ptr := s.ptr + |word| - 1, f := o.f.(next := true), nodes := s.nodes))
  {
    hide Run, Step, Finish;
    WordStarts(s.text, s.ptr, word);
    JsonPass1.WordRound(s, word, kind, scalar);
    hide HasWord;
    assert s.nodes[s.alloc := s.nodes[s.alloc]] == s.nodes;
  }

  lemma Word2(s: State, word: string, v: Json) returns (x: State)
    requires Known2(s, v, s.ptr + |word|) && |word| > 0 && HasWord(s.text, s.ptr, word)
    requires (word, v) in [("true", JBool(true)), ("false", JBool(false)), ("null", JNull)]
    ensures Read2(s, x, v, s.ptr + |word|)
  {
    hide Run, Step, Finish, ReadValue;
    FirstPending(s, v);
    WordStep2(s, word, if v == JNull then KNull else KBoolean, if v == JBool(true) then 1 else 0);
    var o := Opened2(s);
    x := o.(ptr := s.ptr + |word| - 1, f := o.f.(next := true), nodes := s.nodes);
    SpliceOne(s.nodes, s.alloc, s.nodes[s.alloc]);
    assert s.nodes[s.alloc := s.nodes[s.alloc]] == s.nodes;
    Completes(s, x);
  }

  lemma NumberStep2(s: State)
    requires Ready2(s) && (IsDigit(Peek(s.text, s.ptr)) || Peek(s.text, s.ptr) == '-')
    requires s.alloc < |s.nodes| && IsNumber(s.nodes[s.alloc].kind)
    ensures var o := Opened2(s);
            Step(s) == Finish(o.(ptr := SkipGreedy(s.text, s.ptr), f := o.f.(next := true, reproc := true)))
  {
    hide Run, Step, Finish, Word, Inside;
    MainRound(s);
  }

  lemma Number2(s: State, v: Json, q: nat) returns (x: State)
    requires Known2(s, v, q) && (IsDigit(Peek(s.text, s.ptr)) || Peek(s.text, s.ptr) == '-')
    ensures Read2(s, x, v, q)
  {
    hide Run, Step, Finish, ReadNumber, SkipGreedy;
    assert ReadNumber(s.text, s.ptr) == Ok(v, q);
    assert v.JInt? || v.JDouble? by { NumberKind(s.text, s.ptr); }
    FirstPending(s, v);
    NumberStep2(s);
    ExtentsAgree(s.text, s.ptr);
    var o := Opened2(s);
    x := o.(ptr := q, f := o.f.(next := true, reproc := true));
    SpliceOne(s.nodes, s.alloc, s.nodes[s.alloc]);
    Completes(s, x);
  }

  lemma NumberKind(t: string, p: nat)
    requires p <= |t| && (IsDigit(Peek(t, p)) || Peek(t, p) == '-') && ReadNumber(t, p).Ok?
    ensures ReadNumber(t, p).value.JInt? || ReadNumber(t, p).value.JDouble?
  {
  }

  lemma OpenStep2(s: State)
    requires Ready2(s) && s.alloc < |s.nodes|
    ensures Peek(s.text, s.ptr) == '{' ==> Step(s) == Next(Opened2(s).(ptr := s.ptr + 1))
    ensures Peek(s.text, s.ptr) == '[' ==>
              var o := Opened2(s); Step(s) == Next(o.(ptr := s.ptr + 1, f := o.f.(seekValue := true)))
    ensures Peek(s.text, s.ptr) == '"' ==>
              var o := Opened2(s);
              Step(s) == Next(o.(ptr := s.ptr + 1, f := o.f.(str := true), stringLength := 0))
  {
    hide Run, Step, Word, StartNumber, Inside, Finish, Allocate;
    MainRound(s);
  }

  lemma EndStringStep2(s: State, t: nat)
    requires Writing(s) && Peek(s.text, s.ptr) == '"' && s.stringLength <= UINT_LIMIT
    requires !s.f.seekValue && !s.f.done && s.top == At(t) && s.nodes[t].kind == KString
    requires Store(s.nodes[t], s.stringLength, ['\0']).Got?
    ensures Step(s)
         == var n := Store(s.nodes[t], s.stringLength, ['\0']).value.(length := s.stringLength);
            Finish(s.(f := s.f.(str := false, next := true), nodes := s.nodes[t := n]))
  {
    hide Run, Finish, EscapedChar, AddBytes, Store;
  }

  lemma StringValue2(s: State, v: Json, q: nat) returns (x: State)
    requires Known2(s, v, q) && Peek(s.text, s.ptr) == '"'
    ensures Read2(s, x, v, q)
  {
    hide Run, Step, Finish, ReadString;
    FirstPending(s, v);
    var bytes := ReadString(s.text, s.ptr + 1, 0).value;
    assert v == JString(bytes);
    var t := s.alloc;
    var o := Opened2(s);
    var s1 := o.(ptr := s.ptr + 1, f := o.f.(str := true), stringLength := 0);
    OpenStep2(s); Advance(s, s1);
    var n := s1.nodes[t];
    var buf := Fill(|bytes| + 1, s.junk);
    assert n == s.nodes[t].(block := Chars(buf), length := 0);
    assert Splice(buf, 0, bytes + ['\0']) == bytes + ['\0'];
    assert Store(n, 0, bytes + ['\0']) == Got(n.(block := Chars(bytes + ['\0'])));
    String2(s1);
    StoreTwice(n, 0, bytes, ['\0']);
    var s2 := Written(s1, bytes, q - 1);
    EndStringStep2(s2, t);
    var n' := Store(s2.nodes[t], |bytes|, ['\0']).value.(length := |bytes|);
    x := s2.(f := s2.f.(str := false, next := true), nodes := s2.nodes[t := n']);
    SpliceOne(s.nodes, t, n');
    assert x.nodes == s.nodes[t := n'];
    Completes(s2, x);
  }

  // ---------------------------------------------------------------- containers

  /** Exactly the room for the values `vs` is left in the array `n`. */
  predicate RoomForItems(n: Node, vs: seq<Json>) {
    vs != [] ==> n.block.Items? && |n.block.items| == n.length + |vs|
  }

  function WithItems(n: Node, vs: seq<Json>, base: nat): Node
    requires RoomForItems(n, vs)
  {
    if vs == [] then n
    else n.(length := n.length + |vs|, block := Items(n.block.items[..n.length] + ItemLinks(vs, base)))
  }

  /** Exactly the room for the members `ms` and their keys is left in the object `n`. */
  predicate RoomForMembers(n: Node, ms: seq<Member>) {
    ms != [] ==>
      && n.block.Members? && |n.block.entries| == n.length + |ms|
      && |n.block.keys| == n.objectMem + |KeyText(ms)|
  }

  function WithMembers(n: Node, ms: seq<Member>, base: nat): Node
    requires RoomForMembers(n, ms)
  {
    if ms == [] then n
    else
      n.(length := n.length + |ms|, objectMem := n.objectMem + |KeyText(ms)|,
         block := Members(Upto(n.block.entries, n.length, MemberEntries(ms, n.objectMem, base)),
                          Upto(n.block.keys, n.objectMem, KeyText(ms))))
  }

  /** The first `k` elements of `a`, then `more`. */
  function Upto<T>(a: seq<T>, k: nat, more: seq<T>): seq<T>
    requires k <= |a|
  {
    a[..k] + more
  }

  /** Inside the container at `k`, which lies before the nodes still to come. */
  predicate Inside2(s: State, k: nat) {
    && !s.first && s.ptr <= |s.text| && Plain(s.f) && !s.f.needColon
    && s.top == At(k) && InContainer(s) && ParentFits(s) && k < s.alloc <= |s.nodes| && s.root.At?
    && s.f.seekValue == (s.nodes[k].kind == KArray) && ParentBefore(s.nodes[k], k)
  }

  predicate ParentBefore(n: Node, k: nat) {
    n.parent.At? ==> n.parent.i < k
  }

  /** The rest of the container at `k` has been read: it has become `n`, and the nodes `laid` were filled. */
  predicate ClosedRest2(s: State, x: State, k: nat, n: Node, laid: seq<Node>, q: nat)
    requires Inside2(s, k)
  {
    && Complete(x) && ParentFits(x) && EndOf(x) == q && q <= |s.text| && s.alloc + |laid| <= |s.nodes|
    && x == s.(ptr := x.ptr, f := x.f, alloc := s.alloc + |laid|, stringLength := x.stringLength,
               nodes := Splice(s.nodes[k := n], s.alloc, laid))
    && Run(s) == Resume(Finish(x))
  }

  /** The state after the value completed in `x` has been attached to its container, now `n`. */
  function Attached2(x: State, k: nat, n: Node): State
    requires k < |x.nodes|
  {
    x.(ptr := EndOf(x), top := At(k),
       f := x.f.(next := false, reproc := false, needComma := true, seekValue := n.kind == KArray),
       nodes := x.nodes[k := n])
  }

  lemma Attach2(x: State, k: nat, n: Node)
    requires !x.first && Complete(x) && k < |x.nodes| && x.nodes[x.top.i].parent == At(k)
    requires Attach(x.nodes[k], x.top) == Got(n) && n.length + 1 <= UINT_LIMIT
    ensures Finish(x) == Next(Attached2(x, k, n.(length := n.length + 1)))
  {
    hide Attach, Run;
  }

  /** A value read inside the container at `k`: the run goes on with the container holding one more. */
  lemma Attaches(s: State, x: State, k: nat, v: Json, q: nat, n: Node)
    requires Ready2(s) && s.top == At(k) && Read2(s, x, v, q)
    requires Attach(s.nodes[k], At(s.alloc)) == Got(n) && n.length + 1 <= UINT_LIMIT
    ensures k < |x.nodes| && var s' := Attached2(x, k, n.(length := n.length + 1));
            && Run(s) == Run(s') && s'.ptr == q
            && s'.nodes == Splice(s.nodes[k := n.(length := n.length + 1)], s.alloc, Laid(v, At(k), s.alloc))
  {
    hide Run, Finish, Laid, Attach;
    var l := Laid(v, At(k), s.alloc);
    SpliceKeeps(s.nodes, s.alloc, l);
    HeadParent(v, At(k), s.alloc);
    Attach2(x, k, n);
    var n' := n.(length := n.length + 1);
    assert Splice(s.nodes, s.alloc, l)[k := n'] == Splice(s.nodes[k := n'], s.alloc, l);
  }

  /** Whatever follows a value inside a container is no byte a number could go on with. */
  lemma FollowsItem(t: string, q: nat, n: nat)
    requires q <= |t| && ReadItems(t, q, true, n).Ok?
    ensures !IsGreedy(Peek(t, q))
  {
    hide ReadValue;
  }

  lemma FollowsMember(t: string, q: nat, n: nat)
    requires q <= |t| && ReadMembers(t, q, true, n).Ok?
    ensures !IsGreedy(Peek(t, q))
  {
    hide ReadMember;
  }

  lemma PendingSplit(s: State, a: seq<Node>, b: seq<Node>)
    requires Pending(s, a + b)
    ensures Pending(s, a)
    ensures s.alloc + |a| + |b| <= |s.nodes| && s.nodes[s.alloc + |a|..s.alloc + |a| + |b|] == b
  {
    assert s.nodes[s.alloc..s.alloc + |a| + |b|][..|a|] == a;
    assert s.nodes[s.alloc..s.alloc + |a| + |b|][|a|..] == b;
  }

  /** Filling the nodes of one value leaves the nodes after it as they were. */
  lemma PendingLater(nodes: seq<Node>, k: nat, n: Node, base: nat, laid: seq<Node>, rest: seq<Node>)
    requires k < base && base + |laid| + |rest| <= |nodes|
    requires nodes[base + |laid|..base + |laid| + |rest|] == rest
    ensures Splice(nodes[k := n], base, laid)[base + |laid|..base + |laid| + |rest|] == rest
    ensures Splice(nodes[k := n], base, laid)[k] == n
  {
  }

  lemma SpliceThenContainer(nodes: seq<Node>, k: nat, n: Node, n': Node, base: nat, l: seq<Node>, rest: seq<Node>)
    requires k < base && base + |l| + |rest| <= |nodes|
    ensures Splice(Splice(nodes[k := n], base, l)[k := n'], base + |l|, rest)
         == Splice(nodes[k := n'], base, l + rest)
  {
  }

  lemma {:induction false} Value2(s: State, v: Json, q: nat) returns (x: State)
    requires Known2(s, v, q)
    ensures Read2(s, x, v, q)
    decreases |s.text| - s.ptr, 1
  {
    hide Run, Step, Finish, ReadItems, ReadMembers, ReadString, ReadNumber, HasWord, Measured, Laid, Read2;
    var b := Peek(s.text, s.ptr);
    if b == '{' {
      x := Object2(s, v, q);
    } else if b == '[' {
      x := Array2(s, v, q);
    } else if b == '"' {
      x := StringValue2(s, v, q);
    } else if b == 't' {
      x := Word2(s, "true", v);
    } else if b == 'f' {
      x := Word2(s, "false", v);
    } else if b == 'n' {
      x := Word2(s, "null", v);
    } else {
      x := Number2(s, v, q);
    }
  }

  /** The memory `new_value` allocates for an array is exactly what the reader's values need. */
  lemma ArrayRoom(vs: seq<Json>, parent: Link, base: nat, junk: char)
    ensures var n := Allocate(Fresh(parent, KArray).(length := |vs|), junk);
            && n.kind == KArray && n.parent == parent && n.length == 0 && RoomForItems(n, vs)
            && WithItems(n, vs, base + 1) == LaidArray(vs, parent, base)
  {
    var links := Fill(|vs|, Null);
    assert links[..0] + ItemLinks(vs, base + 1) == ItemLinks(vs, base + 1);
  }

  lemma ObjectRoom(ms: seq<Member>, parent: Link, base: nat, junk: char)
    ensures var n := Allocate(Fresh(parent, KObject).(length := |ms|, block := KeyBytes(|KeyText(ms)|)), junk);
            && n.kind == KObject && n.parent == parent && n.length == 0 && RoomForMembers(n, ms)
            && WithMembers(n, ms, base + 1) == LaidObject(ms, parent, base)
  {
    var entries := Fill(|ms|, Entry(0, 0, Null));
    assert entries[..0] + MemberEntries(ms, 0, base + 1) == MemberEntries(ms, 0, base + 1);
    assert Fill(|KeyText(ms)|, junk)[..0] + KeyText(ms) == KeyText(ms);
  }

  lemma {:induction false} Array2(s: State, v: Json, q: nat) returns (x: State)
    requires Known2(s, v, q) && Peek(s.text, s.ptr) == '['
    ensures Read2(s, x, v, q)
    decreases |s.text| - s.ptr, 0
  {
    hide Run, Step, Finish, ReadItems, ReadMembers, Allocate, LaidArray, WithItems, RoomForItems, Read2, ClosedRest2;
    FirstPending(s, v);
    var vs := v.items;
    var k := s.alloc;
    ArrayRoom(vs, s.top, k, s.junk);
    var o := Opened2(s);
    var s1 := o.(ptr := s.ptr + 1, f := o.f.(seekValue := true));
    OpenStep2(s); Advance(s, s1);
    PendingSplit(s, Measured(v, s.top, k)[..1], MeasuredItems(vs, At(k), k + 1));
    x := Items2(s1, k, vs, q);
    ContainerRead(s, s1, x, v, q, LaidArray(vs, s.top, k), LaidItems(vs, At(k), k + 1));
  }

  /** The container opened in `s1` has been read to its end. */
  lemma ContainerRead(s: State, s1: State, x: State, v: Json, q: nat, n: Node, rest: seq<Node>)
    requires Ready2(s) && s.alloc < |s.nodes| && s1 == Opened2(s).(ptr := s1.ptr, f := s1.f)
    requires Inside2(s1, s.alloc) && Run(s) == Run(s1) && ClosedRest2(s1, x, s.alloc, n, rest, q)
    requires Laid(v, s.top, s.alloc) == [n] + rest
    ensures Read2(s, x, v, q)
  {
    hide Run, Finish, Complete, ParentFits, EndOf, Laid, Allocate;
    OpenedSplice(s.nodes, s.alloc, s1.nodes[s.alloc], n, rest);
    hide Splice;
  }

  lemma OpenedSplice(nodes: seq<Node>, k: nat, n: Node, n': Node, rest: seq<Node>)
    requires k + 1 + |rest| <= |nodes|
    ensures Splice(nodes[k := n][k := n'], k + 1, rest) == Splice(nodes, k, [n'] + rest)
  {
  }

  lemma {:induction false} Object2(s: State, v: Json, q: nat) returns (x: State)
    requires Known2(s, v, q) && Peek(s.text, s.ptr) == '{'
    ensures Read2(s, x, v, q)
    decreases |s.text| - s.ptr, 0
  {
    hide Run, Step, Finish, ReadItems, ReadMembers, Allocate, LaidObject, WithMembers, RoomForMembers, Read2,
      ClosedRest2;
    FirstPending(s, v);
    var ms := v.members;
    var k := s.alloc;
    ObjectRoom(ms, s.top, k, s.junk);
    var s1 := Opened2(s).(ptr := s.ptr + 1);
    OpenStep2(s); Advance(s, s1);
    PendingSplit(s, Measured(v, s.top, k)[..1], MeasuredMembers(ms, At(k), k + 1));
    x := Members2(s1, k, ms, q);
    ContainerRead(s, s1, x, v, q, LaidObject(ms, s.top, k), LaidMembers(ms, At(k), k + 1));
  }

  // ---------------------------------------------------------------- array items

  lemma {:induction false} Items2(s: State, k: nat, vs: seq<Json>, q: nat) returns (x: State)
    requires Inside2(s, k) && s.nodes[k].kind == KArray && RoomForItems(s.nodes[k], vs)
    requires Pending(s, MeasuredItems(vs, At(k), s.alloc))
    requires ReadItems(s.text, s.ptr, s.f.needComma, s.nodes[k].length) == Ok(vs, q)
    ensures ClosedRest2(s, x, k, WithItems(s.nodes[k], vs, s.alloc), LaidItems(vs, At(k), s.alloc), q)
    decreases |s.text| - s.ptr, 3
  {
    hide Run, Step, Finish, ReadValue, Measured, MeasuredItems, RoomForItems;
    Spaces(s);
    var s1 := s.(ptr := SkipSpace(s.text, s.ptr));
    if Peek(s.text, s1.ptr) == ']' {
      JsonPass1.CloseArrayStep(s1, k);
      x := s1.(f := s1.f.(needComma := false, seekValue := false, next := true));
      assert Splice(s.nodes[k := s.nodes[k]], s.alloc, []) == s.nodes;
      Completes(s1, x);
    } else if s.f.needComma {
      var s2 := s1.(ptr := s1.ptr + 1, f := s1.f.(needComma := false));
      JsonPass1.CommaStep(s1, k); Advance(s1, s2);
      x := Items2(s2, k, vs, q);
    } else {
      x := NextItem2(s1, k, vs, q);
    }
  }

  /** An array with one more item. */
  lemma OneMoreItem(n: Node, vs: seq<Json>, base: nat)
    requires n.kind == KArray && vs != [] && RoomForItems(n, vs)
    ensures n.block.Items? && n.length < |n.block.items|
    ensures var n1 := n.(block := Items(n.block.items[n.length := At(base)]));
            var n' := n1.(length := n.length + 1);
            && Attach(n, At(base)) == Got(n1) && RoomForItems(n', vs[1..])
            && WithItems(n', vs[1..], base + Size(vs[0])) == WithItems(n, vs, base)
  {
    var items := n.block.items;
    var rest := ItemLinks(vs[1..], base + Size(vs[0]));
    assert items[n.length := At(base)][..n.length + 1] == items[..n.length] + [At(base)];
    assert items[..n.length] + [At(base)] + rest == items[..n.length] + ItemLinks(vs, base);
    hide Size;
  }

  lemma NodesOfItems(vs: seq<Json>, parent: Link, base: nat)
    requires vs != []
    ensures var v := vs[0];
            && MeasuredItems(vs, parent, base)
               == Measured(v, parent, base) + MeasuredItems(vs[1..], parent, base + Size(v))
            && LaidItems(vs, parent, base) == Laid(v, parent, base) + LaidItems(vs[1..], parent, base + Size(v))
  {
  }

  /** The first item of a non-empty rest of an array, and what is left. */
  lemma ItemsHead(t: string, p: nat, n: nat, vs: seq<Json>, q: nat) returns (v: Json, r: nat, rest: seq<Json>)
    requires p <= |t| && !IsSpace(Peek(t, p)) && Peek(t, p) != ']'
    requires ReadItems(t, p, false, n) == Ok(vs, q)
    ensures n + 1 <= UINT_LIMIT && p < r <= |t|
    ensures ReadValue(t, p) == Ok(v, r) && ReadItems(t, r, true, n + 1) == Ok(rest, q)
    ensures vs != [] && vs[0] == v && vs[1..] == rest
  {
    v, r := ReadValue(t, p).value, ReadValue(t, p).next;
    rest := ReadItems(t, r, true, n + 1).value;
    assert vs == [v] + rest;
    hide ReadValue;
  }

  lemma {:induction false} NextItem2(s: State, k: nat, vs: seq<Json>, q: nat) returns (x: State)
    requires Inside2(s, k) && s.nodes[k].kind == KArray && RoomForItems(s.nodes[k], vs)
    requires Pending(s, MeasuredItems(vs, At(k), s.alloc)) && !s.f.needComma
    requires !IsSpace(Peek(s.text, s.ptr)) && Peek(s.text, s.ptr) != ']'
    requires ReadItems(s.text, s.ptr, false, s.nodes[k].length) == Ok(vs, q)
    ensures ClosedRest2(s, x, k, WithItems(s.nodes[k], vs, s.alloc), LaidItems(vs, At(k), s.alloc), q)
    decreases |s.text| - s.ptr, 2
  {
    hide Run, Step, Finish, ReadValue, Measured, Laid, RoomForItems, WithItems, Attach, Size, Read2, ClosedRest2,
      ReadItems, LaidItems, MeasuredItems;
    var n := s.nodes[k];
    var v, p, rest := ItemsHead(s.text, s.ptr, n.length, vs, q);
    NodesOfItems(vs, At(k), s.alloc);
    FollowsItem(s.text, p, n.length + 1);
    var later := MeasuredItems(rest, At(k), s.alloc + Size(v));
    PendingSplit(s, Measured(v, At(k), s.alloc), later);
    var y := Value2(s, v, p);
    OneMoreItem(n, vs, s.alloc);
    var n' := n.(block := Items(n.block.items[n.length := At(s.alloc)]), length := n.length + 1);
    var s2 := GoOn2(s, y, k, v, p, n');
    PendingLater(s.nodes, k, n', s.alloc, Laid(v, At(k), s.alloc), later);
    x := Items2(s2, k, rest, q);
    Rejoin2(s, s2, x, k, n', Laid(v, At(k), s.alloc), WithItems(n, vs, s.alloc), LaidItems(rest, At(k), s2.alloc), q);
  }

  /** The value `v` sought in `s` and completed in `y` is attached, which makes the container `n'`. */
  lemma GoOn2(s: State, y: State, k: nat, v: Json, p: nat, n': Node) returns (s2: State)
    requires Ready2(s) && s.top == At(k) && ParentFits(s) && s.root.At? && Read2(s, y, v, p)
    requires ParentBefore(s.nodes[k], k)
    requires 0 < n'.length <= UINT_LIMIT && n'.kind == s.nodes[k].kind && n'.parent == s.nodes[k].parent
    requires Attach(s.nodes[k], At(s.alloc)) == Got(n'.(length := n'.length - 1))
    ensures Inside2(s2, k) && Run(s) == Run(s2) && s2.ptr == p && s2.f.needComma && s.alloc + Size(v) <= |s.nodes|
    ensures s2 == s.(ptr := p, f := s2.f, alloc := s.alloc + Size(v), stringLength := s2.stringLength,
                     nodes := Splice(s.nodes[k := n'], s.alloc, Laid(v, At(k), s.alloc)))
  {
    hide Run, Finish, Laid, Attach;
    var n := n'.(length := n'.length - 1);
    Attaches(s, y, k, v, p, n);
    s2 := Attached2(y, k, n');
    SpliceKeeps(s.nodes[k := n'], s.alloc, Laid(v, At(k), s.alloc));
  }

  /** One more value, then the rest of the container. */
  lemma Rejoin2(s: State, s2: State, x: State, k: nat, n': Node, l: seq<Node>, n: Node, rest: seq<Node>, q: nat)
    requires Inside2(s, k) && Inside2(s2, k) && Run(s) == Run(s2) && s.alloc + |l| + |rest| <= |s.nodes|
    requires s2 == s.(ptr := s2.ptr, f := s2.f, alloc := s.alloc + |l|, stringLength := s2.stringLength,
                      nodes := Splice(s.nodes[k := n'], s.alloc, l))
    requires ClosedRest2(s2, x, k, n, rest, q)
    ensures ClosedRest2(s, x, k, n, l + rest, q)
  {
    hide Run, Finish, Complete, ParentFits, EndOf, Splice;
    SpliceThenContainer(s.nodes, k, n', n, s.alloc, l, rest);
  }

  // ---------------------------------------------------------------- object members

  lemma {:induction false} Members2(s: State, k: nat, ms: seq<Member>, q: nat) returns (x: State)
    requires Inside2(s, k) && s.nodes[k].kind == KObject && RoomForMembers(s.nodes[k], ms)
    requires Pending(s, MeasuredMembers(ms, At(k), s.alloc))
    requires ReadMembers(s.text, s.ptr, s.f.needComma, s.nodes[k].length) == Ok(ms, q)
    ensures ClosedRest2(s, x, k, WithMembers(s.nodes[k], ms, s.alloc), LaidMembers(ms, At(k), s.alloc), q)
    decreases |s.text| - s.ptr, 3
  {
    hide Run, Step, Finish, ReadMember, Measured, MeasuredMembers, RoomForMembers;
    Spaces(s);
    var s1 := s.(ptr := SkipSpace(s.text, s.ptr));
    if Peek(s.text, s1.ptr) == '}' {
      JsonPass1.CloseObjectStep(s1, k);
      x := s1.(f := s1.f.(needComma := false, next := true));
      assert Splice(s.nodes[k := s.nodes[k]], s.alloc, []) == s.nodes;
      Completes(s1, x);
    } else if Peek(s.text, s1.ptr) == ',' {
      var s2 := s1.(ptr := s1.ptr + 1, f := s1.f.(needComma := false));
      JsonPass1.CommaStep(s1, k); Advance(s1, s2);
      x := Members2(s2, k, ms, q);
    } else {
      x := NextMember2(s1, k, ms, q);
    }
  }

  /** The object `n` after the key of its next member has been entered. */
  function WithKey(n: Node, name: string): Node
    requires n.block.Members? && n.length < |n.block.entries| && n.objectMem + |name| + 1 <= |n.block.keys|
  {
    var es := n.block.entries;
    n.(objectMem := n.objectMem + |name| + 1,
       block := Members(es[n.length := es[n.length].(name := n.objectMem, nameLength := |name|)],
                        Splice(n.block.keys, n.objectMem, name + ['\0'])))
  }

  lemma KeyCloseStep2(s: State, k: nat)
    requires Writing(s) && Peek(s.text, s.ptr) == '"' && s.stringLength <= UINT_LIMIT
    requires s.top == At(k) && s.nodes[k].kind == KObject && s.nodes[k].block.Members?
    requires s.nodes[k].length < |s.nodes[k].block.entries|
    requires Store(s.nodes[k], s.stringLength, ['\0']).Got?
    ensures var n := Store(s.nodes[k], s.stringLength, ['\0']).value;
            && n.block.Members? && n.block.entries == s.nodes[k].block.entries
            && var e := n.block.entries[n.length].(name := n.objectMem, nameLength := s.stringLength);
              var n' := n.(block := Members(n.block.entries[n.length := e], n.block.keys),
                           objectMem := n.objectMem + s.stringLength + 1);
              Step(s) == Next(s.(ptr := s.ptr + 1, f := s.f.(str := false, seekValue := true, needColon := true),
                                 nodes := s.nodes[k := n']))
  {
    hide Run, Step, Main, AddBytes, EscapedChar;
    StringRound(s);
  }

  /** From the opening quote of a key to the value it names. */
  lemma Key2(s: State, k: nat) returns (s': State)
    requires Inside2(s, k) && s.nodes[k].kind == KObject && !s.f.needComma && Peek(s.text, s.ptr) == '"'
    requires ReadString(s.text, s.ptr + 1, 0).Ok?
    requires var r := ReadString(s.text, s.ptr + 1, 0); var n := s.nodes[k];
             && n.block.Members? && n.length < |n.block.entries| && n.objectMem + |r.value| + 1 <= |n.block.keys|
             && Peek(s.text, SkipSpace(s.text, r.next)) == ':'
    ensures var r := ReadString(s.text, s.ptr + 1, 0);
            && Ready2(s') && s'.ptr == SkipSpace(s.text, SkipSpace(s.text, r.next) + 1) && Run(s) == Run(s')
            && s' == s.(ptr := s'.ptr, f := s'.f, stringLength := s'.stringLength,
                        nodes := s.nodes[k := WithKey(s.nodes[k], r.value)])
            && ParentFits(s')
  {
    hide Run, Step, ReadString;
    var r := ReadString(s.text, s.ptr + 1, 0);
    var name, n := r.value, s.nodes[k];
    var s1 := s.(ptr := s.ptr + 1, f := s.f.(str := true), stringLength := 0);
    JsonPass1.KeyOpenStep(s, k); Advance(s, s1);
    var full := n.(block := Members(n.block.entries, Splice(n.block.keys, n.objectMem, name + ['\0'])));
    assert Store(n, 0, name + ['\0']) == Got(full);
    String2(s1);
    StoreTwice(n, 0, name, ['\0']);
    var s2 := Written(s1, name, r.next - 1);
    KeyCloseStep2(s2, k);
    var s3 := s2.(ptr := r.next, f := s2.f.(str := false, seekValue := true, needColon := true),
                  nodes := s.nodes[k := WithKey(n, name)]);
    assert s2.nodes[k := WithKey(n, name)] == s.nodes[k := WithKey(n, name)];
    Advance(s2, s3);
    hide Store, WithKey, Splice, Written;
    s' := Colon2(s3, k);
  }

  lemma Colon2(s: State, k: nat) returns (s': State)
    requires s.ptr <= |s.text| && Plain(s.f) && s.f.seekValue && s.f.needColon && !s.f.needComma
    requires s.top == At(k) && InContainer(s) && Peek(s.text, SkipSpace(s.text, s.ptr)) == ':'
    ensures s' == s.(ptr := SkipSpace(s.text, SkipSpace(s.text, s.ptr) + 1), f := s.f.(needColon := false))
    ensures Run(s) == Run(s')
  {
    hide Run, Step;
    Spaces(s);
    var s1 := s.(ptr := SkipSpace(s.text, s.ptr));
    var s2 := s1.(ptr := s1.ptr + 1, f := s1.f.(needColon := false));
    JsonPass1.ColonStep(s1); Advance(s1, s2);
    Spaces(s2);
    s' := s2.(ptr := SkipSpace(s.text, s2.ptr));
  }

  /** The object `n` with the member `m` entered, its value at `base`. */
  function WithMember(n: Node, m: Member, base: nat): Node
    requires n.block.Members? && n.length < |n.block.entries| && n.objectMem + |m.name| + 1 <= |n.block.keys|
  {
    var e := Entry(n.objectMem, |m.name|, At(base));
    n.(objectMem := n.objectMem + |m.name| + 1, length := n.length + 1,
       block := Members(n.block.entries[n.length := e], Splice(n.block.keys, n.objectMem, m.name + ['\0'])))
  }

  lemma WithMemberKeeps(n: Node, m: Member, base: nat)
    requires n.block.Members? && n.length < |n.block.entries| && n.objectMem + |m.name| + 1 <= |n.block.keys|
    ensures var n' := WithMember(n, m, base); n'.kind == n.kind && n'.parent == n.parent && n'.length == n.length + 1
  {
  }

  lemma RoomForMember(n: Node, ms: seq<Member>)
    requires ms != [] && RoomForMembers(n, ms)
    ensures n.block.Members? && n.length < |n.block.entries| && n.objectMem + |ms[0].name| + 1 <= |n.block.keys|
  {
  }

  /** First the key is entered, then the value attached. */
  lemma AttachMember(n: Node, m: Member, base: nat)
    requires n.kind == KObject
    requires n.block.Members? && n.length < |n.block.entries| && n.objectMem + |m.name| + 1 <= |n.block.keys|
    ensures var nk := WithKey(n, m.name);
            && nk.kind == n.kind && nk.parent == n.parent && nk.length == n.length
            && Attach(nk, At(base)) == Got(WithMember(n, m, base).(length := n.length))
  {
    hide Splice;
    var es := n.block.entries;
    var e := Entry(n.objectMem, |m.name|, At(base));
    var named := es[n.length].(name := n.objectMem, nameLength := |m.name|);
    assert es[n.length := named][n.length := e] == es[n.length := e];
  }

  /** An object with one more member has exactly the room for the others. */
  lemma OneMoreMember(n: Node, ms: seq<Member>, base: nat)
    requires n.kind == KObject && ms != [] && RoomForMembers(n, ms)
    requires n.block.Members? && n.length < |n.block.entries| && n.objectMem + |ms[0].name| + 1 <= |n.block.keys|
    ensures var n' := WithMember(n, ms[0], base);
            && RoomForMembers(n', ms[1..])
            && WithMembers(n', ms[1..], base + Size(ms[0].value)) == WithMembers(n, ms, base)
  {
    hide Size, WithMember;
    OneMoreRoom(n, ms, base);
    hide RoomForMembers, MemberEntries, KeyText;
    if ms[1..] == [] { LastMember(n, ms, base); } else { NotLastMember(n, ms, base); }
  }

  lemma OneMoreRoom(n: Node, ms: seq<Member>, base: nat)
    requires ms != [] && RoomForMembers(n, ms)
    requires n.block.Members? && n.length < |n.block.entries| && n.objectMem + |ms[0].name| + 1 <= |n.block.keys|
    ensures RoomForMembers(WithMember(n, ms[0], base), ms[1..])
  {
    hide Splice, MemberEntries;
    OneMoreKey(n.block.keys, n.objectMem, ms[0].name + ['\0'], KeyText(ms[1..]));
  }

  lemma LastMember(n: Node, ms: seq<Member>, base: nat)
    requires ms != [] && ms[1..] == [] && RoomForMembers(n, ms)
    requires n.block.Members? && n.length < |n.block.entries| && n.objectMem + |ms[0].name| + 1 <= |n.block.keys|
    ensures WithMember(n, ms[0], base) == WithMembers(n, ms, base)
  {
    hide Splice;
    MembersSplit(ms, n.objectMem, base);
    OneMoreKey(n.block.keys, n.objectMem, ms[0].name + ['\0'], "");
    OneMoreEntry(n.block.entries, n.length, Entry(n.objectMem, |ms[0].name|, At(base)), []);
    hide KeyText, MemberEntries, Size, Upto;
  }

  lemma NotLastMember(n: Node, ms: seq<Member>, base: nat)
    requires ms != [] && ms[1..] != [] && RoomForMembers(n, ms)
    requires n.block.Members? && n.length < |n.block.entries| && n.objectMem + |ms[0].name| + 1 <= |n.block.keys|
    requires RoomForMembers(WithMember(n, ms[0], base), ms[1..])
    ensures WithMembers(WithMember(n, ms[0], base), ms[1..], base + Size(ms[0].value)) == WithMembers(n, ms, base)
  {
    var name, rest := ms[0].name + ['\0'], ms[1..];
    var base' := base + Size(ms[0].value);
    var n' := WithMember(n, ms[0], base);
    var all, more := WithMembers(n, ms, base), WithMembers(n', rest, base');
    MembersSplit(ms, n.objectMem, base);
    assert more.block.keys == all.block.keys by {
      OneMoreKey(n.block.keys, n.objectMem, name, KeyText(rest));
    }
    assert more.block.entries == all.block.entries by {
      OneMoreEntry(n.block.entries, n.length, Entry(n.objectMem, |ms[0].name|, At(base)),
                   MemberEntries(rest, n.objectMem + |name|, base'));
    }
  }

  lemma MembersSplit(ms: seq<Member>, mem: nat, base: nat)
    requires ms != []
    ensures KeyText(ms) == ms[0].name + ['\0'] + KeyText(ms[1..])
    ensures MemberEntries(ms, mem, base)
         == [Entry(mem, |ms[0].name|, At(base))]
            + MemberEntries(ms[1..], mem + |ms[0].name| + 1, base + Size(ms[0].value))
    ensures ms[1..] == [] ==> KeyText(ms[1..]) == ""
    ensures ms[1..] == [] ==> MemberEntries(ms[1..], mem + |ms[0].name| + 1, base + Size(ms[0].value)) == []
  {
  }

  lemma OneMoreKey(ks: string, off: nat, name: string, more: string)
    requires off + |name| + |more| == |ks|
    ensures |Splice(ks, off, name)| == |ks|
    ensures Upto(Splice(ks, off, name), off + |name|, more) == Upto(ks, off, name + more)
    ensures more == "" ==> Splice(ks, off, name) == Upto(ks, off, name + more)
  {
  }

  lemma OneMoreEntry(es: seq<Entry>, k: nat, e: Entry, more: seq<Entry>)
    requires k + 1 + |more| == |es|
    ensures Upto(es[k := e], k + 1, more) == Upto(es, k, [e] + more)
    ensures more == [] ==> es[k := e] == Upto(es, k, [e] + more)
  {
  }

  lemma {:induction false} NextMember2(s: State, k: nat, ms: seq<Member>, q: nat) returns (x: State)
    requires Inside2(s, k) && s.nodes[k].kind == KObject && RoomForMembers(s.nodes[k], ms)
    requires Pending(s, MeasuredMembers(ms, At(k), s.alloc)) && !s.f.needComma
    requires !IsSpace(Peek(s.text, s.ptr)) && Peek(s.text, s.ptr) != '}'
    requires ReadMembers(s.text, s.ptr, false, s.nodes[k].length) == Ok(ms, q)
    ensures ClosedRest2(s, x, k, WithMembers(s.nodes[k], ms, s.alloc), LaidMembers(ms, At(k), s.alloc), q)
    decreases |s.text| - s.ptr, 2
  {
    hide Run, Step, Finish, ReadValue, ReadString, Measured, Laid, RoomForMembers, WithMembers, Attach, Size, Read2,
      WithKey, WithMember, ClosedRest2, Ready2, Known2, ReadMembers, ReadMember, LaidMembers, MeasuredMembers;
    var n := s.nodes[k];
    var m, p, rest := MembersHead(s.text, s.ptr, n.length, ms, q);
    NodesOfMembers(ms, At(k), s.alloc);
    FollowsMember(s.text, p, n.length + 1);
    RoomForMember(n, ms);
    OneMoreMember(n, ms, s.alloc);
    WithMemberKeeps(n, m, s.alloc);
    var later := MeasuredMembers(rest, At(k), s.alloc + Size(m.value));
    var s2 := OneMember2(s, k, m, p, later);
    x := Members2(s2, k, rest, q);
    Rejoin2(s, s2, x, k, WithMember(n, m, s.alloc), Laid(m.value, At(k), s.alloc), WithMembers(n, ms, s.alloc),
            LaidMembers(rest, At(k), s2.alloc), q);
  }

  lemma NodesOfMembers(ms: seq<Member>, parent: Link, base: nat)
    requires ms != []
    ensures var v := ms[0].value;
            && MeasuredMembers(ms, parent, base)
               == Measured(v, parent, base) + MeasuredMembers(ms[1..], parent, base + Size(v))
            && LaidMembers(ms, parent, base) == Laid(v, parent, base) + LaidMembers(ms[1..], parent, base + Size(v))
  {
  }

  /** The first member of a non-empty rest of an object, and what is left. */
  lemma MembersHead(t: string, p: nat, n: nat, ms: seq<Member>, q: nat) returns (m: Member, r: nat, rest: seq<Member>)
    requires p <= |t| && !IsSpace(Peek(t, p)) && Peek(t, p) != '}'
    requires ReadMembers(t, p, false, n) == Ok(ms, q)
    ensures Peek(t, p) == '"' && n + 1 <= UINT_LIMIT && p < r <= |t|
    ensures ReadMember(t, p) == Ok(m, r) && ReadMembers(t, r, true, n + 1) == Ok(rest, q)
    ensures ms != [] && ms[0] == m && ms[1..] == rest
  {
    m, r := ReadMember(t, p).value, ReadMember(t, p).next;
    rest := ReadMembers(t, r, true, n + 1).value;
    assert ms == [m] + rest;
    hide ReadMember;
  }

  /** The member `m`, key and value, is read into the object at `k`; `later` is what comes after it. */
  lemma {:induction false} OneMember2(s: State, k: nat, m: Member, p: nat, later: seq<Node>) returns (s2: State)
    requires Inside2(s, k) && s.nodes[k].kind == KObject && !s.f.needComma && Peek(s.text, s.ptr) == '"'
    requires Pending(s, Measured(m.value, At(k), s.alloc) + later)
    requires ReadMember(s.text, s.ptr) == Ok(m, p) && p <= |s.text| && !IsGreedy(Peek(s.text, p))
    requires s.nodes[k].length + 1 <= UINT_LIMIT
    requires var n := s.nodes[k];
             n.block.Members? && n.length < |n.block.entries| && n.objectMem + |m.name| + 1 <= |n.block.keys|
    ensures Inside2(s2, k) && Run(s) == Run(s2) && s2.ptr == p && s2.f.needComma && Pending(s2, later)
    ensures s.alloc + Size(m.value) + |later| <= |s.nodes|
    ensures s2.nodes[k] == WithMember(s.nodes[k], m, s.alloc)
    ensures s2 == s.(ptr := p, f := s2.f, alloc := s.alloc + Size(m.value), stringLength := s2.stringLength,
                     nodes := Splice(s.nodes[k := s2.nodes[k]], s.alloc, Laid(m.value, At(k), s.alloc)))
    decreases |s.text| - s.ptr, 1
  {
    hide Run, Step, Finish, ReadValue, ReadString, Measured, Laid, Attach, Size, Read2, WithKey, WithMember;
    var n := s.nodes[k];
    AttachMember(n, m, s.alloc);
    PendingSplit(s, Measured(m.value, At(k), s.alloc), later);
    var s1 := Key2(s, k);
    PendingBeyond(s, s1, k, WithKey(n, m.name), Measured(m.value, At(k), s.alloc));
    var y := Value2(s1, m.value, p);
    var n' := WithMember(n, m, s.alloc);
    WithMemberKeeps(n, m, s.alloc);
    s2 := GoOn2(s1, y, k, m.value, p, n');
    assert s1.nodes[k := n'] == s.nodes[k := n'];
    PendingLater(s.nodes, k, n', s.alloc, Laid(m.value, At(k), s.alloc), later);
  }

  /** Entering a key leaves the nodes still to come alone. */
  lemma PendingBeyond(s: State, s1: State, k: nat, nk: Node, m: seq<Node>)
    requires Pending(s, m) && k < s.alloc && s1.alloc == s.alloc && s1.nodes == s.nodes[k := nk]
    ensures Pending(s1, m)
  {
  }

  // ---------------------------------------------------------------- documents

  /** On the nodes pass 1 leaves, pass 2 accepts the same text and fills in every node. */
  lemma Pass2(text: string, junk: char, v: Json, q: nat)
    requires ReadDocument(text) == Ok(v, q)
    ensures Run(Start(text, false, junk, Measured(v, Null, 0))) == Accepted(At(0), Laid(v, Null, 0))
  {
    hide Run, Step, Finish, ReadValue, Measured, Laid;
    var m := Measured(v, Null, 0);
    var s := Start(text, false, junk, m);
    Spaces(s);
    var s1 := s.(ptr := SkipSpace(text, 0));
    assert m[0..|m|] == m;
    var x := Value2(s1, v, q);
    var l := Laid(v, Null, 0);
    assert Splice(m, 0, l) == l;
    HeadParent(v, Null, 0);
    JsonPass1.RootDone(x);
    var s2 := x.(ptr := q, f := x.f.(next := false, reproc := false, needComma := true, done := true));
    Spaces(s2);
    var s3 := s2.(ptr := SkipSpace(text, q));
    JsonPass1.EndStep(s3); Stop(s3);
  }
}
