/** The combinations of flags that can be met at the head of the loop of `json_parse_ex`, on every text: in the
    validating pass together with the kind of the value being read, and in both passes for the flags alone. */
module JsonFlags {
  import opened JsonText
  import opened JsonMachine
  import opened JsonRounds
  import opened Options

  predicate HasTop(s: State) {
    s.top.At? && s.top.i < |s.nodes|
  }

  /** Every enclosing value is an object or an array. */
  predicate Nested(nodes: seq<Node>) {
    forall i :: 0 <= i < |nodes| && nodes[i].parent.At? ==>
                  nodes[i].parent.i < |nodes| && IsContainer(nodes[nodes[i].parent.i].kind)
  }

  predicate Legal(s: State) {
    && s.first && Nested(s.nodes) && !s.f.next && !s.f.reproc
    && (s.top.At? ==> HasTop(s))
    && (s.f.escaped ==> s.f.str)
    && (s.f.str ==> !s.f.seekValue && !s.f.done && !s.f.needColon && !s.f.needComma && HasTop(s)
                    && s.nodes[s.top.i].kind in {KString, KObject})
    && (s.f.needColon ==> s.f.seekValue && !s.f.needComma && HasTop(s) && s.nodes[s.top.i].kind == KObject)
    && (s.f.done ==> !s.f.seekValue && HasTop(s))
    && (s.f.seekValue ==> s.top.At? ==> IsContainer(s.nodes[s.top.i].kind))
    && (s.f.seekValue && s.f.needComma ==> HasTop(s) && s.nodes[s.top.i].kind == KArray)
    && (!s.f.str && !s.f.done && !s.f.seekValue ==>
          HasTop(s) && s.nodes[s.top.i].kind in {KObject, KInteger, KDouble})
    && (HasTop(s) && IsNumber(s.nodes[s.top.i].kind) && !s.f.done ==> !s.f.needComma)
  }

  lemma StartIsLegal(text: string, junk: char)
    ensures Legal(Start(text, true, junk, []))
  {
  }

  /** Changing a node without moving it under another parent or turning a container into something else. */
  lemma NestedUpdate(nodes: seq<Node>, k: nat, n: Node)
    requires Nested(nodes) && k < |nodes| && n.parent == nodes[k].parent
    requires IsContainer(nodes[k].kind) ==> IsContainer(n.kind)
    ensures Nested(nodes[k := n])
  {
  }

  lemma NestedAppend(nodes: seq<Node>, n: Node)
    requires Nested(nodes) && (n.parent.At? ==> n.parent.i < |nodes| && IsContainer(nodes[n.parent.i].kind))
    ensures Nested(nodes + [n])
  {
  }

  /** What a round leaves at its bottom. */
  predicate LegalBottom(x: State) {
    && x.first && Nested(x.nodes) && HasTop(x) && !x.f.escaped && !x.f.done && !x.f.needColon && !x.f.seekValue
    && (x.f.next || x.f.str ==> !x.f.needComma) && (x.f.next ==> !x.f.str)
    && (!x.f.next ==> !x.f.reproc ==> x.nodes[x.top.i].kind == KObject)
    && (!x.f.next ==> x.f.reproc ==> !x.f.str && !x.f.needComma && IsNumber(x.nodes[x.top.i].kind))
  }

  predicate LegalOutcome(o: Outcome) {
    match o
    case Next(s') => Legal(s')
    case Bottom(x) => LegalBottom(x)
    case _ => true
  }

  lemma FinishLegal(x: State)
    requires LegalBottom(x)
    ensures !Finish(x).Bottom? && LegalOutcome(Finish(x))
  {
    hide Nested;
    if x.f.next && x.nodes[x.top.i].parent.At? {
      ParentIsContainer(x.nodes, x.top.i);
      var k := x.nodes[x.top.i].parent.i;
      NestedUpdate(x.nodes, k, x.nodes[k].(length := x.nodes[k].length + 1));
    }
  }

  lemma ParentIsContainer(nodes: seq<Node>, i: nat)
    requires Nested(nodes) && i < |nodes| && nodes[i].parent.At?
    ensures nodes[i].parent.i < |nodes| && IsContainer(nodes[nodes[i].parent.i].kind)
  {
  }

  lemma AddLegal(s: State, count: nat, data: string)
    requires Legal(s) && s.f.str
    ensures LegalOutcome(AddBytes(s, count, data)) && !AddBytes(s, count, data).Bottom?
  {
    hide Nested, Store;
  }

  lemma CloseLegal(s: State)
    requires Legal(s) && s.f.str && !s.f.escaped
    ensures LegalOutcome(CloseString(s))
    ensures CloseString(s).Bottom? ==>
              var x := CloseString(s).s; x.f.next && x.nodes[x.top.i].kind == KString
  {
    var n := s.nodes[s.top.i];
    NestedUpdate(s.nodes, s.top.i, n.(length := s.stringLength));
    if n.block.KeyBytes? {
      NestedUpdate(s.nodes, s.top.i, n.(block := KeyBytes(n.block.count + s.stringLength + 1)));
    }
    hide Nested, Store;
  }

  lemma StringLegal(s: State, b: char)
    requires Legal(s) && s.f.str
    ensures LegalOutcome(StringChar(s, b))
    ensures StringChar(s, b).Bottom? ==>
              var x := StringChar(s, b).s; x.f.next && x.nodes[x.top.i].kind == KString
  {
    var s' := s.(f := s.f.(escaped := false));
    if s.f.escaped {
      if b == 'u' {
        var r := UnicodeEscape(s'.text, s'.ptr);
        if r.Ok? { AddLegal(s'.(ptr := r.next - 1), Utf8Length(r.value), Utf8(r.value)); }
      } else {
        AddLegal(s', 1, [SimpleEscape(b)]);
      }
    } else if b == '"' {
      CloseLegal(s);
    } else {
      AddLegal(s, 1, [b]);
    }
    hide UnicodeEscape, Utf8, Utf8Length, SimpleEscape, AddBytes, CloseString, Nested;
  }

  lemma OpenLegal(s: State, kind: Kind)
    requires s.first && Nested(s.nodes) && (s.top.At? ==> HasTop(s) && IsContainer(s.nodes[s.top.i].kind))
    ensures var r := NewValue(s, kind);
            && r.Got? && Nested(r.value.nodes) && HasTop(r.value) && r.value.f == s.f && r.value.ptr == s.ptr
            && r.value.first && r.value.nodes[r.value.top.i].kind == kind
  {
    NestedAppend(s.nodes, Fresh(s.top, kind));
  }

  lemma SeekLegal(s: State, b: char)
    requires s.ptr <= |s.text| && Legal(s) && s.f.seekValue
    ensures LegalOutcome(Seek(s, b))
  {
    var s' := s.(f := s.f.(seekValue := false));
    if !IsSpace(b) && b != ']' && !s.f.needComma && !s.f.needColon { StartLegal(s', b); }
    hide StartValue, Nested;
  }

  lemma StartLegal(s: State, b: char)
    requires s.ptr <= |s.text| && s.first && Nested(s.nodes)
    requires s.top.At? ==> HasTop(s) && IsContainer(s.nodes[s.top.i].kind)
    requires !s.f.next && !s.f.reproc && !s.f.escaped && !s.f.str && !s.f.needColon && !s.f.done
    requires !s.f.seekValue && !s.f.needComma
    ensures LegalOutcome(StartValue(s, b))
  {
    hide Nested, NewValue;
    match b {
      case '{' => OpenLegal(s, KObject);
      case '[' => OpenLegal(s, KArray);
      case '"' => OpenLegal(s, KString);
      case 't' => WordLegal(s, "true", KBoolean, 1);
      case 'f' => WordLegal(s, "false", KBoolean, 0);
      case 'n' => WordLegal(s, "null", KNull, 0);
      case _ => OpenLegal(s, KInteger);
    }
    hide Word;
  }

  lemma WordLegal(s: State, word: string, kind: Kind, scalar: int)
    requires |word| > 0 && s.first && Nested(s.nodes)
    requires s.top.At? ==> HasTop(s) && IsContainer(s.nodes[s.top.i].kind)
    requires !s.f.next && !s.f.reproc && !s.f.escaped && !s.f.str && !s.f.needColon && !s.f.done
    requires !s.f.seekValue && !s.f.needComma && kind in {KBoolean, KNull}
    ensures LegalOutcome(Word(s, word, kind, scalar))
  {
    var s1 := s.(ptr := s.ptr + |word| - 1);
    OpenLegal(s1, kind);
    var s2 := NewValue(s1, kind).value;
    var n := s2.nodes[s2.top.i];
    NestedUpdate(s2.nodes, s2.top.i, n);
    NestedUpdate(s2.nodes, s2.top.i, n.(scalar := scalar));
    hide Nested, NewValue;
  }

  lemma NumberLegal(s: State, b: char)
    requires Legal(s) && !s.f.str && !s.f.done && !s.f.seekValue && IsNumber(s.nodes[s.top.i].kind)
    ensures LegalOutcome(InNumber(s, s.top.i, b))
  {
    var t := s.top.i;
    forall n: Node | n.parent == s.nodes[t].parent ensures Nested(s.nodes[t := n]) {
      NestedUpdate(s.nodes, t, n);
    }
    assert s.nodes[t := s.nodes[t]] == s.nodes;
    hide Nested, Wrap64, HasTop;
  }

  lemma InsideLegal(s: State, b: char)
    requires Legal(s) && !s.f.str && !s.f.done && !s.f.seekValue
    ensures LegalOutcome(Inside(s, b))
  {
    if s.nodes[s.top.i].kind != KObject { NumberLegal(s, b); }
    hide Nested, InNumber;
  }

  /** From a legal state a round of the loop leads to a legal state: an escape is pending only inside a string, a
      colon only while an object seeks the value of a key, a comma is never pending inside a string or a number,
      and `flag_next` and `flag_reproc` are always consumed. */
  lemma RoundKeepsLegal(s: State)
    requires s.ptr <= |s.text| && Legal(s)
    ensures Step(s).Next? ==> Legal(Step(s).s)
    ensures !Step(s).Bottom?
  {
    var b := Peek(s.text, s.ptr);
    if s.f.str {
      StringLegal(s, b);
      var o := StringChar(s, b);
      if o.Bottom? {
        FinishLegal(o.s);
        assert Main(o.s, b) == Bottom(o.s);
      }
    } else {
      if !s.f.done {
        if s.f.seekValue { SeekLegal(s, b); } else { InsideLegal(s, b); }
      }
      var o := Main(s, b);
      if o.Bottom? { FinishLegal(o.s); }
    }
    hide StringChar, Seek, Inside, Finish;
  }

  // ---------------------------------------------------------------- both passes

  /** The part of a legal state that concerns the flags alone, in either pass. */
  predicate FlagsLegal(s: State) {
    && !s.f.next && !s.f.reproc && (s.f.escaped ==> s.f.str)
    && (s.f.str ==> !s.f.seekValue && !s.f.done && !s.f.needColon && !s.f.needComma)
    && (s.f.needColon ==> s.f.seekValue && !s.f.needComma && HasTop(s) && s.nodes[s.top.i].kind == KObject)
    && (s.f.done ==> !s.f.seekValue)
  }

  /** What reaches the bottom of a round. */
  predicate FlagsAtBottom(x: State) {
    !x.f.escaped && !x.f.done && !x.f.needColon && !x.f.seekValue && (x.f.str ==> !x.f.next && !x.f.needComma)
  }

  predicate FlagsAfter(o: Outcome) {
    match o
    case Next(s') => FlagsLegal(s')
    case Bottom(x) => FlagsAtBottom(x)
    case _ => true
  }

  lemma FlagsAdding(s: State, count: nat, data: string)
    requires FlagsLegal(s) && s.f.str
    ensures FlagsAfter(AddBytes(s, count, data)) && !AddBytes(s, count, data).Bottom?
  {
    hide Store;
  }

  lemma FlagsAtKey(s: State, t: nat, n: Node)
    requires t < |s.nodes| && s.top == At(t) && n.kind == KObject
    requires !s.f.next && !s.f.reproc && !s.f.escaped && !s.f.str && !s.f.needComma && !s.f.done
    ensures FlagsAfter(CloseKey(s, t, n)) && !CloseKey(s, t, n).Bottom?
  {
  }

  lemma FlagsClosing(s: State)
    requires FlagsLegal(s) && s.f.str && !s.f.escaped
    ensures FlagsAfter(CloseString(s))
    ensures CloseString(s).Bottom? ==>
              var x := CloseString(s).s;
              && !x.f.str && !x.f.reproc && (x.f.next ==> HasTop(x) && x.nodes[x.top.i].kind == KString)
  {
    hide Store, CloseKey;
    if HasTop(s) {
      var t := s.top.i;
      var ended := if s.first then Got(s.nodes[t]) else Store(s.nodes[t], s.stringLength, ['\0']);
      if ended.Got? && ended.value.kind == KObject { FlagsAtKey(s.(f := s.f.(str := false)), t, ended.value); }
    }
  }

  lemma FlagsInString(s: State, b: char)
    requires FlagsLegal(s) && s.f.str
    ensures FlagsAfter(StringChar(s, b))
    ensures StringChar(s, b).Bottom? ==>
              var x := StringChar(s, b).s;
              && !x.f.str && !x.f.reproc && (x.f.next ==> HasTop(x) && x.nodes[x.top.i].kind == KString)
  {
    hide AddBytes, CloseString, UnicodeEscape, SimpleEscape, Utf8, Utf8Length;
    var s' := s.(f := s.f.(escaped := false));
    if s.f.escaped {
      if b == 'u' {
        var r := UnicodeEscape(s'.text, s'.ptr);
        if r.Ok? { FlagsAdding(s'.(ptr := r.next - 1), Utf8Length(r.value), Utf8(r.value)); }
      } else {
        FlagsAdding(s', 1, [SimpleEscape(b)]);
      }
    } else if b == '"' {
      FlagsClosing(s);
    } else {
      FlagsAdding(s, 1, [b]);
    }
  }

  lemma NewValueKeepsFlags(s: State, kind: Kind)
    requires NewValue(s, kind).Got?
    ensures NewValue(s, kind).value.f == s.f
  {
    hide Allocate;
  }

  lemma FlagsAtStart(s: State, b: char)
    requires s.ptr <= |s.text| && !s.f.next && !s.f.reproc && !s.f.escaped && !s.f.str && !s.f.needColon && !s.f.done
    requires !s.f.seekValue && !s.f.needComma
    ensures FlagsAfter(StartValue(s, b))
  {
    hide NewValue;
    forall x: State, k: Kind | x.f == s.f && NewValue(x, k).Got? ensures NewValue(x, k).value.f == s.f {
      NewValueKeepsFlags(x, k);
    }
  }

  lemma FlagsSeeking(s: State, b: char)
    requires s.ptr <= |s.text| && FlagsLegal(s) && s.f.seekValue
    ensures FlagsAfter(Seek(s, b))
  {
    var s' := s.(f := s.f.(seekValue := false));
    if !s.f.needComma && !s.f.needColon { FlagsAtStart(s', b); }
    hide StartValue;
  }

  /** Flags that neither seek, nor read a string, nor are done. */
  predicate FlagsInside(s: State) {
    !s.f.next && !s.f.reproc && !s.f.escaped && !s.f.str && !s.f.seekValue && !s.f.needColon && !s.f.done
  }

  lemma FlagsInNumber(s: State, t: nat, b: char)
    requires FlagsInside(s) && t < |s.nodes|
    ensures FlagsAfter(InNumber(s, t, b))
  {
    hide Wrap64, HasTop;
  }

  lemma FlagsWithin(s: State, b: char)
    requires FlagsInside(s)
    ensures FlagsAfter(Inside(s, b))
  {
    if HasTop(s) && s.nodes[s.top.i].kind != KObject { FlagsInNumber(s, s.top.i, b); }
    hide InNumber;
  }

  lemma FlagsAttached(s: State, k: nat)
    requires k < |s.nodes| && FlagsLegal(s) && !s.f.seekValue && !s.f.str && !s.f.done
    ensures FlagsAfter(HandOver(s, k)) && !HandOver(s, k).Bottom?
  {
    hide Attach;
  }

  lemma FlagsAtEnd(x: State)
    requires FlagsAtBottom(x)
    ensures FlagsAfter(Finish(x)) && !Finish(x).Bottom?
  {
    var x' := Landed(x);
    assert FlagsLegal(x') && !x'.f.seekValue && !x'.f.done && (x.f.next ==> !x'.f.str);
    if x.f.next && HasTop(x) && x.nodes[x.top.i].parent.At? && x.nodes[x.top.i].parent.i < |x.nodes| {
      FlagsAttached(x', x.nodes[x.top.i].parent.i);
    }
    hide HandOver, Landed;
  }

  lemma FlagsInMain(s: State, b: char)
    requires s.ptr <= |s.text| && !s.f.str && (FlagsLegal(s) || FlagsInside(s))
    ensures FlagsAfter(Main(s, b))
  {
    if s.f.done {
    } else if s.f.seekValue {
      FlagsSeeking(s, b);
    } else {
      FlagsWithin(s, b);
    }
    hide Seek, Inside;
  }

  lemma EndedString(s: State, b: char)
    requires s.ptr <= |s.text| && !s.f.done && !s.f.seekValue && HasTop(s) && s.nodes[s.top.i].kind == KString
    ensures Main(s, b) == Bottom(s)
  {
  }

  /** In either pass, whatever the nodes hold, a round leads from legal flags to legal flags. */
  lemma RoundKeepsFlags(s: State)
    requires s.ptr <= |s.text| && FlagsLegal(s)
    ensures Step(s).Next? ==> FlagsLegal(Step(s).s)
    ensures !Step(s).Bottom?
  {
    var b := Peek(s.text, s.ptr);
    hide StringChar, Main, Finish, HasTop;
    if s.f.str {
      FlagsInString(s, b);
      var o := StringChar(s, b);
      if o.Bottom? {
        if o.s.ptr <= |o.s.text| {
          if o.s.f.next { EndedString(o.s, b); } else { FlagsInMain(o.s, b); }
          var o' := Main(o.s, b);
          if o'.Bottom? { FlagsAtEnd(o'.s); }
        } else {
          FlagsAtEnd(o.s);
        }
      }
    } else {
      FlagsInMain(s, b);
      var o := Main(s, b);
      if o.Bottom? { FlagsAtEnd(o.s); }
    }
  }

  // ---------------------------------------------------------------- every loop head

  /** The state at the head of the loop after `k` rounds, if the loop gets that far. */
  function After(s: State, k: nat): Option<State>
    decreases k
  {
    if k == 0 then Some(s)
    else if s.ptr <= |s.text| && Step(s).Next? then After(Step(s).s, k - 1)
    else None
  }

  lemma {:induction false} FlagsAfterRounds(s: State, k: nat)
    requires FlagsLegal(s) && After(s, k).Some?
    ensures FlagsLegal(After(s, k).value)
    decreases k
  {
    hide Step, FlagsLegal;
    if k == 0 {
    } else {
      RoundKeepsFlags(s);
      FlagsAfterRounds(Step(s).s, k - 1);
    }
  }

  lemma {:induction false} LegalAfterRounds(s: State, k: nat)
    requires Legal(s) && After(s, k).Some?
    ensures Legal(After(s, k).value)
    decreases k
  {
    hide Step, Legal;
    if k == 0 {
    } else {
      RoundKeepsLegal(s);
      LegalAfterRounds(Step(s).s, k - 1);
    }
  }

  /** At every head of the loop, in either pass, on every text and with any nodes to fill: the flags are legal. */
  lemma FlagsAlwaysLegal(text: string, first: bool, junk: char, nodes: seq<Node>, k: nat)
    ensures var r := After(Start(text, first, junk, nodes), k); r.Some? ==> FlagsLegal(r.value)
  {
    var s := Start(text, first, junk, nodes);
    assert FlagsLegal(s);
    hide Start, FlagsLegal, After;
    if After(s, k).Some? { FlagsAfterRounds(s, k); }
  }

  /** And in the validating pass they fit the value that is being read. */
  lemma StateAlwaysLegal(text: string, junk: char, k: nat)
    ensures var r := After(Start(text, true, junk, []), k); r.Some? ==> Legal(r.value)
  {
    var s := Start(text, true, junk, []);
    StartIsLegal(text, junk);
    hide Start, Legal, After;
    if After(s, k).Some? { LegalAfterRounds(s, k); }
  }
}
