/** The character-level state machine of `json_parse_ex` (src/common/json.c), one function per part of the
    loop body.  A `json_value *` is the position of the node in allocation order, so the chain
    `_reserved.next_alloc` runs through successive positions. */
module JsonMachine {
  import opened JsonText

  datatype Kind = KObject | KArray | KInteger | KDouble | KString | KBoolean | KNull

  datatype Link = Null | At(i: nat)

  /** A `json_object_entry`; `name` is an offset into the key area. */
  datatype Entry = Entry(name: nat, nameLength: nat, value: Link)

  /** What the pointer inside the union of a `json_value` holds.  In pass 1 the `values` pointer of an object
      counts the bytes of its keys; in pass 2 it points to the entries, which the key area follows. */
  datatype Block =
    | NoBlock
    | KeyBytes(count: nat)
    | Chars(chars: string)
    | Items(items: seq<Link>)
    | Members(entries: seq<Entry>, keys: string)

  /** A `json_value`.  `scalar` is the integer or boolean; the value of a double is not modelled.
      `objectMem` is the offset in the key area where the next key goes. */
  datatype Node = Node(parent: Link, kind: Kind, length: nat, scalar: int, block: Block, objectMem: nat)

  /** The bits of `flags`; comments are never enabled by `json_parse`. */
  datatype Flags = Flags(
    next: bool, reproc: bool, needComma: bool, seekValue: bool, escaped: bool, str: bool, needColon: bool, done: bool,
    numNegative: bool, numZero: bool, numE: bool, numEGotSign: bool, numENegative: bool)

  const START_FLAGS := Flags(false, false, false, true, false, false, false, false, false, false, false, false, false)

  datatype State = State(
    text: string,        // the bytes between `json` and `end`
    first: bool,         // first_pass
    junk: char,          // what freshly allocated memory happens to hold
    ptr: nat, f: Flags, top: Link, root: Link,
    alloc: nat,          // pass 2: the next value of the chain
    nodes: seq<Node>, stringLength: nat, numDigits: nat)

  /** Where one round of the loop ends up: `Next` starts the next round, `Bottom` reaches the code after the
      switches, and `Crash` is an access outside the allocated memory or through a null pointer. */
  datatype Outcome = Next(s: State) | Bottom(s: State) | Accept(s: State) | Fail | Crash

  function Forward(s: State): Outcome {
    Next(s.(ptr := s.ptr + 1))
  }

  // ---------------------------------------------------------------- strings

  /** Writes `data` into the string or key being read, `off` bytes after its start. */
  function Store(n: Node, off: nat, data: string): (r: Attempt<Node>)
    ensures r.Got? ==> r.value.kind == n.kind && r.value.parent == n.parent && r.value.length == n.length
  {
    match n.block
    case Chars(cs) =>
      if n.kind == KString && off + |data| <= |cs| then Got(n.(block := Chars(Splice(cs, off, data)))) else Bad
    case Members(es, ks) =>
      if n.kind == KObject && n.objectMem + off + |data| <= |ks|
      then Got(n.(block := Members(es, Splice(ks, n.objectMem + off, data)))) else Bad
    case _ => Bad
  }

  datatype Attempt<+T> = Got(value: T) | Bad

  /** `string_add` and the UTF-8 writes: pass 1 counts, pass 2 stores. */
  function AddBytes(s: State, count: nat, data: string): Outcome {
    if s.first then Forward(s.(stringLength := s.stringLength + count))
    else if s.top.At? && s.top.i < |s.nodes| then
      match Store(s.nodes[s.top.i], s.stringLength, data)
      case Bad => Crash
      case Got(n) => Forward(s.(nodes := s.nodes[s.top.i := n], stringLength := s.stringLength + |data|))
    else Crash
  }

  function EscapedChar(s: State, b: char): Outcome {
    if b == 'u' then
      match UnicodeEscape(s.text, s.ptr)
      case Err => Fail
      case Ok(u, next) => AddBytes(s.(ptr := next - 1), Utf8Length(u), Utf8(u))
    else AddBytes(s, 1, [SimpleEscape(b)])
  }

  /** The closing quote: a string value is complete, a key is entered in its object. */
  function CloseString(s: State): Outcome {
    if !(s.top.At? && s.top.i < |s.nodes|) then Crash
    else
      var t := s.top.i;
      var ended := if s.first then Got(s.nodes[t]) else Store(s.nodes[t], s.stringLength, ['\0']);
      if ended.Bad? then Crash
      else
        var n := ended.value;
        var s' := s.(f := s.f.(str := false));
        match n.kind
        case KString =>
          Bottom(s'.(nodes := s.nodes[t := n.(length := s.stringLength)], f := s'.f.(next := true)))
        case KObject => CloseKey(s', t, n)
        case _ => Bottom(s')
  }

  function CloseKey(s: State, t: nat, n: Node): Outcome
    requires t < |s.nodes|
  {
    var s' := s.(f := s.f.(seekValue := true, needColon := true));
    match n.block
    case KeyBytes(count) =>
      if s.first then Forward(s'.(nodes := s.nodes[t := n.(block := KeyBytes(count + s.stringLength + 1))])) else Crash
    case Members(es, ks) =>
      if !s.first && n.length < |es| then
        var e := es[n.length].(name := n.objectMem, nameLength := s.stringLength);
        Forward(s'.(nodes := s.nodes[t := n.(block := Members(es[n.length := e], ks),
                                             objectMem := n.objectMem + s.stringLength + 1)]))
      else Crash
    case _ => Crash
  }

  function StringChar(s: State, b: char): Outcome {
    if b == '\0' || s.stringLength > UINT_LIMIT then Fail
    else if s.f.escaped then EscapedChar(s.(f := s.f.(escaped := false)), b)
    else if b == '\\' then Forward(s.(f := s.f.(escaped := true)))
    else if b == '"' then CloseString(s)
    else AddBytes(s, 1, [b])
  }

  // ---------------------------------------------------------------- values

  /** The memory `new_value` hangs below a node in pass 2, sized by what pass 1 measured. */
  function Allocate(n: Node, junk: char): Node {
    match n.kind
    case KArray => if n.length == 0 then n else n.(block := Items(Fill(n.length, Null)), length := 0)
    case KObject =>
      if n.length == 0 then n
      else
        var keyBytes := if n.block.KeyBytes? then n.block.count else 0;
        n.(block := Members(Fill(n.length, Entry(0, 0, Null)), Fill(keyBytes, junk)), objectMem := 0, length := 0)
    case KString => n.(block := Chars(Fill(n.length + 1, junk)), length := 0)
    case _ => n
  }

  function Fresh(parent: Link, kind: Kind): Node {
    Node(parent, kind, 0, 0, if kind == KObject then KeyBytes(0) else NoBlock, 0)
  }

  /** `new_value`: pass 1 appends a zeroed node, pass 2 takes the next one off the chain. */
  function NewValue(s: State, kind: Kind): (r: Attempt<State>)
    ensures r.Got? ==> r.value.top.At? && r.value.top.i < |r.value.nodes| && r.value.text == s.text
  {
    if s.first then
      var v := |s.nodes|;
      Got(s.(nodes := s.nodes + [Fresh(s.top, kind)], top := At(v), root := if s.root.Null? then At(v) else s.root))
    else if s.alloc < |s.nodes| then
      Got(s.(nodes := s.nodes[s.alloc := Allocate(s.nodes[s.alloc], s.junk)], top := At(s.alloc), alloc := s.alloc + 1,
             root := if s.root.Null? then At(s.alloc) else s.root))
    else Bad
  }

  /** `true`, `false` and `null`: the whole word must be there before the node is made. */
  function Word(s: State, word: string, kind: Kind, scalar: int): Outcome
    requires |word| > 0
  {
    if |s.text| - s.ptr < |word| - 1 || exists i :: 1 <= i < |word| && Peek(s.text, s.ptr + i) != word[i] then Fail
    else WordValue(s.(ptr := s.ptr + |word| - 1), kind, scalar)
  }

  function WordValue(s: State, kind: Kind, scalar: int): Outcome {
    match NewValue(s, kind)
    case Bad => Crash
    case Got(s') =>
      var n := s'.nodes[s'.top.i];
      Bottom(s'.(nodes := s'.nodes[s'.top.i := if scalar == 0 then n else n.(scalar := scalar)],
                 f := s'.f.(next := true)))
  }

  function StartNumber(s: State, b: char): Outcome
    requires s.ptr <= |s.text|
  {
    match NewValue(s, KInteger)
    case Bad => Crash
    case Got(s') =>
      if !s.first then
        Bottom(s'.(ptr := SkipGreedy(s'.text, s'.ptr), f := s'.f.(next := true, reproc := true)))
      else
        var f := s'.f.(numNegative := false, numE := false, numEGotSign := false, numENegative := false,
                       numZero := false);
        if b != '-' then Bottom(s'.(f := f.(reproc := true), numDigits := 0))
        else Forward(s'.(f := f.(numNegative := true), numDigits := 0))
  }

  function StartValue(s: State, b: char): Outcome
    requires s.ptr <= |s.text|
  {
    match b
    case '{' => (match NewValue(s, KObject) case Bad => Crash case Got(s') => Forward(s'))
    case '[' =>
      (match NewValue(s, KArray) case Bad => Crash case Got(s') => Forward(s'.(f := s'.f.(seekValue := true))))
    case '"' =>
      (match NewValue(s, KString) case Bad => Crash
       case Got(s') => Forward(s'.(f := s'.f.(str := true), stringLength := 0)))
    case 't' => Word(s, "true", KBoolean, 1)
    case 'f' => Word(s, "false", KBoolean, 0)
    case 'n' => Word(s, "null", KNull, 0)
    case _ => if IsDigit(b) || b == '-' then StartNumber(s, b) else Fail
  }

  /** The part of the loop body under `flag_seek_value`. */
  function Seek(s: State, b: char): Outcome
    requires s.ptr <= |s.text|
  {
    if IsSpace(b) then Forward(s)
    else if b == ']' then
      if s.top.At? && s.top.i < |s.nodes| && s.nodes[s.top.i].kind == KArray
      then Bottom(s.(f := s.f.(needComma := false, seekValue := false, next := true))) else Fail
    else if s.f.needComma then
      if b == ',' then Forward(s.(f := s.f.(needComma := false))) else Fail
    else if s.f.needColon then
      if b == ':' then Forward(s.(f := s.f.(needColon := false))) else Fail
    else StartValue(s.(f := s.f.(seekValue := false)), b)
  }

  // ---------------------------------------------------------------- inside a container or a number

  function InObject(s: State, b: char): Outcome {
    if IsSpace(b) then Forward(s)
    else if b == '"' then
      if s.f.needComma then Fail else Bottom(s.(f := s.f.(str := true), stringLength := 0))
    else if b == '}' then Bottom(s.(f := s.f.(needComma := false, next := true)))
    else if b == ',' && s.f.needComma then Bottom(s.(f := s.f.(needComma := false)))
    else Fail
  }

  function NumberDigit(s: State, t: nat, b: char): Outcome
    requires t < |s.nodes| && IsDigit(b)
  {
    var n := s.nodes[t];
    var s' := s.(numDigits := s.numDigits + 1);
    if s.f.numE then Forward(s'.(f := s.f.(numEGotSign := true)))
    else if n.kind == KInteger then
      if s.f.numZero then Fail
      else
        Forward(s'.(f := s.f.(numZero := s'.numDigits == 1 && b == '0'),
                    nodes := s.nodes[t := n.(scalar := Wrap64(n.scalar * 10 + DigitValue(b)))]))
    else Forward(s')
  }

  /** The number is over: the byte is looked at again by the enclosing value. */
  function EndNumber(s: State, t: nat): Outcome
    requires t < |s.nodes|
  {
    var n := s.nodes[t];
    var n' := if s.f.numNegative && n.kind == KInteger then n.(scalar := Wrap64(-n.scalar)) else n;
    Bottom(s.(f := s.f.(next := true, reproc := true), nodes := s.nodes[t := n']))
  }

  function InNumber(s: State, t: nat, b: char): Outcome
    requires t < |s.nodes|
  {
    var n := s.nodes[t];
    var double := n.(kind := KDouble, scalar := 0);
    if IsDigit(b) then NumberDigit(s, t, b)
    else if (b == '+' || b == '-') && s.f.numE && !s.f.numEGotSign then
      Forward(s.(f := s.f.(numEGotSign := true, numENegative := s.f.numENegative || b == '-')))
    else if b == '.' && n.kind == KInteger then
      if s.numDigits == 0 then Fail else Forward(s.(nodes := s.nodes[t := double], numDigits := 0))
    else if s.f.numE then
      if s.numDigits == 0 then Fail else EndNumber(s, t)
    else if n.kind == KDouble && s.numDigits == 0 then Fail
    else if b == 'e' || b == 'E' then
      Forward(s.(f := s.f.(numE := true, numZero := false), nodes := s.nodes[t := double], numDigits := 0))
    else EndNumber(s, t)
  }

  function Inside(s: State, b: char): Outcome {
    if !(s.top.At? && s.top.i < |s.nodes|) then Crash
    else
      match s.nodes[s.top.i].kind
      case KObject => InObject(s, b)
      case KInteger => InNumber(s, s.top.i, b)
      case KDouble => InNumber(s, s.top.i, b)
      case _ => Bottom(s)
  }

  // ---------------------------------------------------------------- one round of the loop

  /** Pass 2: the container notes its new child. */
  function Attach(n: Node, child: Link): Attempt<Node> {
    match n.kind
    case KObject =>
      if n.block.Members? && n.length < |n.block.entries|
      then
        var es := n.block.entries;
        Got(n.(block := Members(es[n.length := es[n.length].(value := child)], n.block.keys)))
      else Bad
    case KArray =>
      if n.block.Items? && n.length < |n.block.items|
      then Got(n.(block := Items(n.block.items[n.length := child]))) else Bad
    case _ => Got(n)
  }

  /** The code after the switches: step back for `flag_reproc`, hand a finished value to its parent for
      `flag_next`. */
  function Finish(s: State): Outcome {
    var s' := Landed(s);
    if !s.f.next then Next(s')
    else if !(s.top.At? && s.top.i < |s.nodes|) then Crash
    else
      match s.nodes[s.top.i].parent
      case Null => Next(s'.(f := s'.f.(done := true)))
      case At(k) => if k < |s.nodes| then HandOver(s', k) else Crash
  }

  /** `flag_reproc` and `flag_next` are consumed; a finished value leaves a comma to be expected. */
  function Landed(s: State): State {
    s.(ptr := if s.f.reproc then s.ptr else s.ptr + 1,
       f := s.f.(reproc := false, next := false, needComma := s.f.needComma || s.f.next))
  }

  function HandOver(s: State, k: nat): Outcome
    requires k < |s.nodes|
  {
    var attached := if s.first then Got(s.nodes[k]) else Attach(s.nodes[k], s.top);
    if attached.Bad? then Crash
    else if attached.value.length + 1 > UINT_LIMIT then Fail
    else
      var n := attached.value.(length := attached.value.length + 1);
      Next(s.(nodes := s.nodes[k := n], top := At(k), f := s.f.(seekValue := s.f.seekValue || n.kind == KArray)))
  }

  function Main(s: State, b: char): Outcome
    requires s.ptr <= |s.text|
  {
    if s.f.done then (if b == '\0' then Accept(s) else if IsSpace(b) then Forward(s) else Fail)
    else if s.f.seekValue then Seek(s, b)
    else Inside(s, b)
  }

  /** One round of the loop over `state.ptr`. */
  function Step(s: State): Outcome
    requires s.ptr <= |s.text|
  {
    var b := Peek(s.text, s.ptr);
    var o := if s.f.str then StringChar(s, b) else Main(s, b);
    match o
    case Bottom(s') =>
      // a closing quote falls through to the switches below it
      var o' := if s.f.str && s'.ptr <= |s'.text| then Main(s', b) else o;
      if o'.Bottom? then Finish(o'.s) else o'
    case _ => o
  }

  // ---------------------------------------------------------------- a whole pass

  datatype Verdict = Accepted(root: Link, nodes: seq<Node>) | Rejected | Crashed | Diverged

  predicate IsNumber(k: Kind) {
    k == KInteger || k == KDouble
  }

  /** Orders the rounds spent at one byte: a value is sought, then a number starts, then it ends. */
  function Rank(s: State): nat {
    if s.f.str || s.f.done then 0
    else if s.f.seekValue then (if s.f.needComma then 0 else 2)
    else if s.top.At? && s.top.i < |s.nodes| && IsNumber(s.nodes[s.top.i].kind) then 1 else 0
  }

  function Measure(s: State): int {
    3 * (|s.text| - s.ptr) + Rank(s)
  }

  /** The loop run to its end.  A round that makes no progress would be reported as `Diverged`. */
  function Run(s: State): Verdict
    requires s.ptr <= |s.text|
    decreases Measure(s)
  {
    match Step(s)
    case Next(s') =>
      if s'.ptr <= |s'.text| && Measure(s') < Measure(s) then Run(s') else Diverged
    case Bottom(_) => Diverged
    case Accept(s') => Accepted(s'.root, s'.nodes)
    case Fail => Rejected
    case Crash => Crashed
  }

  function Start(text: string, first: bool, junk: char, nodes: seq<Node>): State {
    State(text, first, junk, 0, START_FLAGS, Null, Null, 0, nodes, 0, 0)
  }

  /** `json_parse_ex` after the byte order mark: both passes. */
  function TwoPasses(text: string, junk: char): Verdict {
    match Run(Start(text, true, junk, []))
    case Accepted(_, measured) => Run(Start(text, false, junk, measured))
    case v => v
  }

  const BYTE_ORDER_MARK: string := [0xEF as char, 0xBB as char, 0xBF as char]

  function SkipMark(text: string): string {
    if BYTE_ORDER_MARK <= text then text[3..] else text
  }

  function ParseEx(text: string, junk: char): Verdict {
    TwoPasses(SkipMark(text), junk)
  }
}
