/** `json_parse_ex` (src/common/json.c) in its own form: one object holds the state the loop updates, one method
    per part of the loop body.  Each method does what the function of the same name in JsonMachine says. */
module JsonParser {
  import opened JsonText
  import opened JsonMachine
  import opened JsonGrammar
  import opened JsonLayout
  import JsonPass1
  import JsonPass2

  /** How a piece of the loop body ends. */
  datatype Exit = Continue | FallThrough | EndOfPass | Failed | Faulted

  ghost predicate Reflects(e: Exit, s: State, o: Outcome) {
    match e
    case Continue => o == Next(s)
    case FallThrough => o == Bottom(s)
    case EndOfPass => o == Accept(s)
    case Failed => o == Outcome.Fail
    case Faulted => o == Crash
  }

  class Parser {
    const text: string
    const junk: char
    var first: bool
    var ptr: nat
    var f: Flags
    var top: Link
    var root: Link
    var alloc: nat
    var nodes: seq<Node>
    var stringLength: nat
    var numDigits: nat

    constructor (text: string, junk: char)
      ensures this.text == text && this.junk == junk && State() == Start(text, true, junk, [])
    {
      this.text, this.junk := text, junk;
      first, ptr, f, top, root, alloc := true, 0, START_FLAGS, Null, Null, 0;
      nodes, stringLength, numDigits := [], 0, 0;
    }

    ghost function State(): State
      reads this
    {
      JsonMachine.State(text, first, junk, ptr, f, top, root, alloc, nodes, stringLength, numDigits)
    }

    /** Does `top` point to a value? */
    predicate HasTop()
      reads this
    {
      top.At? && top.i < |nodes|
    }

    // ------------------------------------------------------------ strings

    /** Writes `data` after the `stringLength` bytes of the string or key read so far. */
    method StoreBytes(data: string) returns (ok: bool)
      requires HasTop()
      modifies this`nodes
      ensures var r := Store(old(nodes)[top.i], stringLength, data);
              ok == r.Got? && nodes == if ok then old(nodes)[top.i := r.value] else old(nodes)
    {
      var n := nodes[top.i];
      ok := false;
      match n.block {
        case Chars(cs) =>
          if n.kind == KString && stringLength + |data| <= |cs| {
            nodes := nodes[top.i := n.(block := Chars(Splice(cs, stringLength, data)))];
            ok := true;
          }
        case Members(es, ks) =>
          var off := n.objectMem + stringLength;
          if n.kind == KObject && off + |data| <= |ks| {
            nodes := nodes[top.i := n.(block := Members(es, Splice(ks, off, data)))];
            ok := true;
          }
        case _ =>
      }
    }

    method AddBytes(count: nat, data: string) returns (e: Exit)
      modifies this
      ensures Reflects(e, State(), JsonMachine.AddBytes(old(State()), count, data))
    {
      if first {
        stringLength := stringLength + count;
      } else {
        if !HasTop() { return Faulted; }
        var ok := StoreBytes(data);
        if !ok { return Faulted; }
        stringLength := stringLength + |data|;
      }
      ptr := ptr + 1;
      return Continue;
    }

    method EscapedChar(b: char) returns (e: Exit)
      modifies this
      ensures Reflects(e, State(), JsonMachine.EscapedChar(old(State()), b))
    {
      if b == 'u' {
        match UnicodeEscape(text, ptr) {
          case Err => return Failed;
          case Ok(u, next) =>
            ptr := next - 1;
            e := AddBytes(Utf8Length(u), Utf8(u));
        }
      } else {
        e := AddBytes(1, [SimpleEscape(b)]);
      }
    }

    method CloseString() returns (e: Exit)
      modifies this
      ensures Reflects(e, State(), JsonMachine.CloseString(old(State())))
    {
      if !HasTop() { return Faulted; }
      if !first {
        var ok := StoreBytes(['\0']);
        if !ok { return Faulted; }
      }
      e := EndString();
    }

    /** The zero byte is written: a string value is complete, a key is entered. */
    method EndString() returns (e: Exit)
      requires HasTop()
      modifies this
      ensures var s := old(State()); var s' := s.(f := s.f.(str := false)); var n := s.nodes[s.top.i];
              match n.kind
              case KString => Reflects(e, State(), Bottom(s'.(nodes := s.nodes[s.top.i := n.(length := s.stringLength)],
                                                              f := s'.f.(next := true))))
              case KObject => Reflects(e, State(), JsonMachine.CloseKey(s', s.top.i, n))
              case _ => Reflects(e, State(), Bottom(s'))
    {
      f := f.(str := false);
      var n := nodes[top.i];
      if n.kind == KString {
        nodes := nodes[top.i := n.(length := stringLength)];
        f := f.(next := true);
        return FallThrough;
      }
      if n.kind != KObject { return FallThrough; }
      e := CloseKey();
    }

    method CloseKey() returns (e: Exit)
      requires HasTop()
      modifies this
      ensures Reflects(e, State(), JsonMachine.CloseKey(old(State()), old(top).i, old(nodes)[old(top).i]))
    {
      var n := nodes[top.i];
      match n.block {
        case KeyBytes(count) =>
          if !first { return Faulted; }
          nodes := nodes[top.i := n.(block := KeyBytes(count + stringLength + 1))];
        case Members(es, ks) =>
          if first || n.length >= |es| { return Faulted; }
          var entry := es[n.length].(name := n.objectMem, nameLength := stringLength);
          nodes := nodes[top.i := n.(block := Members(es[n.length := entry], ks),
                                     objectMem := n.objectMem + stringLength + 1)];
        case _ => return Faulted;
      }
      f := f.(seekValue := true, needColon := true);
      ptr := ptr + 1;
      return Continue;
    }

    method StringChar(b: char) returns (e: Exit)
      modifies this
      ensures Reflects(e, State(), JsonMachine.StringChar(old(State()), b))
    {
      if b == '\0' || stringLength > UINT_LIMIT { return Failed; }
      if f.escaped {
        f := f.(escaped := false);
        e := EscapedChar(b);
      } else if b == '\\' {
        f := f.(escaped := true);
        ptr := ptr + 1;
        e := Continue;
      } else if b == '"' {
        e := CloseString();
      } else {
        e := AddBytes(1, [b]);
      }
    }

    // ------------------------------------------------------------ values

    method NewValue(kind: Kind) returns (ok: bool)
      modifies this
      ensures var r := JsonMachine.NewValue(old(State()), kind);
              ok == r.Got? && if ok then State() == r.value else State() == old(State())
    {
      if !first {
        if alloc >= |nodes| { return false; }
        top := At(alloc);
        alloc := alloc + 1;
        if root.Null? { root := top; }
        var n := nodes[top.i];
        match n.kind {
          case KArray =>
            if n.length != 0 { n := n.(block := Items(Fill(n.length, Null)), length := 0); }
          case KObject =>
            if n.length != 0 {
              var keyBytes := if n.block.KeyBytes? then n.block.count else 0;
              n := n.(block := Members(Fill(n.length, Entry(0, 0, Null)), Fill(keyBytes, junk)),
                      objectMem := 0, length := 0);
            }
          case KString =>
            n := n.(block := Chars(Fill(n.length + 1, junk)), length := 0);
          case _ =>
        }
        nodes := nodes[top.i := n];
        return true;
      }
      var value := Fresh(top, kind);
      if root.Null? { root := At(|nodes|); }
      top := At(|nodes|);
      nodes := nodes + [value];
      return true;
    }

    /** Do the bytes after the current one spell the rest of `word`? */
    method Lookahead(word: string) returns (found: bool)
      requires |word| > 0
      ensures found <==> forall i :: 1 <= i < |word| ==> Peek(text, ptr + i) == word[i]
    {
      for i := 1 to |word|
        invariant forall j :: 1 <= j < i ==> Peek(text, ptr + j) == word[j]
      {
        if Peek(text, ptr + i) != word[i] { return false; }
      }
      return true;
    }

    method Word(word: string, kind: Kind, scalar: int) returns (e: Exit)
      requires |word| > 0
      modifies this
      ensures Reflects(e, State(), JsonMachine.Word(old(State()), word, kind, scalar))
    {
      hide JsonMachine.WordValue;
      if |text| - ptr < |word| - 1 { return Failed; }
      var found := Lookahead(word);
      if !found { return Failed; }
      ptr := ptr + |word| - 1;
      e := WordValue(kind, scalar);
    }

    method WordValue(kind: Kind, scalar: int) returns (e: Exit)
      modifies this
      ensures Reflects(e, State(), JsonMachine.WordValue(old(State()), kind, scalar))
    {
      var ok := NewValue(kind);
      if !ok { return Faulted; }
      SetScalar(scalar);
      f := f.(next := true);
      return FallThrough;
    }

    /** `top->u.boolean = 1`, and nothing for a false or a null. */
    method SetScalar(scalar: int)
      requires HasTop()
      modifies `nodes
      ensures var n := old(nodes)[top.i];
              nodes == old(nodes)[top.i := if scalar == 0 then n else n.(scalar := scalar)]
    {
      if scalar != 0 {
        nodes := nodes[top.i := nodes[top.i].(scalar := scalar)];
      } else {
        assert nodes[top.i := nodes[top.i]] == nodes;
      }
    }

    method StartNumber(b: char) returns (e: Exit)
      requires ptr <= |text|
      modifies this
      ensures Reflects(e, State(), JsonMachine.StartNumber(old(State()), b))
    {
      var ok := NewValue(KInteger);
      if !ok { return Faulted; }
      if !first {
        while IsGreedy(Peek(text, ptr))
          invariant ptr <= |text|
          invariant SkipGreedy(text, ptr) == SkipGreedy(text, old(ptr))
          invariant JsonMachine.NewValue(old(State()), KInteger) == Got(State().(ptr := old(ptr)))
          decreases |text| - ptr
        {
          ptr := ptr + 1;
        }
        f := f.(next := true, reproc := true);
        return FallThrough;
      }
      f := f.(numNegative := false, numE := false, numEGotSign := false, numENegative := false, numZero := false);
      numDigits := 0;
      if b != '-' {
        f := f.(reproc := true);
        return FallThrough;
      }
      f := f.(numNegative := true);
      ptr := ptr + 1;
      return Continue;
    }

    method StartValue(b: char) returns (e: Exit)
      requires ptr <= |text|
      modifies this
      ensures Reflects(e, State(), JsonMachine.StartValue(old(State()), b))
    {
      match b {
        case '{' =>
          var ok := NewValue(KObject);
          if !ok { return Faulted; }
          ptr := ptr + 1;
          return Continue;
        case '[' =>
          var ok := NewValue(KArray);
          if !ok { return Faulted; }
          f := f.(seekValue := true);
          ptr := ptr + 1;
          return Continue;
        case '"' =>
          var ok := NewValue(KString);
          if !ok { return Faulted; }
          f := f.(str := true);
          stringLength := 0;
          ptr := ptr + 1;
          return Continue;
        case 't' => e := Word("true", KBoolean, 1);
        case 'f' => e := Word("false", KBoolean, 0);
        case 'n' => e := Word("null", KNull, 0);
        case _ =>
          if !IsDigit(b) && b != '-' { return Failed; }
          e := StartNumber(b);
      }
    }

    method Seek(b: char) returns (e: Exit)
      requires ptr <= |text|
      modifies this
      ensures Reflects(e, State(), JsonMachine.Seek(old(State()), b))
    {
      if IsSpace(b) {
        ptr := ptr + 1;
        return Continue;
      }
      if b == ']' {
        if !HasTop() || nodes[top.i].kind != KArray { return Failed; }
        f := f.(needComma := false, seekValue := false, next := true);
        return FallThrough;
      }
      if f.needComma {
        if b != ',' { return Failed; }
        f := f.(needComma := false);
        ptr := ptr + 1;
        return Continue;
      }
      if f.needColon {
        if b != ':' { return Failed; }
        f := f.(needColon := false);
        ptr := ptr + 1;
        return Continue;
      }
      f := f.(seekValue := false);
      e := StartValue(b);
    }

    // ------------------------------------------------------------ inside a container or a number

    method InObject(b: char) returns (e: Exit)
      modifies this
      ensures Reflects(e, State(), JsonMachine.InObject(old(State()), b))
    {
      if IsSpace(b) {
        ptr := ptr + 1;
        return Continue;
      }
      if b == '"' {
        if f.needComma { return Failed; }
        f := f.(str := true);
        stringLength := 0;
      } else if b == '}' {
        f := f.(needComma := false, next := true);
      } else if b == ',' && f.needComma {
        f := f.(needComma := false);
      } else {
        return Failed;
      }
      return FallThrough;
    }

    method NumberDigit(b: char) returns (e: Exit)
      requires HasTop() && IsDigit(b)
      modifies this
      ensures Reflects(e, State(), JsonMachine.NumberDigit(old(State()), old(top).i, b))
    {
      var n := nodes[top.i];
      numDigits := numDigits + 1;
      if f.numE {
        f := f.(numEGotSign := true);
      } else if n.kind == KInteger {
        if f.numZero { return Failed; }
        IntegerDigit(n, b);
      }
      ptr := ptr + 1;
      return Continue;
    }

    method IntegerDigit(n: Node, b: char)
      requires HasTop() && IsDigit(b)
      modifies `f, `nodes
      ensures f == old(f).(numZero := numDigits == 1 && b == '0')
      ensures nodes == old(nodes)[top.i := n.(scalar := Wrap64(n.scalar * 10 + DigitValue(b)))]
    {
      f := f.(numZero := numDigits == 1 && b == '0');
      nodes := nodes[top.i := n.(scalar := Wrap64(n.scalar * 10 + DigitValue(b)))];
    }

    /** `.` or `e`: the number becomes a double. */
    method ToDouble(flags: Flags) returns (e: Exit)
      requires HasTop()
      modifies this
      ensures e == Continue
      ensures State() == old(State()).(
                ptr := old(ptr) + 1, f := flags, numDigits := 0,
                nodes := old(nodes)[old(top).i := old(nodes)[old(top).i].(kind := KDouble, scalar := 0)])
    {
      nodes := nodes[top.i := nodes[top.i].(kind := KDouble, scalar := 0)];
      f := flags;
      numDigits := 0;
      ptr := ptr + 1;
      return Continue;
    }

    method EndNumber() returns (e: Exit)
      requires HasTop()
      modifies this
      ensures Reflects(e, State(), JsonMachine.EndNumber(old(State()), old(top).i))
    {
      var n := nodes[top.i];
      if f.numNegative && n.kind == KInteger {
        n := n.(scalar := Wrap64(-n.scalar));
      }
      nodes := nodes[top.i := n];
      f := f.(next := true, reproc := true);
      return FallThrough;
    }

    method InNumber(b: char) returns (e: Exit)
      requires HasTop()
      modifies this
      ensures Reflects(e, State(), JsonMachine.InNumber(old(State()), old(top).i, b))
    {
      var kind := nodes[top.i].kind;
      if IsDigit(b) {
        e := NumberDigit(b);
      } else if (b == '+' || b == '-') && f.numE && !f.numEGotSign {
        f := f.(numEGotSign := true, numENegative := f.numENegative || b == '-');
        ptr := ptr + 1;
        e := Continue;
      } else if b == '.' && kind == KInteger {
        if numDigits == 0 { return Failed; }
        e := ToDouble(f);
      } else if f.numE {
        if numDigits == 0 { return Failed; }
        e := EndNumber();
      } else {
        if kind == KDouble && numDigits == 0 { return Failed; }
        if b == 'e' || b == 'E' {
          e := ToDouble(f.(numE := true, numZero := false));
        } else {
          e := EndNumber();
        }
      }
    }

    method Inside(b: char) returns (e: Exit)
      modifies this
      ensures Reflects(e, State(), JsonMachine.Inside(old(State()), b))
    {
      if !HasTop() { return Faulted; }
      match nodes[top.i].kind {
        case KObject => e := InObject(b);
        case KInteger => e := InNumber(b);
        case KDouble => e := InNumber(b);
        case _ => e := FallThrough;
      }
    }

    // ------------------------------------------------------------ the loop

    method HandOver(k: nat) returns (e: Exit)
      requires k < |nodes|
      modifies this
      ensures Reflects(e, State(), JsonMachine.HandOver(old(State()), k))
    {
      if !first {
        match Attach(nodes[k], top) {
          case Bad => return Faulted;
          case Got(n) => nodes := nodes[k := n];
        }
      }
      var n := nodes[k].(length := nodes[k].length + 1);
      if n.length > UINT_LIMIT { return Failed; }
      nodes := nodes[k := n];
      if n.kind == KArray { f := f.(seekValue := true); }
      top := At(k);
      return Continue;
    }

    method Land()
      modifies `ptr, `f
      ensures State() == Landed(old(State()))
    {
      if !f.reproc {
        ptr := ptr + 1;
      }
      f := f.(reproc := false, next := false, needComma := f.needComma || f.next);
    }

    method Finish() returns (e: Exit)
      modifies this
      ensures Reflects(e, State(), JsonMachine.Finish(old(State())))
    {
      var next := f.next;
      Land();
      if !next { return Continue; }
      if !HasTop() { return Faulted; }
      match nodes[top.i].parent {
        case Null =>
          f := f.(done := true);
          return Continue;
        case At(k) =>
          if k >= |nodes| { return Faulted; }
          e := HandOver(k);
      }
    }

    method MainPart(b: char) returns (e: Exit)
      requires ptr <= |text|
      modifies this
      ensures Reflects(e, State(), JsonMachine.Main(old(State()), b))
    {
      if f.done {
        if b == '\0' { return EndOfPass; }
        if !IsSpace(b) { return Failed; }
        ptr := ptr + 1;
        return Continue;
      }
      if f.seekValue {
        e := Seek(b);
      } else {
        e := Inside(b);
      }
    }

    /** One round of the loop; a closing quote falls through to the switches below it. */
    method Round() returns (e: Exit)
      requires ptr <= |text|
      modifies this
      ensures e != FallThrough && Reflects(e, State(), Step(old(State())))
    {
      var b := Peek(text, ptr);
      if f.str {
        e := StringChar(b);
        if e != FallThrough { return; }
      }
      e := MainPart(b);
      if e == FallThrough { e := Finish(); }
    }

    /** The loop over `state.ptr`: one pass. It ends on every text a finite run is known for. */
    method RunPass() returns (e: Exit)
      requires ptr <= |text| && (Run(State()).Accepted? || Run(State()).Rejected?)
      modifies this
      ensures match Run(old(State()))
              case Accepted(r, ns) => e == EndOfPass && root == r && nodes == ns
              case _ => e == Failed
    {
      ghost var verdict := Run(State());
      while true
        invariant ptr <= |text| && Run(State()) == verdict
        decreases Measure(State())
      {
        ghost var s := State();
        e := Round();
        if e != Continue { return; }
        assert State().ptr <= |text| && Measure(State()) < Measure(s) && Run(State()) == verdict by {
          hide Step, Measure;
        }
      }
    }

    /** `-- state.first_pass`, and what the outer loop resets; `alloc` starts over at the root.  The digit count,
        which every number of pass 1 resets and pass 2 never reads, is cleared too. */
    method NextPass()
      modifies this
      ensures State() == Start(text, false, junk, old(nodes))
    {
      first, ptr, f, top, root, alloc := false, 0, START_FLAGS, Null, Null, 0;
      stringLength, numDigits := 0, 0;
    }
  }

  /** `json_parse_ex`: null exactly for the texts the reader rejects, and otherwise the root of the completely
      filled nodes of the value the reader returns. */
  method JsonParseEx(text: string, junk: char) returns (root: Link, nodes: seq<Node>)
    ensures match ReadDocument(SkipMark(text))
            case Err => root == Null
            case Ok(v, _) => root == At(0) && nodes == Laid(v, Null, 0)
  {
    var p := new Parser(SkipMark(text), junk);
    root, nodes := Null, [];
    JsonPass1.Pass1(p.text, junk);
    var e := p.RunPass();
    if e != EndOfPass { return; }
    ghost var r := ReadDocument(p.text);
    JsonPass2.Pass2(p.text, junk, r.value, r.next);
    p.NextPass();
    e := p.RunPass();
    root, nodes := p.root, p.nodes;
  }
}
