/** The translator of src/atpserver/lua/parse_oc_code.lua: C loop nests to Lua, line by line and without a stack. */
module OcParser {
  import opened Options
  import opened LuaPattern

  // ---------------------------------------------------------------- the patterns

  const FOR_LINE: seq<Item> := [One(Is('f')), One(Is('o'))] + FOR_REST
  const FOR_REST: seq<Item> := [One(Is('r'))] + ([One(Is('('))] + ([Star(Not(";"))] + ([One(Is(';'))] + FOR_SECOND)))
  const FOR_SECOND: seq<Item> := [One(Is(' '))] + ([Star(Not(";"))] + ([One(Is(';'))] + FOR_THIRD))
  const FOR_THIRD: seq<Item> := [Star(Not("}")), One(Is(')'))]
  const IF_LINE: seq<Item> := [One(Is('i')), One(Is('f'))] + IF_REST
  const IF_REST: seq<Item> := [Star(Space)] + ([One(Is('('))] + [Star(Any), One(Is(')'))])
  const END_LINE: seq<Item> := [Star(Not("}")), One(Is('}'))]
  const GEN_LINE: seq<Item> :=
    [Plus(AlNum)] + ([One(Is('('))] + ([Plus(Not(")"))] + ([One(Is(')'))] + ([One(Is(';'))] + []))))
  const WORD: seq<Item> := [Plus(AlNum)] + []
  const TO_SEMICOLON: seq<Item> := [Star(Not(";"))]
  const MAX_CALL: seq<Item> := [One(Is('m')), One(Is('a'))] + [One(Is('x')), One(Is('('))]
  const MIN_CALL: seq<Item> := [One(Is('m')), One(Is('i'))] + [One(Is('n')), One(Is('('))]
  const PLUS_PLUS: seq<Item> := [One(Is('+')), One(Is('+'))] + []
  const PLUS_EQUALS: seq<Item> := [One(Is('+')), One(Is('='))] + []
  const AT_LEAST_OR_MOST: seq<Item> := [One(OneOf("><")), One(Is('='))]

  // ---------------------------------------------------------------- terms and statements

  /** Which part of a `for` a term comes from. */
  datatype Caller = First | Second | Third

  /** `parse_term`; nothing stands for `nil`.  The last pattern that is found decides. */
  function Term(term: string, caller: Caller): Option<string> {
    var relation := Find(term, AT_LEAST_OR_MOST);
    var increment := Find(term, PLUS_EQUALS);
    if relation.Some? then Some(if caller == Second then term[relation.value.1..] else term)
    else if increment.Some? then Some(if caller == Third then term[increment.value.1..] else term)
    else if Find(term, PLUS_PLUS).Some? then None
    else Some(term)
  }

  /** `string.sub (s, i + 1, -1)` */
  function From(s: string, i: nat): string {
    if i <= |s| then s[i..] else ""
  }

  /** The three terms between the parentheses of a `for`. */
  function Terms(code: string): (r: (string, string, string)) {
    var i := RunLength(code, 0, Not(";"));
    var rest := From(code, i + 1);
    var j := RunLength(rest, 0, Not(";"));
    (code[..i], rest[..j], From(rest, j + 1))
  }

  /** `parse_for`; nothing where Lua would stop with an error. */
  function For(code: string): Option<string> {
    var m := Find(code, FOR_LINE);
    if m.None? || m.value.1 - m.value.0 < 5 then None
    else
      var (fst, snd, trd) := Terms(code[m.value.0 + 4..m.value.1 - 1]);
      var a, b, c := Term(fst, First), Term(snd, Second), Term(trd, Third);
      if a.None? || b.None? then None
      else Some("for " + a.value + "," + b.value + (if c.Some? then "," + c.value else "") + " do\n")
  }

  /** `parse_if` */
  function If(code: string): string {
    ReplacePair(ReplacePair(ReplacePair(code, '|', '|', "or"), '&', '&', "and"), '!', '=', "~=") + " then\n"
  }

  /** `parse_gen_stmt` */
  function Gen(code: string): Option<string> {
    var m := Find(code, WORD);
    if m.None? then None
    else Some(ReplaceChar(ReplaceChar(code[m.value.1..], '(', '{'), ')', '}') + "\n")
  }

  // ---------------------------------------------------------------- lines

  /** The code produced so far, and the indentation. */
  datatype State = State(code: string, ident: string)

  function Emit(st: State, text: string): State {
    st.(code := st.code + st.ident + text)
  }

  /** Two spaces more, and `string.sub (ident, 1, -3)`. */
  function Deeper(st: State): State {
    st.(ident := st.ident + "  ")
  }

  function Shallower(st: State): State {
    st.(ident := if |st.ident| < 2 then "" else st.ident[..|st.ident| - 2])
  }

  /** One line; a line can be taken for a `for` and for an `if` both. */
  function Line(st: State, line: string): Option<State> {
    var isFor, isIf := Find(line, FOR_LINE).Some?, Find(line, IF_LINE);
    var head := if isFor then For(line) else Some("");
    if head.None? then None
    else
      var st1 := if isFor then Deeper(Emit(st, head.value)) else st;
      var st2 := if isIf.Some? then Deeper(Emit(st1, If(line[isIf.value.0..isIf.value.1]))) else st1;
      if isFor || isIf.Some? then Some(st2)
      else if Find(line, END_LINE).Some? then Some(Emit(Shallower(st2), "end\n"))
      else if Find(line, GEN_LINE).Some? then
        match Gen(line)
        case None => None
        case Some(t) => Some(Emit(st2, "tuples[#tuples+1] = " + t))
      else Some(Emit(st2, line + "--<LINE NOT MATCHED>\n"))
  }

  function AllLines(st: State, lines: seq<string>): Option<State>
    decreases |lines|
  {
    if lines == [] then Some(st)
    else
      match Line(st, lines[0])
      case None => None
      case Some(st') => AllLines(st', lines[1..])
  }

  /** `parse_code` */
  function ParseCode(code: string): Option<string> {
    match AllLines(State("tuples = {}\n", ""), Lines(code, 0))
    case None => None
    case Some(st) => Some(st.code)
  }

  // ---------------------------------------------------------------- the same, step by step

  method ParseTerm(term: string, caller: Caller) returns (luaTerm: Option<string>)
    ensures luaTerm == Term(term, caller)
  {
    hide Find;
    var matched := false;
    luaTerm := None;
    var m := Find(term, MAX_CALL);
    if m.Some? { luaTerm, matched := Some(term), true; }
    m := Find(term, MIN_CALL);
    if m.Some? { luaTerm, matched := Some(term), true; }
    m := Find(term, PLUS_PLUS);
    if m.Some? { luaTerm, matched := None, true; }
    m := Find(term, PLUS_EQUALS);
    if m.Some? {
      if caller == Third { luaTerm := Some(term[m.value.1..]); } else { luaTerm := Some(term); }
      matched := true;
    }
    m := Find(term, AT_LEAST_OR_MOST);
    if m.Some? {
      if caller == Second { luaTerm := Some(term[m.value.1..]); } else { luaTerm := Some(term); }
      matched := true;
    }
    if !matched { luaTerm := Some(term); }
  }

  lemma SemicolonFound(s: string)
    ensures Find(s, TO_SEMICOLON) == Some((0, RunLength(s, 0, Not(";"))))
  {
    var n := RunLength(s, 0, Not(";"));
    var rest: seq<Item> := [];
    assert TO_SEMICOLON == [Star(Not(";"))] + rest && TO_SEMICOLON[1..] == rest && TO_SEMICOLON[0] == Star(Not(";"));
    assert MatchAt(s, 0 + n, rest) == Some(n);
    assert Longest(s, 0, 0, n, rest) == Some(n);
    assert MatchAt(s, 0, TO_SEMICOLON) == Longest(s, 0, 0, n, rest);
  }

  /** The three terms, cut off one after the other. */
  method CutTerms(code: string) returns (fst: string, snd: string, trd: string)
    ensures (fst, snd, trd) == Terms(code)
  {
    hide Find, RunLength;
    SemicolonFound(code);
    var f := Find(code, TO_SEMICOLON);
    fst := code[f.value.0..f.value.1];
    var rest := From(code, f.value.1 + 1);
    SemicolonFound(rest);
    var s := Find(rest, TO_SEMICOLON);
    snd := rest[s.value.0..s.value.1];
    trd := From(rest, s.value.1 + 1);
  }

  /** `string.sub (m, 5, -2)` of the match `m` is what stands between its parentheses. */
  lemma Inner(code: string, s: nat, e: nat)
    requires s + 5 <= e <= |code|
    ensures code[s..e][4..e - s - 1] == code[s + 4..e - 1]
  {
    var m := code[s..e];
    assert forall i :: 4 <= i < e - s - 1 ==> m[i] == code[s + i];
    assert m[4..e - s - 1] == code[s + 4..e - 1];
  }

  method ParseFor(code: string) returns (luaFor: Option<string>)
    ensures luaFor == For(code)
  {
    hide Find, Term, RunLength, Terms;
    var m := Find(code, FOR_LINE);
    if m.None? || m.value.1 - m.value.0 < 5 { return None; }
    var forCode := code[m.value.0..m.value.1];
    forCode := forCode[4..|forCode| - 1];
    Inner(code, m.value.0, m.value.1);
    var fstTerm, sndTerm, trdTerm := CutTerms(forCode);
    var a := ParseTerm(fstTerm, First);
    var b := ParseTerm(sndTerm, Second);
    var c := ParseTerm(trdTerm, Third);
    if a.None? || b.None? { return None; }
    if c.Some? {
      luaFor := Some("for " + a.value + "," + b.value + ("," + c.value) + " do\n");
    } else {
      luaFor := Some("for " + a.value + "," + b.value + "" + " do\n");
    }
  }

  /** The body of the loop of `parse_code`. */
  method ParseLine(st: State, line: string) returns (r: Option<State>)
    ensures r == Line(st, line)
  {
    hide Find, For, If, Gen;
    var now, matched := st, false;
    var m := Find(line, FOR_LINE);
    if m.Some? {
      var t := ParseFor(line);
      if t.None? { return None; }
      now := Deeper(Emit(now, t.value));
      matched := true;
    }
    m := Find(line, IF_LINE);
    if m.Some? {
      now := Deeper(Emit(now, If(line[m.value.0..m.value.1])));
      matched := true;
    }
    m := Find(line, END_LINE);
    if m.Some? && !matched {
      now := Emit(Shallower(now), "end\n");
      matched := true;
    }
    m := Find(line, GEN_LINE);
    if m.Some? && !matched {
      var t := Gen(line);
      if t.None? { return None; }
      now := Emit(now, "tuples[#tuples+1] = " + t.value);
      matched := true;
    }
    if !matched { now := Emit(now, line + "--<LINE NOT MATCHED>\n"); }
    r := Some(now);
  }

  method Translate(code: string) returns (newCode: Option<string>)
    ensures newCode == ParseCode(code)
  {
    hide Line, Lines;
    var st := State("tuples = {}\n", "");
    var lines := Lines(code, 0);
    assert lines[0..] == lines;
    for i := 0 to |lines|
      invariant AllLines(State("tuples = {}\n", ""), lines) == AllLines(st, lines[i..])
    {
      assert lines[i..][0] == lines[i] && lines[i..][1..] == lines[i + 1..];
      var r := ParseLine(st, lines[i]);
      if r.None? { return None; }
      st := r.value;
    }
    newCode := Some(st.code);
  }
}
