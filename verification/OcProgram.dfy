/** Whole programs: the translator turns the text of every loop nest into the text of its image. */
module OcProgram {
  import opened Options
  import opened LuaPattern
  import opened LoopNest
  import opened OcText
  import opened OcLines
  import opened OcTranslation
  import OcParser

  // ---------------------------------------------------------------- lines and their breaks

  predicate NoBreak(s: string) {
    Lacks(s, '\r') && Lacks(s, '\n')
  }

  predicate NoBreaks(lines: seq<string>) {
    forall i :: 0 <= i < |lines| ==> NoBreak(lines[i])
  }

  lemma BreaksJoin(a: seq<string>, b: seq<string>)
    requires NoBreaks(a) && NoBreaks(b)
    ensures NoBreaks(a + b)
  {
    hide NoBreak;
  }

  lemma LineAt(s: string, p: nat, line: string)
    requires At(s, p, line) && NoBreak(line) && p + |line| < |s| && s[p + |line|] == '\n'
    ensures Lines(s, p) == [line] + Lines(s, p + |line| + 1)
  {
    AtSlice(s, p, line);
    forall i | p <= i < p + |line| ensures In(s[i], Not("\r\n")) { AtChar(s, p, line, i - p); }
    hide At, NoBreak;
    RunIs(s, p, |line|, Not("\r\n"));
  }

  lemma LastLines(s: string)
    ensures Lines(s, |s|) == [""]
  {
  }

  lemma SameRun(s: string, t: string, p: nat)
    requires p < |s| && s[|s| - 1] != '\n' && s[|s| - 1] != '\r' && t == s + "\n"
    ensures var n := RunLength(s, p, Not("\r\n"));
            && RunLength(t, p, Not("\r\n")) == n && t[p..p + n] == s[p..p + n] && p + n != |s| - 1
  {
    var n := RunLength(s, p, Not("\r\n"));
    assert forall i :: 0 <= i < |s| ==> t[i] == s[i];
    forall i | p <= i < p + n ensures In(t[i], Not("\r\n")) { assert t[i] == s[i]; }
    hide RunLength;
    assert In(s[|s| - 1], Not("\r\n"));
    assert p + n < |s| ==> !In(s[p + n], Not("\r\n"));
    RunIs(t, p, n, Not("\r\n"));
  }

  /** The run that a line is, and what follows it. */
  predicate LineIs(s: string, p: nat, q: nat, line: string)
    requires p <= |s|
  {
    q == p + RunLength(s, p, Not("\r\n")) && line == s[p..q]
  }

  lemma LineThenRest(s: string, p: nat, q: nat, line: string)
    requires p < |s| && LineIs(s, p, q, line)
    ensures q < |s| ==> Lines(s, p) == [line] + Lines(s, q + 1)
    ensures p < q == |s| ==> Lines(s, p) == [line] + [""]
  {
    hide RunLength;
  }

  lemma BothStep(s: string, t: string, p: nat) returns (q: nat, line: string)
    requires p < |s| && s[|s| - 1] != '\n' && s[|s| - 1] != '\r' && t == s + "\n"
    ensures p <= q && (p < q == |s| || q + 1 < |s|)
    ensures q == |s| ==> Lines(s, p) == [line] + [""] && Lines(t, p) == [line] + [""]
    ensures q < |s| ==> Lines(s, p) == [line] + Lines(s, q + 1) && Lines(t, p) == [line] + Lines(t, q + 1)
  {
    SameRun(s, t, p);
    q := p + RunLength(s, p, Not("\r\n"));
    line := s[p..q];
    assert LineIs(s, p, q, line) && LineIs(t, p, q, line);
    hide LineIs, Lines, RunLength, In;
    LineThenRest(s, p, q, line);
    LineThenRest(t, p, q, line);
    LastLines(t);
  }

  /** A line break that is missing at the end makes no difference. */
  lemma {:induction false} MissingBreak(s: string, t: string, p: nat)
    requires p < |s| && s[|s| - 1] != '\n' && s[|s| - 1] != '\r' && t == s + "\n"
    ensures Lines(s, p) == Lines(t, p)
    decreases |s| - p
  {
    hide Lines;
    var q, line := BothStep(s, t, p);
    if q == |s| {
    } else {
      MissingBreak(s, t, q + 1);
    }
  }

  lemma NoMissingBreak(code: string)
    requires code != "" && code[|code| - 1] != '\n' && code[|code| - 1] != '\r'
    ensures OcParser.ParseCode(code) == OcParser.ParseCode(code + "\n")
  {
    MissingBreak(code, code + "\n", 0);
    hide Lines;
  }

  /** `gmatch` gives back the lines, and one empty line more. */
  lemma {:induction false} LinesOfJoined(s: string, p: nat, lines: seq<string>)
    requires NoBreaks(lines) && At(s, p, Joined(lines)) && p + |Joined(lines)| == |s|
    ensures Lines(s, p) == lines + [""]
    decreases |lines|
  {
    hide NoBreak, Lines, At;
    if lines == [] {
      LastLines(s);
      assert lines + [""] == [""];
    } else {
      var line, rest := lines[0], Joined(lines[1..]);
      assert Joined(lines) == line + "\n" + rest && NoBreak(line) && NoBreaks(lines[1..]);
      hide Joined, NoBreaks;
      AtParts(s, p, line + "\n", rest);
      AtParts(s, p, line, "\n");
      AtChar(s, p + |line|, "\n", 0);
      LineAt(s, p, line);
      LinesOfJoined(s, p + |line| + 1, lines[1..]);
      assert lines + [""] == [line] + (lines[1..] + [""]);
    }
  }

  lemma LeadBreak(lead: string)
    requires IsLead(lead)
    ensures NoBreak(lead)
  {
  }

  lemma JoinBreak(a: string, b: string)
    requires NoBreak(a) && NoBreak(b)
    ensures NoBreak(a + b)
  {
    LacksJoin(a, b, '\r');
    LacksJoin(a, b, '\n');
  }

  lemma ForBreak(lead: string, v: nat, lo: Bound, hi: Bound, step: nat)
    requires IsLead(lead)
    ensures NoBreak(ForText(lead, v, lo, hi, step))
  {
    InitLacks(v, lo, '\r');
    InitLacks(v, lo, '\n');
    TestLacks(v, hi, '\r');
    TestLacks(v, hi, '\n');
    StepLacks(v, step, '\r');
    StepLacks(v, step, '\n');
    LeadBreak(lead);
    assert NoBreak("for(") && NoBreak("; ") && NoBreak(") {");
    hide InitText, TestText, StepText;
    var a, b, c := InitText(v, lo), TestText(v, hi), StepText(v, step);
    assert NoBreak(a) && NoBreak(b) && NoBreak(c);
    hide NoBreak;
    JoinBreak(c, ") {");
    JoinBreak("; ", c + ") {");
    JoinBreak(b, "; " + (c + ") {"));
    JoinBreak("; ", b + ("; " + (c + ") {")));
    JoinBreak(a, "; " + (b + ("; " + (c + ") {"))));
    JoinBreak("for(", a + ("; " + (b + ("; " + (c + ") {")))));
    JoinBreak(lead, "for(" + (a + ("; " + (b + ("; " + (c + ") {"))))));
  }

  lemma IfBreak(lead: string, c: Cond)
    requires IsLead(lead)
    ensures NoBreak(IfText(lead, c))
  {
    CondLacks(c, '\r');
    CondLacks(c, '\n');
    LeadBreak(lead);
    assert NoBreak("if (") && NoBreak(") {");
    hide CondText;
    assert NoBreak(CondText(c));
    hide NoBreak;
    JoinBreak(CondText(c), ") {");
    JoinBreak("if (", CondText(c) + ") {");
    JoinBreak(lead, "if (" + (CondText(c) + ") {"));
  }

  lemma CallBreak(lead: string, s: nat, args: seq<Affine>)
    requires IsLead(lead)
    ensures NoBreak(CallText(lead, s, args))
  {
    NameChars(s);
    ArgsPlain(args);
    var name, a := Name(s), ArgsText(args);
    assert CallText(lead, s, args) == lead + (name + ("(" + (a + ");")));
    assert Lacks(name, '\r') && Lacks(name, '\n');
    hide Name, ArgsText;
    CallLacksChar(lead, name, a, '\r');
    CallLacksChar(lead, name, a, '\n');
    hide CallText;
  }

  lemma EndBreak(close: string)
    requires IsLead(close)
    ensures NoBreak(close + "}")
  {
    LeadBreak(close);
    assert NoBreak("}");
    hide NoBreak;
    JoinBreak(close, "}");
  }

  lemma {:induction false} StmtBreaks(s: Stmt)
    requires WellFormed(s)
    ensures NoBreaks(CLines(s))
    decreases s, 1
  {
    hide NoBreak, ForText, IfText, CallText;
    match s {
      case For(lead, v, lo, hi, step, body, close) =>
        ForBreak(lead, v, lo, hi, step);
        BlockBreaks(body);
        EndBreak(close);
        hide AllCLines;
        BreaksJoin([ForText(lead, v, lo, hi, step)], AllCLines(body));
        BreaksJoin([ForText(lead, v, lo, hi, step)] + AllCLines(body), [close + "}"]);
      case If(lead, c, body, close) =>
        IfBreak(lead, c);
        BlockBreaks(body);
        EndBreak(close);
        hide AllCLines;
        BreaksJoin([IfText(lead, c)], AllCLines(body));
        BreaksJoin([IfText(lead, c)] + AllCLines(body), [close + "}"]);
      case Call(lead, s, args) => CallBreak(lead, s, args);
      case Blank(line) => LeadBreak(line);
    }
  }

  lemma {:induction false} BlockBreaks(ss: seq<Stmt>)
    requires AllWellFormed(ss)
    ensures NoBreaks(AllCLines(ss))
    decreases ss, 0
  {
    if ss == [] {
    } else {
      StmtBreaks(ss[0]);
      BlockBreaks(ss[1..]);
      hide CLines, NoBreaks;
      BreaksJoin(CLines(ss[0]), AllCLines(ss[1..]));
    }
  }

  // ---------------------------------------------------------------- blocks

  lemma {:induction false} LinesInTurn(st: OcParser.State, a: seq<string>, b: seq<string>)
    ensures OcParser.AllLines(st, a + b)
         == match OcParser.AllLines(st, a) case None => None case Some(st') => OcParser.AllLines(st', b)
    decreases |a|
  {
    hide OcParser.Line;
    if a == [] {
      assert a + b == b;
    } else {
      assert (a + b)[0] == a[0] && (a + b)[1..] == a[1..] + b;
      var r := OcParser.Line(st, a[0]);
      if r.Some? { LinesInTurn(r.value, a[1..], b); }
    }
  }

  lemma OneLine(st: OcParser.State, line: string)
    ensures OcParser.AllLines(st, [line]) == OcParser.Line(st, line)
  {
    hide OcParser.Line;
    assert [line][1..] == [];
    var r := OcParser.Line(st, line);
    if r.Some? { assert OcParser.AllLines(r.value, []) == r; }
  }

  /** The state after some text has been produced, with the indentation as it was. */
  function Grown(st: OcParser.State, text: string): OcParser.State {
    st.(code := st.code + text)
  }

  /** A head, a body one level deeper, and an end: the indentation comes back to what it was. */
  lemma BlockGrown(st: OcParser.State, head: string, body: string)
    ensures var deep := OcParser.Deeper(OcParser.Emit(st, head));
            && deep.ident == st.ident + "  "
            && OcParser.Emit(OcParser.Shallower(Grown(deep, body)), "end\n")
               == Grown(st, st.ident + head + body + st.ident + "end\n")
  {
    assert (st.ident + "  ")[..|st.ident|] == st.ident;
    var c, i := st.code, st.ident;
    BlockPieces(c, i, head, body);
  }

  lemma BlockPieces(c: string, i: string, head: string, body: string)
    ensures c + i + head + body + i + "end\n" == c + (i + head + body + i + "end\n")
  {
    Reassoc(c, i, head);
    Reassoc(c, i + head, body);
    Reassoc(c, i + head + body, i);
    Reassoc(c, i + head + body + i, "end\n");
  }

  lemma BodyInBlock(st: OcParser.State, first: string, head: string, lines: seq<string>, body: string, close: string)
    requires OcParser.Line(st, first) == Some(OcParser.Deeper(OcParser.Emit(st, head))) && IsLead(close)
    requires var deep := OcParser.Deeper(OcParser.Emit(st, head));
             OcParser.AllLines(deep, lines) == Some(Grown(deep, body))
    ensures OcParser.AllLines(st, [first] + lines + [close + "}"])
         == Some(Grown(st, st.ident + head + body + st.ident + "end\n"))
  {
    hide OcParser.Line, OcParser.AllLines, OcParser.Deeper, OcParser.Shallower, OcParser.Emit, Grown;
    var deep := OcParser.Deeper(OcParser.Emit(st, head));
    OneLine(st, first);
    LinesInTurn(st, [first], lines);
    LinesInTurn(st, [first] + lines, [close + "}"]);
    OneLine(Grown(deep, body), close + "}");
    EndLine(Grown(deep, body), close);
    BlockGrown(st, head, body);
  }

  lemma CallGrown(st: OcParser.State, text: string)
    ensures OcParser.Emit(st, text) == Grown(st, st.ident + text)
  {
    Reassoc(st.code, st.ident, text);
  }

  /** The lines of a statement produce the text of its image, at the indentation that its depth calls for. */
  lemma {:induction false} StmtTranslated(st: OcParser.State, s: Stmt)
    requires WellFormed(s)
    ensures OcParser.AllLines(st, CLines(s)) == Some(Grown(st, LuaText(Image(s), st.ident)))
    decreases s, 1
  {
    hide OcParser.Line, OcParser.AllLines, ForText, IfText, CallText, LuaForText, LuaIfText, LuaAppendText, Grown;
    hide LuaCommentText;
    match s {
      case For(lead, v, lo, hi, step, body, close) =>
        var head := LuaForText(v, lo, hi, step);
        ForLine(st, lead, v, lo, hi, step);
        var deep := OcParser.Deeper(OcParser.Emit(st, head));
        BlockTranslated(deep, body);
        hide AllCLines, LuaTexts, Images, IsLead;
        BodyInBlock(st, ForText(lead, v, lo, hi, step), head, AllCLines(body), LuaTexts(Images(body), deep.ident),
                    close);
      case If(lead, c, body, close) =>
        var head := LuaIfText(c);
        IfLine(st, lead, c);
        var deep := OcParser.Deeper(OcParser.Emit(st, head));
        BlockTranslated(deep, body);
        hide AllCLines, LuaTexts, Images, IsLead;
        BodyInBlock(st, IfText(lead, c), head, AllCLines(body), LuaTexts(Images(body), deep.ident), close);
      case Call(lead, n, args) =>
        CallLine(st, lead, n, args);
        OneLine(st, CallText(lead, n, args));
        CallGrown(st, LuaAppendText(args));
      case Blank(line) =>
        BlankLine(st, line);
        OneLine(st, line);
        CallGrown(st, LuaCommentText(line));
    }
  }

  lemma GrownTwice(st: OcParser.State, a: string, b: string)
    ensures Grown(Grown(st, a), b) == Grown(st, a + b) && Grown(st, a).ident == st.ident
  {
    Reassoc(st.code, a, b);
  }

  lemma NothingGrown(st: OcParser.State)
    ensures Grown(st, "") == st && OcParser.AllLines(st, []) == Some(st)
  {
    assert st.code + "" == st.code;
  }

  lemma {:induction false} BlockTranslated(st: OcParser.State, ss: seq<Stmt>)
    requires AllWellFormed(ss)
    ensures OcParser.AllLines(st, AllCLines(ss)) == Some(Grown(st, LuaTexts(Images(ss), st.ident)))
    decreases ss, 0
  {
    hide OcParser.AllLines, CLines, LuaText, Image, Grown, WellFormed;
    if ss == [] {
      NothingGrown(st);
    } else {
      var text := LuaText(Image(ss[0]), st.ident);
      StmtTranslated(st, ss[0]);
      LinesInTurn(st, CLines(ss[0]), AllCLines(ss[1..]));
      BlockTranslated(Grown(st, text), ss[1..]);
      GrownTwice(st, text, LuaTexts(Images(ss[1..]), st.ident));
      ImagesOfMore(ss);
    }
  }

  lemma ImagesOfMore(ss: seq<Stmt>)
    requires ss != []
    ensures Images(ss)[0] == Image(ss[0]) && Images(ss)[1..] == Images(ss[1..]) && Images(ss) != []
  {
    hide Image;
  }

  /** Every program of loop nests of the form that the Omega Calculator writes, with blank lines anywhere, is translated
      into the text of its image, ended by the one line that `gmatch` makes up. */
  lemma ProgramTranslated(ss: seq<Stmt>)
    requires AllWellFormed(ss)
    ensures OcParser.ParseCode(CText(ss))
         == Some("tuples = {}\n" + LuaTexts(Images(ss), "") + "--<LINE NOT MATCHED>\n")
  {
    hide OcParser.AllLines, OcParser.Line, AllCLines, LuaTexts, Images, Lines, AllWellFormed, Grown;
    var st, lines := OcParser.State("tuples = {}\n", ""), AllCLines(ss);
    var text := LuaTexts(Images(ss), "");
    BlockBreaks(ss);
    LinesOfJoined(CText(ss), 0, lines);
    LinesInTurn(st, lines, [""]);
    BlockTranslated(st, ss);
    OneLine(Grown(st, text), "");
    BlankLine(Grown(st, text), "");
    assert "" + "--<LINE NOT MATCHED>\n" == "--<LINE NOT MATCHED>\n";
    LastLine(st, text);
  }

  lemma LastLine(st: OcParser.State, text: string)
    requires st.ident == ""
    ensures OcParser.Emit(Grown(st, text), "--<LINE NOT MATCHED>\n").code == st.code + text + "--<LINE NOT MATCHED>\n"
  {
    assert st.code + text + "" == st.code + text;
  }
}
