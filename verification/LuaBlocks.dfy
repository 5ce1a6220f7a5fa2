/** Brackets match: read line by line as Lua blocks, the translator's output is the tree of the program's image. */
module LuaBlocks {
  import opened Options
  import opened Decimals
  import opened LoopNest
  import opened OcLines
  import opened OcProgram
  import OcParser

  /** A block with its first line, or a line on its own. */
  datatype Tree = Node(head: string, kids: seq<Tree>) | Leaf(line: string)

  /** A line without its indentation. */
  function Stripped(line: string): string {
    if line != "" && line[0] == ' ' then Stripped(line[1..]) else line
  }

  predicate Opens(line: string) {
    "for " <= Stripped(line) || "if (" <= Stripped(line)
  }

  predicate Closes(line: string) {
    Stripped(line) == "end"
  }

  /** The blocks at the start of some lines, up to the end of the block they are in, and the lines after them. */
  function Blocks(lines: seq<string>): (r: Option<(seq<Tree>, seq<string>)>)
    ensures r.Some? ==> |r.value.1| <= |lines| && (r.value.1 != [] ==> Closes(r.value.1[0]))
    decreases |lines|
  {
    if lines == [] || Closes(lines[0]) then Some(([], lines))
    else if Opens(lines[0]) then
      match Blocks(lines[1..])
      case None => None
      case Some((kids, rest)) =>
        if rest == [] then None
        else
          match Blocks(rest[1..])
          case None => None
          case Some((more, end)) => Some(([Node(lines[0], kids)] + more, end))
    else
      match Blocks(lines[1..])
      case None => None
      case Some((more, end)) => Some(([Leaf(lines[0])] + more, end))
  }

  // ---------------------------------------------------------------- the tree of an image

  function ForHead(v: nat, lo: Bound, hi: Bound, step: nat): string {
    "for " + InitText(v, lo) + "," + (" " + BoundText(hi))
    + (if step == 1 then "" else "," + (" " + Digits(step))) + " do"
  }

  function IfHead(c: Cond): string {
    "if (" + LuaCondText(c) + ")" + " then"
  }

  function AppendLine(args: seq<Affine>): string {
    "tuples[#tuples+1] = " + ("{" + ArgsText(args) + "};")
  }

  function CommentLine(line: string): string {
    line + "--<LINE NOT MATCHED>"
  }

  /** Node by node, with the indentation of every line. */
  function TreeOf(l: Lua, ident: string): Tree
    decreases l, 1
  {
    match l
    case LuaFor(v, lo, hi, step, body) => Node(ident + ForHead(v, lo, hi, step), TreesOf(body, ident + "  "))
    case LuaIf(c, body) => Node(ident + IfHead(c), TreesOf(body, ident + "  "))
    case LuaAppend(args) => Leaf(ident + AppendLine(args))
    case LuaComment(line) => Leaf(ident + CommentLine(line))
  }

  function TreesOf(ls: seq<Lua>, ident: string): (r: seq<Tree>)
    ensures |r| == |ls|
    decreases ls, 0
  {
    if ls == [] then [] else [TreeOf(ls[0], ident)] + TreesOf(ls[1..], ident)
  }

  function TreeLines(l: Lua, ident: string): seq<string>
    decreases l, 1
  {
    match l
    case LuaFor(v, lo, hi, step, body) =>
      [ident + ForHead(v, lo, hi, step)] + AllTreeLines(body, ident + "  ") + [ident + "end"]
    case LuaIf(c, body) => [ident + IfHead(c)] + AllTreeLines(body, ident + "  ") + [ident + "end"]
    case LuaAppend(args) => [ident + AppendLine(args)]
    case LuaComment(line) => [ident + CommentLine(line)]
  }

  function AllTreeLines(ls: seq<Lua>, ident: string): seq<string>
    decreases ls, 0
  {
    if ls == [] then [] else TreeLines(ls[0], ident) + AllTreeLines(ls[1..], ident)
  }

  // ---------------------------------------------------------------- the text is those lines

  lemma {:induction false} JoinedTwice(a: seq<string>, b: seq<string>)
    ensures Joined(a + b) == Joined(a) + Joined(b)
    decreases |a|
  {
    if a == [] {
      assert a + b == b && "" + Joined(b) == Joined(b);
    } else {
      assert (a + b)[1..] == a[1..] + b && (a + b)[0] == a[0];
      JoinedTwice(a[1..], b);
      Reassoc(a[0] + "\n", Joined(a[1..]), Joined(b));
    }
  }

  lemma JoinedOne(line: string)
    ensures Joined([line]) == line + "\n"
  {
    assert [line][1..] == [] && Joined([]) == "";
    assert line + "\n" + "" == line + "\n";
  }

  lemma HeadText(ident: string, head: string, end: string)
    ensures ident + head + end + "\n" == ident + (head + (end + "\n"))
  {
    Reassoc(ident + head, end, "\n");
    Reassoc(ident, head, end + "\n");
  }

  lemma ForHeadText(v: nat, lo: Bound, hi: Bound, step: nat)
    ensures ForHead(v, lo, hi, step) + "\n" == LuaForText(v, lo, hi, step)
  {
    var x := "for " + InitText(v, lo) + "," + (" " + BoundText(hi))
             + (if step == 1 then "" else "," + (" " + Digits(step)));
    hide InitText, BoundText, Digits;
    Reassoc(x, " do", "\n");
    assert " do" + "\n" == " do\n";
  }

  lemma IfHeadText(c: Cond)
    ensures IfHead(c) + "\n" == LuaIfText(c)
  {
    var x := "if (" + LuaCondText(c) + ")";
    hide LuaCondText;
    Reassoc(x, " then", "\n");
    assert " then" + "\n" == " then\n";
  }

  lemma AppendText(args: seq<Affine>)
    ensures AppendLine(args) + "\n" == LuaAppendText(args)
  {
    hide ArgsText;
    Reassoc("tuples[#tuples+1] = ", "{" + ArgsText(args) + "};", "\n");
  }

  lemma CommentText(line: string)
    ensures CommentLine(line) + "\n" == LuaCommentText(line)
  {
    Reassoc(line, "--<LINE NOT MATCHED>", "\n");
    assert "--<LINE NOT MATCHED>" + "\n" == "--<LINE NOT MATCHED>\n";
  }

  lemma BlockText(ident: string, head: string, text: string, lines: seq<string>, body: string)
    requires head + "\n" == text && Joined(lines) == body
    ensures Joined([ident + head] + lines + [ident + "end"]) == ident + text + body + ident + "end\n"
  {
    JoinedOne(ident + head);
    JoinedOne(ident + "end");
    JoinedTwice([ident + head], lines);
    JoinedTwice([ident + head] + lines, [ident + "end"]);
    Reassoc(ident, head, "\n");
    Reassoc(ident, "end", "\n");
    assert "end" + "\n" == "end\n";
    Reassoc(ident + text + body, ident, "end\n");
  }

  lemma {:induction false} TextIsLines(l: Lua, ident: string)
    ensures LuaText(l, ident) == Joined(TreeLines(l, ident))
    decreases l, 1
  {
    hide Joined, ForHead, IfHead, AppendLine, CommentLine, LuaForText, LuaIfText, LuaAppendText, LuaCommentText;
    match l {
      case LuaFor(v, lo, hi, step, body) =>
        TextsAreLines(body, ident + "  ");
        ForHeadText(v, lo, hi, step);
        hide AllTreeLines, LuaTexts;
        BlockText(ident, ForHead(v, lo, hi, step), LuaForText(v, lo, hi, step), AllTreeLines(body, ident + "  "),
                  LuaTexts(body, ident + "  "));
      case LuaIf(c, body) =>
        TextsAreLines(body, ident + "  ");
        IfHeadText(c);
        hide AllTreeLines, LuaTexts;
        BlockText(ident, IfHead(c), LuaIfText(c), AllTreeLines(body, ident + "  "), LuaTexts(body, ident + "  "));
      case LuaAppend(args) =>
        AppendText(args);
        JoinedOne(ident + AppendLine(args));
        Reassoc(ident, AppendLine(args), "\n");
      case LuaComment(line) =>
        CommentText(line);
        JoinedOne(ident + CommentLine(line));
        Reassoc(ident, CommentLine(line), "\n");
    }
  }

  lemma {:induction false} TextsAreLines(ls: seq<Lua>, ident: string)
    ensures LuaTexts(ls, ident) == Joined(AllTreeLines(ls, ident))
    decreases ls, 0
  {
    hide LuaText, TreeLines;
    if ls == [] {
    } else {
      TextIsLines(ls[0], ident);
      TextsAreLines(ls[1..], ident);
      JoinedTwice(TreeLines(ls[0], ident), AllTreeLines(ls[1..], ident));
    }
  }

  // ---------------------------------------------------------------- reading the lines

  predicate IsIdent(s: string) {
    forall i :: 0 <= i < |s| ==> s[i] == ' '
  }

  lemma {:induction false} StripIdent(ident: string, line: string)
    requires IsIdent(ident) && (line != "" ==> line[0] != ' ')
    ensures Stripped(ident + line) == line
    decreases |ident|
  {
    if ident == "" {
      assert ident + line == line;
    } else {
      assert (ident + line)[1..] == ident[1..] + line;
      StripIdent(ident[1..], line);
    }
  }

  lemma ForOpens(ident: string, v: nat, lo: Bound, hi: Bound, step: nat)
    requires IsIdent(ident)
    ensures Opens(ident + ForHead(v, lo, hi, step)) && !Closes(ident + ForHead(v, lo, hi, step))
  {
    hide InitText, BoundText, Digits;
    var h := ForHead(v, lo, hi, step);
    assert |h| >= 4 && h[0] == 'f' && h[1] == 'o' && h[2] == 'r' && h[3] == ' ';
    assert h[..4] == "for ";
    hide ForHead;
    StripIdent(ident, h);
  }

  lemma IfOpens(ident: string, c: Cond)
    requires IsIdent(ident)
    ensures Opens(ident + IfHead(c)) && !Closes(ident + IfHead(c))
  {
    hide LuaCondText;
    var h := IfHead(c);
    assert |h| >= 4 && h[0] == 'i' && h[1] == 'f' && h[2] == ' ' && h[3] == '(';
    assert h[..4] == "if (";
    hide IfHead;
    StripIdent(ident, h);
  }

  lemma AppendStays(ident: string, args: seq<Affine>)
    requires IsIdent(ident)
    ensures !Opens(ident + AppendLine(args)) && !Closes(ident + AppendLine(args))
  {
    hide ArgsText;
    var h := AppendLine(args);
    assert h != "" && h[0] == 't';
    hide AppendLine;
    StripIdent(ident, h);
  }

  lemma {:induction false} StrippedBlanks(line: string, text: string)
    requires IsLead(line) && text != "" && text[0] == '-'
    ensures var r := Stripped(line + text); r != "" && (r[0] == '\t' || r[0] == '-')
    decreases |line|
  {
    if line == "" {
      assert line + text == text;
    } else {
      assert (line + text)[1..] == line[1..] + text;
      if line[0] == ' ' { StrippedBlanks(line[1..], text); }
    }
  }

  lemma CommentStays(ident: string, line: Blanks)
    requires IsIdent(ident)
    ensures !Opens(ident + CommentLine(line)) && !Closes(ident + CommentLine(line))
  {
    Reassoc(ident, line, "--<LINE NOT MATCHED>");
    StrippedBlanks(ident + line, "--<LINE NOT MATCHED>");
    hide Stripped;
  }

  lemma EndCloses(ident: string)
    requires IsIdent(ident)
    ensures Closes(ident + "end")
  {
    StripIdent(ident, "end");
  }

  /** Reading a block whose inner lines are known to read as `kids`. */
  lemma ReadBlock(head: string, lines: seq<string>, kids: seq<Tree>, end: string, tail: seq<string>, more: seq<Tree>,
                  rest: seq<string>)
    requires Opens(head) && !Closes(head) && Closes(end)
    requires Blocks(lines + ([end] + tail)) == Some((kids, [end] + tail)) && Blocks(tail) == Some((more, rest))
    ensures Blocks([head] + lines + [end] + tail) == Some(([Node(head, kids)] + more, rest))
  {
    hide Opens, Closes;
    var all := [head] + lines + [end] + tail;
    assert all[0] == head && all[1..] == lines + ([end] + tail) && ([end] + tail)[1..] == tail;
  }

  lemma ReadLeaf(line: string, tail: seq<string>, more: seq<Tree>, rest: seq<string>)
    requires !Opens(line) && !Closes(line) && Blocks(tail) == Some((more, rest))
    ensures Blocks([line] + tail) == Some(([Leaf(line)] + more, rest))
  {
    hide Opens, Closes;
    assert ([line] + tail)[0] == line && ([line] + tail)[1..] == tail;
  }

  /** The lines of a statement, before lines that read as `more`, read as its tree and then `more`. */
  lemma {:induction false} StmtRead(l: Lua, ident: string, tail: seq<string>, more: seq<Tree>, rest: seq<string>)
    requires IsIdent(ident) && Blocks(tail) == Some((more, rest))
    ensures Blocks(TreeLines(l, ident) + tail) == Some(([TreeOf(l, ident)] + more, rest))
    decreases l, 1
  {
    hide Blocks, Opens, Closes, ForHead, IfHead, AppendLine, CommentLine;
    match l {
      case LuaFor(v, lo, hi, step, body) =>
        ForOpens(ident, v, lo, hi, step);
        BodyRead(ident + ForHead(v, lo, hi, step), body, ident, tail, more, rest);
      case LuaIf(c, body) =>
        IfOpens(ident, c);
        BodyRead(ident + IfHead(c), body, ident, tail, more, rest);
      case LuaAppend(args) =>
        AppendStays(ident, args);
        ReadLeaf(ident + AppendLine(args), tail, more, rest);
      case LuaComment(line) =>
        CommentStays(ident, line);
        ReadLeaf(ident + CommentLine(line), tail, more, rest);
    }
  }

  lemma {:induction false} BodyRead(head: string, body: seq<Lua>, ident: string, tail: seq<string>, more: seq<Tree>,
                                    rest: seq<string>)
    requires IsIdent(ident) && Opens(head) && !Closes(head) && Blocks(tail) == Some((more, rest))
    ensures Blocks([head] + AllTreeLines(body, ident + "  ") + [ident + "end"] + tail)
         == Some(([Node(head, TreesOf(body, ident + "  "))] + more, rest))
    decreases body, 1
  {
    EndCloses(ident);
    CloseRead(ident + "end", tail);
    hide Blocks, Opens, Closes;
    BlockRead(body, ident + "  ", [ident + "end"] + tail, [], [ident + "end"] + tail);
    assert TreesOf(body, ident + "  ") + [] == TreesOf(body, ident + "  ");
    hide TreesOf, AllTreeLines;
    ReadBlock(head, AllTreeLines(body, ident + "  "), TreesOf(body, ident + "  "), ident + "end", tail, more, rest);
  }

  lemma CloseRead(end: string, tail: seq<string>)
    requires Closes(end)
    ensures Blocks([end] + tail) == Some(([], [end] + tail))
  {
  }

  lemma {:induction false} BlockRead(ls: seq<Lua>, ident: string, tail: seq<string>, more: seq<Tree>, rest: seq<string>)
    requires IsIdent(ident) && Blocks(tail) == Some((more, rest))
    ensures Blocks(AllTreeLines(ls, ident) + tail) == Some((TreesOf(ls, ident) + more, rest))
    decreases ls, 0
  {
    hide Blocks, TreeLines, TreeOf;
    if ls == [] {
      assert [] + tail == tail && [] + more == more;
    } else {
      BlockRead(ls[1..], ident, tail, more, rest);
      StmtRead(ls[0], ident, AllTreeLines(ls[1..], ident) + tail, TreesOf(ls[1..], ident) + more, rest);
      var a, b := TreeLines(ls[0], ident), AllTreeLines(ls[1..], ident);
      assert AllTreeLines(ls, ident) == a + b && TreesOf(ls, ident) == [TreeOf(ls[0], ident)] + TreesOf(ls[1..], ident);
      hide AllTreeLines, TreesOf;
      assert a + (b + tail) == a + b + tail;
      assert [TreeOf(ls[0], ident)] + (TreesOf(ls[1..], ident) + more)
          == [TreeOf(ls[0], ident)] + TreesOf(ls[1..], ident) + more;
    }
  }

  const FIRST_LINE := "tuples = {}"
  const LAST_LINE := "--<LINE NOT MATCHED>"

  lemma FrameText(body: seq<string>)
    ensures Joined([FIRST_LINE] + body + [LAST_LINE]) == "tuples = {}\n" + Joined(body) + "--<LINE NOT MATCHED>\n"
  {
    JoinedOne(FIRST_LINE);
    JoinedOne(LAST_LINE);
    JoinedTwice([FIRST_LINE], body);
    JoinedTwice([FIRST_LINE] + body, [LAST_LINE]);
    hide Joined;
    assert FIRST_LINE + "\n" == "tuples = {}\n" && LAST_LINE + "\n" == "--<LINE NOT MATCHED>\n";
  }

  lemma FrameStays()
    ensures !Opens(FIRST_LINE) && !Closes(FIRST_LINE) && !Opens(LAST_LINE) && !Closes(LAST_LINE)
  {
    assert Stripped(FIRST_LINE) == FIRST_LINE && Stripped(LAST_LINE) == LAST_LINE;
    assert FIRST_LINE[0] == 't' && LAST_LINE[0] == '-' && "for "[0] == 'f' && "if ("[0] == 'i' && "end"[0] == 'e';
  }

  lemma NothingRead()
    ensures Blocks([]) == Some(([], []))
  {
  }

  lemma FrameRead(ls: seq<Lua>)
    ensures Blocks([FIRST_LINE] + AllTreeLines(ls, "") + [LAST_LINE])
         == Some(([Leaf(FIRST_LINE)] + TreesOf(ls, "") + [Leaf(LAST_LINE)], []))
  {
    FrameStays();
    NothingRead();
    hide Blocks, Opens, Closes, AllTreeLines, TreesOf;
    var body, trees := AllTreeLines(ls, ""), TreesOf(ls, "");
    ReadLeaf(LAST_LINE, [], [], []);
    assert [LAST_LINE] + [] == [LAST_LINE] && [Leaf(LAST_LINE)] + [] == [Leaf(LAST_LINE)];
    BlockRead(ls, "", [LAST_LINE], [Leaf(LAST_LINE)], []);
    ReadLeaf(FIRST_LINE, body + [LAST_LINE], trees + [Leaf(LAST_LINE)], []);
    assert [FIRST_LINE] + (body + [LAST_LINE]) == [FIRST_LINE] + body + [LAST_LINE];
    assert [Leaf(FIRST_LINE)] + (trees + [Leaf(LAST_LINE)]) == [Leaf(FIRST_LINE)] + trees + [Leaf(LAST_LINE)];
  }

  /** Read as Lua blocks, the translator's output is the image of the source, node by node, between the line that
      empties the table and the one that `gmatch` makes up: every block is closed where the source closes it. */
  lemma OutputIsTree(ss: seq<Stmt>)
    requires AllWellFormed(ss)
    ensures var lines := [FIRST_LINE] + AllTreeLines(Images(ss), "") + [LAST_LINE];
            && OcParser.ParseCode(CText(ss)) == Some(Joined(lines))
            && Blocks(lines) == Some(([Leaf(FIRST_LINE)] + TreesOf(Images(ss), "") + [Leaf(LAST_LINE)], []))
  {
    hide Joined, Blocks, Images, AllTreeLines, TreesOf, LuaTexts, OcParser.ParseCode, CText, AllWellFormed;
    ProgramTranslated(ss);
    TextsAreLines(Images(ss), "");
    FrameText(AllTreeLines(Images(ss), ""));
    FrameRead(Images(ss));
  }

  // ---------------------------------------------------------------- the program in gen_file.lua

  function Number(n: nat): Bound {
    Linear(Start(false, Const(n)))
  }

  function GenCall(): Stmt {
    Call("    ", 1, [Start(false, Variable(1)), Start(false, Variable(2))])
  }

  function GenInner(): Stmt {
    For("  ", 2, Number(2), Number(10), 2, [GenCall()], "  ")
  }

  /** Two loops and a blank line. */
  function GenProgram(): seq<Stmt> {
    [For("", 1, Number(3), Number(9), 3, [GenInner()], ""), Blank("")]
  }

  lemma GenIsWellFormed()
    ensures AllWellFormed(GenProgram())
  {
    assert [GenInner()][1..] == [] && [GenCall()][1..] == [];
    assert GenProgram()[1..] == [Blank("")] && [Blank("")][1..] == [];
    assert WellFormed(GenCall()) && AllWellFormed([GenCall()]);
    assert WellFormed(GenInner()) && AllWellFormed([GenInner()]);
  }

  lemma SmallDigits()
    ensures Digits(1) == "1" && Digits(2) == "2" && Digits(3) == "3" && Digits(9) == "9" && Digits(10) == "10"
  {
    assert Digits(10) == Digits(1) + Digits(0);
  }

  lemma GenHeads()
    ensures ForHead(1, Number(3), Number(9), 3) == "for t1 = 3, 9, 3 do"
    ensures ForHead(2, Number(2), Number(10), 2) == "for t2 = 2, 10, 2 do"
  {
    SmallDigits();
  }

  lemma GenTuple()
    ensures AppendLine(GenCall().args) == "tuples[#tuples+1] = {t1,t2};"
  {
    SmallDigits();
    var args := GenCall().args;
    assert args[1..] == [Start(false, Variable(2))];
    assert ArgsText(args) == "t1" + "," + ArgsText(args[1..]) && ArgsText(args[1..]) == "t2";
  }

  lemma OneTree(l: Lua, ident: string)
    ensures AllTreeLines([l], ident) == TreeLines(l, ident)
  {
    hide TreeLines;
    assert [l][1..] == [] && AllTreeLines([], ident) == [];
    assert TreeLines(l, ident) + [] == TreeLines(l, ident);
  }

  lemma OneImage(s: Stmt)
    ensures Images([s]) == [Image(s)]
  {
    hide Image;
    assert [s][1..] == [] && Images([]) == [];
  }

  const GEN_LINES: seq<string> := [
    "for t1 = 3, 9, 3 do",
    "  for t2 = 2, 10, 2 do",
    "    tuples[#tuples+1] = {t1,t2};",
    "  end",
    "end",
    "--<LINE NOT MATCHED>"]

  lemma GenForLines()
    ensures "" + "for t1 = 3, 9, 3 do" == GEN_LINES[0] && "  " + "for t2 = 2, 10, 2 do" == GEN_LINES[1]
  {
  }

  lemma GenTupleLine()
    ensures "    " + "tuples[#tuples+1] = {t1,t2};" == GEN_LINES[2]
  {
  }

  lemma GenEndLines()
    ensures "  " + "end" == GEN_LINES[3] && "" + "end" == GEN_LINES[4]
    ensures "" + ("" + "--<LINE NOT MATCHED>") == GEN_LINES[5]
  {
  }

  lemma GenTree()
    ensures AllTreeLines(Images(GenProgram()), "") == GEN_LINES
  {
    GenHeads();
    GenTuple();
    var call, inner, outer, end := Image(GenCall()), Image(GenInner()), Image(GenProgram()[0]), LuaComment("");
    OneImage(GenCall());
    OneImage(GenInner());
    OneImage(Blank(""));
    OneTree(call, "    ");
    OneTree(inner, "  ");
    OneTree(end, "");
    assert GenProgram()[1..] == [Blank("")];
    assert Images(GenProgram()) == [outer] + [end];
    GenForLines();
    GenTupleLine();
    GenEndLines();
    assert "  " + "  " == "    " && "" + "  " == "  ";
    hide ForHead, AppendLine, Images, GEN_LINES;
    assert TreeLines(call, "    ") == [GEN_LINES[2]];
    assert TreeLines(inner, "  ") == [GEN_LINES[1]] + [GEN_LINES[2]] + [GEN_LINES[3]];
    assert TreeLines(outer, "") == [GEN_LINES[0]] + TreeLines(inner, "  ") + [GEN_LINES[4]];
    assert TreeLines(end, "") == [GEN_LINES[5]];
    assert ([outer] + [end])[1..] == [end];
  }

  /** The translator's output that the repository keeps, src/atpserver/lua/gen_file.lua from its line 18 on, is that of
      two loops followed by a blank line. */
  lemma GenFileTranslated()
    ensures OcParser.ParseCode(CText(GenProgram())) == Some(Joined([FIRST_LINE] + GEN_LINES + [LAST_LINE]))
  {
    hide GEN_LINES, GenProgram, Images, AllTreeLines, TreesOf, OcParser.ParseCode, CText, AllWellFormed, Blocks;
    GenIsWellFormed();
    OutputIsTree(GenProgram());
    GenTree();
  }
}
