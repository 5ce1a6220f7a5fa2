/** The loop nests that the Omega Calculator generates, as C text with one construct per line, and their images as
    Lua text. */
module LoopNest {
  import opened Decimals

  // ---------------------------------------------------------------- expressions

  /** `5`, `t2` or `5*t2` */
  datatype Term = Const(n: nat) | Variable(v: nat) | Scaled(n: nat, v: nat)

  /** A sum of terms. */
  datatype Affine = Start(negative: bool, t: Term) | Plus(a: Affine, negative: bool, t: Term)

  datatype Bound = Linear(a: Affine) | Max(x: Bound, y: Bound) | Min(x: Bound, y: Bound)

  datatype Relation = LE | GE | LT | GT | EQ | NE

  datatype Cond = Compare(x: Bound, r: Relation, y: Bound) | And(a: Cond, b: Cond) | Or(a: Cond, b: Cond)

  function VarText(v: nat): string {
    "t" + Digits(v)
  }

  function TermText(t: Term): string {
    match t
    case Const(n) => Digits(n)
    case Variable(v) => VarText(v)
    case Scaled(n, v) => Digits(n) + "*" + VarText(v)
  }

  function AffineText(a: Affine): string {
    match a
    case Start(negative, t) => (if negative then "-" else "") + TermText(t)
    case Plus(b, negative, t) => AffineText(b) + (if negative then "-" else "+") + TermText(t)
  }

  function BoundText(b: Bound): string {
    match b
    case Linear(a) => AffineText(a)
    case Max(x, y) => "max(" + BoundText(x) + "," + BoundText(y) + ")"
    case Min(x, y) => "min(" + BoundText(x) + "," + BoundText(y) + ")"
  }

  function RelationText(r: Relation): string {
    match r case LE => "<=" case GE => ">=" case LT => "<" case GT => ">" case EQ => "==" case NE => "!="
  }

  /** The conditions of C, with parentheses only where `||` stands under `&&`. */
  function CondText(c: Cond): string
    decreases c, 0
  {
    match c
    case Compare(x, r, y) => BoundText(x) + " " + RelationText(r) + " " + BoundText(y)
    case And(a, b) => FactorText(a) + " && " + FactorText(b)
    case Or(a, b) => CondText(a) + " || " + CondText(b)
  }

  function FactorText(c: Cond): string
    decreases c, 1
  {
    if c.Or? then "(" + CondText(c) + ")" else CondText(c)
  }

  function LuaRelationText(r: Relation): string {
    if r == NE then "~=" else RelationText(r)
  }

  /** The conditions of Lua. */
  function LuaCondText(c: Cond): string
    decreases c, 0
  {
    match c
    case Compare(x, r, y) => BoundText(x) + " " + LuaRelationText(r) + " " + BoundText(y)
    case And(a, b) => LuaFactorText(a) + " and " + LuaFactorText(b)
    case Or(a, b) => LuaCondText(a) + " or " + LuaCondText(b)
  }

  function LuaFactorText(c: Cond): string
    decreases c, 1
  {
    if c.Or? then "(" + LuaCondText(c) + ")" else LuaCondText(c)
  }

  // ---------------------------------------------------------------- statements

  predicate IsLead(s: string) {
    forall i :: 0 <= i < |s| ==> s[i] == ' ' || s[i] == '\t'
  }

  type Blanks = s: string | IsLead(s)

  /** `lead` and `close` are the blanks before a line and before the line of its closing brace; a line may hold nothing
      but blanks. */
  datatype Stmt =
    | For(lead: string, v: nat, lo: Bound, hi: Bound, step: nat, body: seq<Stmt>, close: string)
    | If(lead: string, cond: Cond, body: seq<Stmt>, close: string)
    | Call(lead: string, s: nat, args: seq<Affine>)
    | Blank(line: Blanks)

  /** What the Omega Calculator writes: positive steps, and tuples that are not empty. */
  predicate WellFormed(s: Stmt)
    decreases s, 0
  {
    match s
    case For(lead, _, _, _, step, body, close) => IsLead(lead) && IsLead(close) && step > 0 && AllWellFormed(body)
    case If(lead, _, body, close) => IsLead(lead) && IsLead(close) && AllWellFormed(body)
    case Call(lead, _, args) => IsLead(lead) && args != []
    case Blank(_) => true
  }

  predicate AllWellFormed(ss: seq<Stmt>)
    decreases ss, 0
  {
    ss != [] ==> WellFormed(ss[0]) && AllWellFormed(ss[1..])
  }

  function ArgsText(args: seq<Affine>): string {
    if args == [] then ""
    else if |args| == 1 then AffineText(args[0])
    else AffineText(args[0]) + "," + ArgsText(args[1..])
  }

  function StepText(v: nat, step: nat): string {
    if step == 1 then VarText(v) + "++" else VarText(v) + " += " + Digits(step)
  }

  /** The terms of a `for`, and its line. */
  function InitText(v: nat, lo: Bound): string {
    VarText(v) + " = " + BoundText(lo)
  }

  function TestText(v: nat, hi: Bound): string {
    VarText(v) + " <= " + BoundText(hi)
  }

  function ForText(lead: string, v: nat, lo: Bound, hi: Bound, step: nat): string {
    lead + ("for(" + (InitText(v, lo) + ("; " + (TestText(v, hi) + ("; " + (StepText(v, step) + ") {"))))))
  }

  function IfText(lead: string, c: Cond): string {
    lead + ("if (" + (CondText(c) + ") {"))
  }

  function CallText(lead: string, s: nat, args: seq<Affine>): string {
    lead + (("s" + Digits(s)) + ("(" + (ArgsText(args) + ");")))
  }

  /** The lines of a statement. */
  function CLines(s: Stmt): seq<string>
    decreases s, 1
  {
    match s
    case For(lead, v, lo, hi, step, body, close) => [ForText(lead, v, lo, hi, step)] + AllCLines(body) + [close + "}"]
    case If(lead, c, body, close) => [IfText(lead, c)] + AllCLines(body) + [close + "}"]
    case Call(lead, s, args) => [CallText(lead, s, args)]
    case Blank(line) => [line]
  }

  function AllCLines(ss: seq<Stmt>): seq<string>
    decreases ss, 0
  {
    if ss == [] then [] else CLines(ss[0]) + AllCLines(ss[1..])
  }

  /** Lines, each with its line break. */
  function Joined(lines: seq<string>): string {
    if lines == [] then "" else lines[0] + "\n" + Joined(lines[1..])
  }

  /** The C text of a program. */
  function CText(ss: seq<Stmt>): string {
    Joined(AllCLines(ss))
  }

  // ---------------------------------------------------------------- Lua

  /** Lua statements: a numeric `for`, an `if`, the appending of a tuple, and a comment. */
  datatype Lua =
    | LuaFor(v: nat, lo: Bound, hi: Bound, step: nat, body: seq<Lua>)
    | LuaIf(cond: Cond, body: seq<Lua>)
    | LuaAppend(args: seq<Affine>)
    | LuaComment(line: Blanks)

  /** The image of a statement: node by node. */
  function Image(s: Stmt): Lua
    decreases s, 1
  {
    match s
    case For(_, v, lo, hi, step, body, _) => LuaFor(v, lo, hi, step, Images(body))
    case If(_, c, body, _) => LuaIf(c, Images(body))
    case Call(_, _, args) => LuaAppend(args)
    case Blank(line) => LuaComment(line)
  }

  function Images(ss: seq<Stmt>): seq<Lua>
    decreases ss, 0
  {
    if ss == [] then [] else [Image(ss[0])] + Images(ss[1..])
  }

  /** The head of a numeric `for`; the step 1 is left out. */
  function LuaForText(v: nat, lo: Bound, hi: Bound, step: nat): string {
    "for " + InitText(v, lo) + "," + (" " + BoundText(hi))
    + (if step == 1 then "" else "," + (" " + Digits(step))) + " do\n"
  }

  function LuaIfText(c: Cond): string {
    "if (" + LuaCondText(c) + ")" + " then\n"
  }

  function LuaAppendText(args: seq<Affine>): string {
    "tuples[#tuples+1] = " + ("{" + ArgsText(args) + "};" + "\n")
  }

  /** What the translator makes of a line that matches nothing. */
  function LuaCommentText(line: string): string {
    line + "--<LINE NOT MATCHED>\n"
  }

  /** The text of a statement, indented by two spaces for every open block. */
  function LuaText(l: Lua, ident: string): string
    decreases l, 1
  {
    match l
    case LuaFor(v, lo, hi, step, body) =>
      ident + LuaForText(v, lo, hi, step) + LuaTexts(body, ident + "  ") + ident + "end\n"
    case LuaIf(c, body) => ident + LuaIfText(c) + LuaTexts(body, ident + "  ") + ident + "end\n"
    case LuaAppend(args) => ident + LuaAppendText(args)
    case LuaComment(line) => ident + LuaCommentText(line)
  }

  function LuaTexts(ls: seq<Lua>, ident: string): string
    decreases ls, 0
  {
    if ls == [] then "" else LuaText(ls[0], ident) + LuaTexts(ls[1..], ident)
  }
}
