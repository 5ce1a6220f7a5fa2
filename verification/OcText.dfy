/** The characters of the translator's input, and what its patterns find there. */
module OcText {
  import opened Options
  import opened Decimals
  import opened LuaPattern
  import opened LoopNest

  // ---------------------------------------------------------------- pieces of a line

  /** `w` stands at position `p` of `s`. */
  predicate At(s: string, p: nat, w: string) {
    p + |w| <= |s| && forall i :: 0 <= i < |w| ==> s[p + i] == w[i]
  }

  lemma AtParts(s: string, p: nat, a: string, b: string)
    ensures At(s, p, a + b) <==> At(s, p, a) && At(s, p + |a|, b)
  {
    if At(s, p, a + b) {
      assert forall i :: 0 <= i < |a| ==> (a + b)[i] == a[i];
      assert forall i :: 0 <= i < |b| ==> (a + b)[|a| + i] == b[i] && s[p + (|a| + i)] == s[p + |a| + i];
    }
    if At(s, p, a) && At(s, p + |a|, b) {
      forall i | 0 <= i < |a + b| ensures s[p + i] == (a + b)[i] {
        if i >= |a| { assert s[p + |a| + (i - |a|)] == b[i - |a|]; }
      }
    }
  }

  lemma AtSlice(s: string, p: nat, w: string)
    requires At(s, p, w)
    ensures s[p..p + |w|] == w
  {
  }

  lemma AtStart(s: string, a: string, b: string)
    requires s == a + b
    ensures At(s, 0, a) && At(s, |a|, b)
  {
  }

  // ---------------------------------------------------------------- characters

  /** What expressions are written with. */
  predicate IsPlain(c: char) {
    '0' <= c <= '9' || c == 't' || c == 'm' || c == 'a' || c == 'x' || c == 'i' || c == 'n'
    || c == '+' || c == '-' || c == '*' || c == '(' || c == ')' || c == ','
  }

  predicate AllPlain(s: string) {
    forall i :: 0 <= i < |s| ==> IsPlain(s[i])
  }

  /** What conditions are written with. */
  predicate IsCondChar(c: char) {
    IsPlain(c) || c == ' ' || c == '<' || c == '>' || c == '=' || c == '!' || c == '&' || c == '|'
  }

  predicate AllCond(s: string) {
    forall i :: 0 <= i < |s| ==> IsCondChar(s[i])
  }

  lemma PlainJoin(a: string, b: string)
    requires AllPlain(a) && AllPlain(b)
    ensures AllPlain(a + b)
  {
  }

  lemma CondJoin(a: string, b: string)
    requires AllCond(a) && AllCond(b)
    ensures AllCond(a + b)
  {
  }

  lemma PlainIsCond(a: string)
    requires AllPlain(a)
    ensures AllCond(a)
  {
  }

  /** No plus sign is followed by another, and the last character is no plus sign. */
  predicate PlusApart(s: string) {
    s != "" && s[|s| - 1] != '+' && NoPair(s, '+', '+')
  }

  lemma ApartJoin(a: string, b: string)
    requires PlusApart(b) && NoPair(a, '+', '+') && (a != "" && a[|a| - 1] == '+' ==> b[0] != '+')
    ensures PlusApart(a + b)
  {
    var s := a + b;
    forall i | 0 <= i < |s| - 1 ensures !(s[i] == '+' && s[i + 1] == '+') {
      if i + 1 < |a| {
        assert s[i] == a[i] && s[i + 1] == a[i + 1];
      } else if i >= |a| {
        assert s[i] == b[i - |a|] && s[i + 1] == b[i + 1 - |a|];
      }
    }
  }

  lemma DigitsPlain(n: nat)
    ensures AllPlain(Digits(n)) && PlusApart(Digits(n)) && Digits(n)[0] != '+'
  {
    OnlyDigits(n);
  }

  lemma VarPlain(v: nat)
    ensures AllPlain(VarText(v)) && PlusApart(VarText(v)) && VarText(v)[0] == 't'
  {
    DigitsPlain(v);
    hide Digits;
    ApartJoin("t", Digits(v));
  }

  /** No parentheses. */
  predicate Flat(s: string) {
    forall i :: 0 <= i < |s| ==> s[i] != '(' && s[i] != ')'
  }

  lemma FlatJoin(a: string, b: string)
    requires Flat(a) && Flat(b)
    ensures Flat(a + b)
  {
  }

  lemma DigitsFlat(n: nat)
    ensures Flat(Digits(n)) && Flat(VarText(n))
  {
    OnlyDigits(n);
    hide Digits;
  }

  lemma TermPlain(t: LoopNest.Term)
    ensures AllPlain(TermText(t)) && PlusApart(TermText(t)) && TermText(t)[0] != '+' && Flat(TermText(t))
  {
    match t {
      case Const(n) =>
        DigitsFlat(n);
        DigitsPlain(n);
      case Variable(v) =>
        DigitsFlat(v);
        VarPlain(v);
        hide VarText;
      case Scaled(n, v) =>
        ScaledPlain(n, v);
    }
  }

  lemma ScaledPlain(n: nat, v: nat)
    ensures var s := Digits(n) + "*" + VarText(v); AllPlain(s) && PlusApart(s) && s[0] != '+' && Flat(s)
  {
    DigitsFlat(n);
    DigitsFlat(v);
    DigitsPlain(n);
    VarPlain(v);
    hide Digits, VarText, PlusApart, AllPlain, Flat;
    var d, w := Digits(n), VarText(v);
    StarApart(d, w);
    assert Flat("*") && AllPlain("*") by { OneStar(); }
    FlatJoin(d, "*");
    FlatJoin(d + "*", w);
    PlainJoin(d, "*");
    PlainJoin(d + "*", w);
  }

  lemma OneStar()
    ensures Flat("*") && AllPlain("*")
  {
  }

  lemma StarApart(d: string, w: string)
    requires PlusApart(d) && d[0] != '+' && PlusApart(w)
    ensures PlusApart(d + "*" + w) && (d + "*" + w)[0] != '+'
  {
    ApartJoin("*", w);
    ApartJoin(d, "*" + w);
    assert d + "*" + w == d + ("*" + w);
  }

  lemma {:induction false} AffinePlain(a: Affine)
    ensures AllPlain(AffineText(a)) && PlusApart(AffineText(a)) && AffineText(a)[0] != '+' && Flat(AffineText(a))
  {
    match a {
      case Start(negative, t) =>
        TermPlain(t);
        hide TermText;
        ApartJoin(if negative then "-" else "", TermText(t));
      case Plus(b, negative, t) =>
        AffinePlain(b);
        TermPlain(t);
        AffinePlus(b, negative, t);
        hide TermText, AffineText;
        SignedPlain(AffineText(b), if negative then "-" else "+", TermText(t));
    }
  }

  lemma SignedPlain(a: string, sign: string, t: string)
    requires AllPlain(a) && PlusApart(a) && a[0] != '+' && Flat(a) && (sign == "-" || sign == "+")
    requires AllPlain(t) && PlusApart(t) && t[0] != '+' && Flat(t)
    ensures var s := a + sign + t; AllPlain(s) && PlusApart(s) && s[0] != '+' && Flat(s)
  {
    ApartJoin(sign, t);
    ApartJoin(a, sign + t);
    assert a + sign + t == a + (sign + t);
  }

  lemma AffinePlus(b: Affine, negative: bool, t: LoopNest.Term)
    ensures AffineText(Affine.Plus(b, negative, t)) == AffineText(b) + (if negative then "-" else "+") + TermText(t)
  {
  }

  lemma {:induction false} BoundPlain(b: Bound)
    ensures AllPlain(BoundText(b)) && PlusApart(BoundText(b)) && BoundText(b)[0] != '+'
  {
    match b {
      case Linear(a) => AffinePlain(a);
      case Max(x, y) =>
        BoundPlain(x);
        BoundPlain(y);
        CallPlain("max(", BoundText(x), BoundText(y));
      case Min(x, y) =>
        BoundPlain(x);
        BoundPlain(y);
        CallPlain("min(", BoundText(x), BoundText(y));
    }
  }

  lemma CallPlain(f: string, x: string, y: string)
    requires (f == "max(" || f == "min(") && AllPlain(x) && AllPlain(y) && PlusApart(x) && PlusApart(y)
    ensures var s := f + x + "," + y + ")"; AllPlain(s) && PlusApart(s) && s[0] != '+'
  {
    assert AllPlain(f) && NoPair(f, '+', '+');
    assert PlusApart(")") && PlusApart(",");
    ApartJoin(f, x);
    ApartJoin(f + x, ",");
    ApartJoin(f + x + ",", y);
    ApartJoin(f + x + "," + y, ")");
    PlainJoin(f, x);
    PlainJoin(f + x, ",");
    PlainJoin(f + x + ",", y);
    PlainJoin(f + x + "," + y, ")");
  }

  lemma {:induction false} ArgsPlain(args: seq<Affine>)
    ensures AllPlain(ArgsText(args)) && Flat(ArgsText(args))
    ensures args != [] ==> ArgsText(args) != ""
  {
    if |args| == 1 {
      AffinePlain(args[0]);
    } else if |args| > 1 {
      AffinePlain(args[0]);
      ArgsPlain(args[1..]);
      hide AffineText;
      var x := AffineText(args[0]);
      assert AllPlain(",") && Flat(",");
      PlainJoin(x, ",");
      PlainJoin(x + ",", ArgsText(args[1..]));
      FlatJoin(x, ",");
      FlatJoin(x + ",", ArgsText(args[1..]));
    }
  }

  lemma {:induction false} CondChars(c: Cond)
    ensures AllCond(CondText(c)) && AllCond(FactorText(c))
  {
    match c {
      case Compare(x, r, y) =>
        BoundPlain(x);
        BoundPlain(y);
        RelationChars(r);
        CompareChars(BoundText(x), RelationText(r), BoundText(y));
      case And(a, b) =>
        CondChars(a);
        CondChars(b);
        NestChars(FactorText(a), " && ", FactorText(b));
      case Or(a, b) =>
        CondChars(a);
        CondChars(b);
        NestChars(CondText(a), " || ", CondText(b));
        FactorChars(CondText(c));
    }
    hide BoundText, CondText;
  }

  lemma RelationChars(r: Relation)
    ensures AllCond(RelationText(r))
  {
  }

  lemma CompareChars(x: string, r: string, y: string)
    requires AllPlain(x) && AllCond(r) && AllPlain(y)
    ensures AllCond(x + " " + r + " " + y)
  {
    CondJoin(x, " ");
    CondJoin(x + " ", r);
    CondJoin(x + " " + r, " ");
    CondJoin(x + " " + r + " ", y);
  }

  lemma NestChars(a: string, op: string, b: string)
    requires AllCond(a) && AllCond(op) && AllCond(b)
    ensures AllCond(a + op + b)
  {
    CondJoin(a, op);
    CondJoin(a + op, b);
  }

  lemma FactorChars(a: string)
    requires AllCond(a)
    ensures AllCond("(" + a + ")")
  {
    CondJoin("(", a);
    CondJoin("(" + a, ")");
  }

  // ---------------------------------------------------------------- runs and matches

  lemma {:induction false} RunIs(s: string, p: nat, n: nat, x: Class)
    requires p + n <= |s| && (forall i :: p <= i < p + n ==> In(s[i], x)) && (p + n < |s| ==> !In(s[p + n], x))
    ensures RunLength(s, p, x) == n
    decreases n
  {
    if n == 0 {
    } else {
      RunIs(s, p + 1, n - 1, x);
    }
  }

  lemma {:induction false} LongestIs(s: string, p: nat, least: nat, n: nat, k: nat, rest: seq<Item>)
    requires p + n <= |s| && least <= k <= n && MatchAt(s, p + k, rest).Some?
    requires forall j :: p + k < j <= p + n ==> MatchAt(s, j, rest) == None
    ensures Longest(s, p, least, n, rest) == MatchAt(s, p + k, rest)
    decreases n
  {
    if n <= k {
    } else {
      LongestIs(s, p, least, n - 1, k, rest);
    }
  }

  lemma LiteralMatch(s: string, p: nat, c: char, rest: seq<Item>)
    requires p < |s| && s[p] == c
    ensures MatchAt(s, p, [One(Is(c))] + rest) == MatchAt(s, p + 1, rest)
  {
    assert ([One(Is(c))] + rest)[1..] == rest;
  }

  /** A repetition that runs up to a place where the rest matches. */
  lemma RunMatch(s: string, p: nat, n: nat, x: Class, rest: seq<Item>)
    requires p + n <= |s| && (forall i :: p <= i < p + n ==> In(s[i], x)) && (p + n < |s| ==> !In(s[p + n], x))
    requires MatchAt(s, p + n, rest).Some?
    ensures MatchAt(s, p, [Star(x)] + rest) == MatchAt(s, p + n, rest)
    ensures n > 0 ==> MatchAt(s, p, [Item.Plus(x)] + rest) == MatchAt(s, p + n, rest)
  {
    RunIs(s, p, n, x);
    assert ([Star(x)] + rest)[1..] == rest && ([Item.Plus(x)] + rest)[1..] == rest;
    LongestIs(s, p, 0, n, n, rest);
    if n > 0 { LongestIs(s, p, 1, n, n, rest); }
  }

  /** A repetition that runs past the closing character and has to come back to its last occurrence. */
  lemma BackMatch(s: string, p: nat, k: nat, n: nat, x: Class, c: char)
    requires k < n && p + n <= |s| && (forall i :: p <= i < p + n ==> In(s[i], x)) && (p + n < |s| ==> !In(s[p + n], x))
    requires s[p + k] == c && forall i :: p + k < i < |s| ==> s[i] != c
    ensures MatchAt(s, p, [Star(x), One(Is(c))]) == Some(p + k + 1)
  {
    var rest := [One(Is(c))];
    RunIs(s, p, n, x);
    assert [Star(x), One(Is(c))][1..] == rest && rest[1..] == [];
    forall j | p + k < j <= p + n ensures MatchAt(s, j, rest) == None {
      assert j < |s| ==> s[j] != c;
    }
    assert MatchAt(s, p + k, rest) == Some(p + k + 1);
    LongestIs(s, p, 0, n, k, rest);
  }

  /** The first place where a pattern can match. */
  lemma {:induction false} FoundAt(s: string, p: nat, q: nat, pat: seq<Item>)
    requires p <= q <= |s| && MatchAt(s, q, pat).Some? && forall i :: p <= i < q ==> MatchAt(s, i, pat) == None
    ensures FindFrom(s, p, pat) == Some((q, MatchAt(s, q, pat).value))
    decreases q - p
  {
    hide MatchAt;
    if p >= q {
    } else {
      FoundAt(s, p + 1, q, pat);
    }
  }

  lemma LiteralFails(s: string, p: nat, c: char, rest: seq<Item>)
    requires p < |s| && s[p] != c
    ensures MatchAt(s, p, [One(Is(c))] + rest) == None
  {
  }
}
