/** The part of Lua's pattern matching (section 5.4 of the Lua 5.1 Reference Manual) that
    src/atpserver/lua/parse_oc_code.lua uses: single characters, repetitions with backtracking, `string.find`, and
    `string.gsub` and `string.gmatch` for the patterns they are called with. */
module LuaPattern {
  import opened Options

  /** A character class. */
  datatype Class = Is(c: char) | Not(chars: string) | OneOf(chars: string) | Space | AlNum | Any

  datatype Item = One(x: Class) | Star(x: Class) | Plus(x: Class)

  predicate IsAlNum(c: char) {
    '0' <= c <= '9' || 'a' <= c <= 'z' || 'A' <= c <= 'Z'
  }

  predicate IsBlankChar(c: char) {
    c == ' ' || '\t' <= c <= '\r'
  }

  predicate In(c: char, x: Class) {
    match x
    case Is(d) => c == d
    case Not(ds) => c !in ds
    case OneOf(ds) => c in ds
    case Space => IsBlankChar(c)
    case AlNum => IsAlNum(c)
    case Any => true
  }

  /** Letters, digits and white space as the C locale has them. */
  lemma ClassesExact(c: char)
    ensures In(c, AlNum) <==>
              c in "0123456789" || c in "abcdefghijklmnopqrstuvwxyz" || c in "ABCDEFGHIJKLMNOPQRSTUVWXYZ"
    ensures In(c, Space) <==> c in " \t\n\U{000B}\U{000C}\r"
  {
    SmallLetters(c);
    LargeLetters(c);
    TenDigits(c);
  }

  lemma TenDigits(c: char)
    ensures c in "0123456789" <==> '0' <= c <= '9'
  {
  }

  lemma SmallLetters(c: char)
    ensures c in "abcdefghijklmnopqrstuvwxyz" <==> 'a' <= c <= 'z'
  {
    var s := "abcdefghijklmnopqrstuvwxyz";
    if 'a' <= c <= 'z' { assert s[c as int - 'a' as int] == c; }
  }

  lemma LargeLetters(c: char)
    ensures c in "ABCDEFGHIJKLMNOPQRSTUVWXYZ" <==> 'A' <= c <= 'Z'
  {
    var s := "ABCDEFGHIJKLMNOPQRSTUVWXYZ";
    if 'A' <= c <= 'Z' { assert s[c as int - 'A' as int] == c; }
  }

  /** How many characters from `p` on are in the class. */
  function RunLength(s: string, p: nat, x: Class): (n: nat)
    requires p <= |s|
    ensures p + n <= |s| && (forall i :: p <= i < p + n ==> In(s[i], x)) && (p + n < |s| ==> !In(s[p + n], x))
    decreases |s| - p
  {
    if p == |s| || !In(s[p], x) then 0 else 1 + RunLength(s, p + 1, x)
  }

  /** The end of the match of `pat` at `p`. */
  function MatchAt(s: string, p: nat, pat: seq<Item>): (r: Option<nat>)
    requires p <= |s|
    ensures r.Some? ==> p <= r.value <= |s|
    decreases |pat|, 0
  {
    if pat == [] then Some(p)
    else
      match pat[0]
      case One(x) => if p < |s| && In(s[p], x) then MatchAt(s, p + 1, pat[1..]) else None
      case Star(x) => Longest(s, p, 0, RunLength(s, p, x), pat[1..])
      case Plus(x) => Longest(s, p, 1, RunLength(s, p, x), pat[1..])
  }

  /** The rest of the pattern after the longest repetition, of at least `least` and at most `n` characters, that
      lets it match. */
  function Longest(s: string, p: nat, least: nat, n: nat, rest: seq<Item>): (r: Option<nat>)
    requires p + n <= |s|
    ensures r.Some? ==> p <= r.value <= |s|
    decreases |rest|, n + 1
  {
    if n < least then None
    else
      match MatchAt(s, p + n, rest)
      case Some(e) => Some(e)
      case None => if n == 0 then None else Longest(s, p, least, n - 1, rest)
  }

  /** `string.find`: where the first match starts, and where it ends. */
  function Find(s: string, pat: seq<Item>): (r: Option<(nat, nat)>)
    ensures r.Some? ==> r.value.0 <= r.value.1 <= |s|
  {
    FindFrom(s, 0, pat)
  }

  function FindFrom(s: string, p: nat, pat: seq<Item>): (r: Option<(nat, nat)>)
    requires p <= |s|
    ensures r.Some? ==> p <= r.value.0 <= r.value.1 <= |s|
    decreases |s| - p
  {
    match MatchAt(s, p, pat)
    case Some(e) => Some((p, e))
    case None => if p == |s| then None else FindFrom(s, p + 1, pat)
  }

  /** `string.gsub` for a pattern of two literal characters. */
  function ReplacePair(s: string, a: char, b: char, to: string): string {
    if s == "" then ""
    else if |s| > 1 && s[0] == a && s[1] == b then to + ReplacePair(s[2..], a, b, to)
    else [s[0]] + ReplacePair(s[1..], a, b, to)
  }

  /** `string.gsub` for one literal character. */
  function ReplaceChar(s: string, a: char, to: char): (r: string)
    ensures |r| == |s| && forall i :: 0 <= i < |s| ==> r[i] == if s[i] == a then to else s[i]
  {
    seq(|s|, i requires 0 <= i < |s| => if s[i] == a then to else s[i])
  }

  /** The captures of `gmatch("([^\r\n]*)[\r\n]?")`: the lines, and an empty one at the very end. */
  function Lines(s: string, p: nat): seq<string>
    requires p <= |s|
    decreases |s| - p
  {
    var q := p + RunLength(s, p, Not("\r\n"));
    if q < |s| then [s[p..q]] + Lines(s, q + 1)
    else if q == p then [""]
    else [s[p..q]] + [""]
  }

  // ---------------------------------------------------------------- where a pattern does not match

  /** A pattern that starts with a literal `a` then `b` needs the two next to each other. */
  predicate NoPair(s: string, a: char, b: char) {
    forall i :: 0 <= i < |s| - 1 ==> !(s[i] == a && s[i + 1] == b)
  }

  lemma {:induction false} PairNeeded(s: string, p: nat, a: char, b: char, rest: seq<Item>)
    requires p <= |s| && NoPair(s, a, b)
    ensures FindFrom(s, p, [One(Is(a)), One(Is(b))] + rest) == None
    decreases |s| - p
  {
    var pat := [One(Is(a)), One(Is(b))] + rest;
    assert pat[1..] == [One(Is(b))] + rest && pat[0] == One(Is(a));
    assert MatchAt(s, p, pat) == if p < |s| && s[p] == a then MatchAt(s, p + 1, [One(Is(b))] + rest) else None;
    assert p + 1 <= |s| && !(p + 1 < |s| && s[p + 1] == b) ==> MatchAt(s, p + 1, [One(Is(b))] + rest) == None;
    if p >= |s| {
    } else {
      PairNeeded(s, p + 1, a, b, rest);
    }
  }

  /** `[^}]*}` needs its closing character. */
  lemma {:induction false} CharNeeded(s: string, p: nat, x: Class, c: char)
    requires p <= |s| && c !in s
    ensures FindFrom(s, p, [Star(x), One(Is(c))]) == None
    decreases |s| - p
  {
    var pat := [Star(x), One(Is(c))];
    assert pat[1..] == [One(Is(c))];
    NeverLongest(s, p, RunLength(s, p, x), c);
    if p >= |s| {
    } else {
      CharNeeded(s, p + 1, x, c);
    }
  }

  lemma {:induction false} NeverLongest(s: string, p: nat, n: nat, c: char)
    requires p + n <= |s| && c !in s
    ensures Longest(s, p, 0, n, [One(Is(c))]) == None
    decreases n
  {
    assert MatchAt(s, p + n, [One(Is(c))]) == None;
    if n == 0 {
    } else {
      NeverLongest(s, p, n - 1, c);
    }
  }
}
