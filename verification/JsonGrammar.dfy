/** The documents the parser of src/common/json.c accepts, as a recursive-descent reader of one text:
    the reference definition for the flag machine. */
module JsonGrammar {
  import opened JsonText

  datatype Json =
    | JNull
    | JBool(b: bool)
    | JInt(i: int)
    | JDouble                                   // its value is not modelled
    | JString(s: string)
    | JArray(items: seq<Json>)
    | JObject(members: seq<Member>)

  datatype Member = Member(name: string, value: Json)

  // ---------------------------------------------------------------- tokens

  /** The rest of a string from `p` on, `n` bytes of it having been read; stops after the closing quote. */
  function ReadString(t: string, p: nat, n: nat): (r: Parsed<string>)
    requires p <= |t|
    ensures r.Ok? ==> p < r.next <= |t|
    decreases |t| - p
  {
    var b := Peek(t, p);
    if b == '\0' || n > UINT_LIMIT then Err
    else if b == '"' then Ok("", p + 1)
    else
      match ReadChar(t, p)
      case Err => Err
      case Ok(bytes, q) =>
        match ReadString(t, q, n + |bytes|)
        case Err => Err
        case Ok(rest, r) => Ok(bytes + rest, r)
  }

  /** One character of a string, written as itself or as an escape sequence. */
  function ReadChar(t: string, p: nat): (r: Parsed<string>)
    requires p < |t|
    ensures r.Ok? ==> p < r.next <= |t|
  {
    if t[p] == '\\' then ReadEscape(t, p + 1) else Ok([t[p]], p + 1)
  }

  /** The bytes an escape sequence stands for, from the character after the backslash. */
  function ReadEscape(t: string, p: nat): (r: Parsed<string>)
    requires p <= |t|
    ensures r.Ok? ==> p < r.next <= |t|
  {
    var b := Peek(t, p);
    if b == '\0' then Err
    else if b == 'u' then
      match UnicodeEscape(t, p)
      case Err => Err
      case Ok(u, q) => Ok(Utf8(u), q)
    else Ok([SimpleEscape(b)], p + 1)
  }

  function DecimalValue(digits: string): (v: nat)
    requires forall c <- digits :: IsDigit(c)
  {
    if digits == "" then 0
    else DecimalValue(digits[..|digits| - 1]) * 10 + DigitValue(digits[|digits| - 1])
  }

  /** An optional minus, digits, then an optional fraction and exponent.  The digits may be missing after a
      minus (but not before a point), and a leading zero stands alone. */
  function ReadNumber(t: string, p: nat): (r: Parsed<Json>)
    requires p <= |t| && (IsDigit(Peek(t, p)) || Peek(t, p) == '-')
    ensures r.Ok? ==> p < r.next <= |t|
  {
    var d := if Peek(t, p) == '-' then p + 1 else p;
    var e := SkipDigits(t, d);
    if e > d + 1 && t[d] == '0' then Err else AfterDigits(t, d, e, d != p)
  }

  /** The rest of a number whose integer part is `t[d..e]`. */
  function AfterDigits(t: string, d: nat, e: nat, negative: bool): (r: Parsed<Json>)
    requires d <= e <= |t| && (forall i :: d <= i < e ==> IsDigit(t[i]))
    ensures r.Ok? ==> e <= r.next <= |t| && (r.value.JInt? || r.value.JDouble?)
  {
    if Peek(t, e) == '.' then
      var f := SkipDigits(t, e + 1);
      if e == d || f == e + 1 then Err
      else if IsExponent(Peek(t, f)) then ReadExponent(t, f + 1)
      else Ok(JDouble, f)
    else if IsExponent(Peek(t, e)) then ReadExponent(t, e + 1)
    else
      var v: int := DecimalValue(t[d..e]);
      Ok(JInt(Wrap64(if negative then -v else v)), e)
  }

  predicate IsExponent(c: char) {
    c == 'e' || c == 'E'
  }

  function ReadExponent(t: string, p: nat): (r: Parsed<Json>)
    requires p <= |t|
    ensures r.Ok? ==> p < r.next <= |t| && r.value == JDouble
  {
    var x := if Peek(t, p) == '+' || Peek(t, p) == '-' then p + 1 else p;
    var y := SkipDigits(t, x);
    if y == x then Err else Ok(JDouble, y)
  }

  predicate HasWord(t: string, p: nat, word: string) {
    p + |word| <= |t| && t[p..p + |word|] == word
  }

  // ---------------------------------------------------------------- values

  function ReadValue(t: string, p: nat): (r: Parsed<Json>)
    requires p <= |t|
    ensures r.Ok? ==> p < r.next <= |t|
    decreases |t| - p, 0
  {
    match Peek(t, p)
    case '{' => (match ReadMembers(t, p + 1, false, 0) case Err => Err case Ok(ms, q) => Ok(JObject(ms), q))
    case '[' => (match ReadItems(t, p + 1, false, 0) case Err => Err case Ok(vs, q) => Ok(JArray(vs), q))
    case '"' => (match ReadString(t, p + 1, 0) case Err => Err case Ok(s, q) => Ok(JString(s), q))
    case 't' => if HasWord(t, p, "true") then Ok(JBool(true), p + 4) else Err
    case 'f' => if HasWord(t, p, "false") then Ok(JBool(false), p + 5) else Err
    case 'n' => if HasWord(t, p, "null") then Ok(JNull, p + 4) else Err
    case b => if IsDigit(b) || b == '-' then ReadNumber(t, p) else Err
  }

  /** The rest of an array that already has `n` items; a comma may be followed by the closing bracket. */
  function ReadItems(t: string, p: nat, needComma: bool, n: nat): (r: Parsed<seq<Json>>)
    requires p <= |t|
    ensures r.Ok? ==> p < r.next <= |t|
    decreases |t| - p, 1
  {
    var q := SkipSpace(t, p);
    if Peek(t, q) == ']' then Ok([], q + 1)
    else if needComma then (if Peek(t, q) == ',' then ReadItems(t, q + 1, false, n) else Err)
    else
      match ReadValue(t, q)
      case Err => Err
      case Ok(v, q') =>
        if n + 1 > UINT_LIMIT then Err
        else
          match ReadItems(t, q', true, n + 1)
          case Err => Err
          case Ok(vs, r) => Ok([v] + vs, r)
  }

  /** The rest of an object that already has `n` members; a comma may be followed by the closing brace. */
  function ReadMembers(t: string, p: nat, needComma: bool, n: nat): (r: Parsed<seq<Member>>)
    requires p <= |t|
    ensures r.Ok? ==> p < r.next <= |t|
    decreases |t| - p, 1
  {
    var q := SkipSpace(t, p);
    if Peek(t, q) == '}' then Ok([], q + 1)
    else if Peek(t, q) == ',' && needComma then ReadMembers(t, q + 1, false, n)
    else if Peek(t, q) != '"' || needComma then Err
    else
      match ReadMember(t, q)
      case Err => Err
      case Ok(m, q') =>
        if n + 1 > UINT_LIMIT then Err
        else
          match ReadMembers(t, q', true, n + 1)
          case Err => Err
          case Ok(ms, r) => Ok([m] + ms, r)
  }

  /** A key, a colon and a value; `p` is at the opening quote of the key. */
  function ReadMember(t: string, p: nat): (r: Parsed<Member>)
    requires p <= |t| && Peek(t, p) == '"'
    ensures r.Ok? ==> p < r.next <= |t|
    decreases |t| - p, 0
  {
    match ReadString(t, p + 1, 0)
    case Err => Err
    case Ok(name, q) =>
      var c := SkipSpace(t, q);
      if Peek(t, c) != ':' then Err
      else
        match ReadValue(t, SkipSpace(t, c + 1))
        case Err => Err
        case Ok(v, r) => Ok(Member(name, v), r)
  }

  /** A whole document: one value, then nothing but whitespace up to the end or the first zero byte. */
  function ReadDocument(t: string): Parsed<Json> {
    match ReadValue(t, SkipSpace(t, 0))
    case Err => Err
    case Ok(v, q) => if Peek(t, SkipSpace(t, q)) == '\0' then Ok(v, q) else Err
  }
}
