/** Pass 1 against the recursive reader: it rejects exactly what the reader rejects, and leaves the measured
    nodes of what the reader returns. */
module JsonPass1 {
  import opened JsonText
  import opened JsonMachine
  import opened JsonGrammar
  import opened JsonLayout
  import opened JsonRounds

  // ---------------------------------------------------------------- strings

  predicate ReadingString(s: State) {
    && s.first && s.ptr <= |s.text| && s.f.str && !s.f.escaped && !s.f.next && !s.f.reproc
    && s.top.At? && s.top.i < |s.nodes|
  }

  lemma PlainChar1(s: State)
    requires ReadingString(s) && s.stringLength <= UINT_LIMIT
    requires Peek(s.text, s.ptr) !in ['\0', '\\', '"']
    ensures Step(s) == Next(s.(ptr := s.ptr + 1, stringLength := s.stringLength + 1))
  {
  }

  lemma BadChar1(s: State)
    requires s.ptr <= |s.text| && s.f.str
    requires Peek(s.text, s.ptr) == '\0' || s.stringLength > UINT_LIMIT
    ensures Step(s) == Fail
  {
  }

  lemma Backslash1(s: State)
    requires s.ptr <= |s.text| && s.f.str && !s.f.escaped && s.stringLength <= UINT_LIMIT
    requires Peek(s.text, s.ptr) == '\\'
    ensures Step(s) == Next(s.(ptr := s.ptr + 1, f := s.f.(escaped := true)))
  {
  }

  lemma Utf8HasItsLength(u: nat)
    requires u < 0x11_0000
    ensures |Utf8(u)| == Utf8Length(u)
  {
  }

  lemma EscapeRound1(s: State)
    requires ReadingString(s) && s.stringLength <= UINT_LIMIT && Peek(s.text, s.ptr) != '\0'
    ensures Step(s.(f := s.f.(escaped := true))) == EscapedChar(s, Peek(s.text, s.ptr))
  {
    hide UnicodeEscape, Utf8, Utf8Length, SimpleEscape, Main, CloseString, Finish, Store, Run, Step;
    var s' := s.(f := s.f.(escaped := true));
    assert s'.(f := s'.f.(escaped := false)) == s;
    StringRound(s');
  }

  lemma AddedBytes1(s: State, u: nat, q: nat)
    requires ReadingString(s) && 0 < q && u < 0x11_0000
    ensures AddBytes(s.(ptr := q - 1), Utf8Length(u), Utf8(u))
         == Next(s.(ptr := q, stringLength := s.stringLength + |Utf8(u)|))
  {
    Utf8HasItsLength(u);
    hide Utf8, Utf8Length;
  }

  lemma Escape1(s: State)
    requires ReadingString(s) && s.stringLength <= UINT_LIMIT
    ensures match ReadEscape(s.text, s.ptr)
            case Err => Step(s.(f := s.f.(escaped := true))) == Fail
            case Ok(bytes, q) =>
              Step(s.(f := s.f.(escaped := true))) == Next(s.(ptr := q, stringLength := s.stringLength + |bytes|))
  {
    hide Step, UnicodeEscape, Utf8, Utf8Length, AddBytes;
    if Peek(s.text, s.ptr) == '\0' {
      BadChar1(s.(f := s.f.(escaped := true)));
    } else {
      EscapeRound1(s);
      if Peek(s.text, s.ptr) == 'u' {
        var u := UnicodeEscape(s.text, s.ptr);
        if u.Ok? { AddedBytes1(s, u.value, u.next); }
      } else {
        AddedByte1(s, SimpleEscape(Peek(s.text, s.ptr)));
      }
    }
  }

  lemma AddedByte1(s: State, c: char)
    requires ReadingString(s)
    ensures AddBytes(s, 1, [c]) == Next(s.(ptr := s.ptr + 1, stringLength := s.stringLength + 1))
  {
  }

  /** One character of a string, plain or escaped. */
  lemma Char1(s: State)
    requires ReadingString(s) && s.stringLength <= UINT_LIMIT && Peek(s.text, s.ptr) !in ['\0', '"']
    ensures match ReadChar(s.text, s.ptr)
            case Err => Run(s) == Rejected
            case Ok(bytes, q) => Run(s) == Run(s.(ptr := q, stringLength := s.stringLength + |bytes|))
  {
    hide Step, Run, ReadEscape;
    if s.text[s.ptr] != '\\' {
      var s' := s.(ptr := s.ptr + 1, stringLength := s.stringLength + 1);
      PlainChar1(s); Advance(s, s');
    } else {
      var s1 := s.(ptr := s.ptr + 1);
      var s2 := s1.(f := s1.f.(escaped := true));
      assert s2 == s.(ptr := s.ptr + 1, f := s.f.(escaped := true));
      Backslash1(s); Advance(s, s2);
      Escape1(s1);
      match ReadEscape(s.text, s.ptr + 1) {
        case Err => Stop(s2);
        case Ok(bytes, q) => Advance(s2, s1.(ptr := q, stringLength := s.stringLength + |bytes|));
      }
    }
  }

  lemma {:induction false} String1(s: State)
    requires ReadingString(s)
    ensures match ReadString(s.text, s.ptr, s.stringLength)
            case Err => Run(s) == Rejected
            case Ok(bytes, r) =>
              && Peek(s.text, r - 1) == '"' && s.stringLength + |bytes| <= UINT_LIMIT
              && Run(s) == Run(s.(ptr := r - 1, stringLength := s.stringLength + |bytes|))
    decreases |s.text| - s.ptr
  {
    hide Step, Run, ReadChar;
    var b := Peek(s.text, s.ptr);
    if b == '\0' || s.stringLength > UINT_LIMIT {
      BadChar1(s); Stop(s);
    } else if b == '"' {
      assert s.(ptr := s.ptr, stringLength := s.stringLength + 0) == s;
    } else {
      Char1(s);
      match ReadChar(s.text, s.ptr) {
        case Err =>
        case Ok(bytes, q) => String1(s.(ptr := q, stringLength := s.stringLength + |bytes|));
      }
    }
  }

  // ---------------------------------------------------------------- numbers

  /** A number is being read; it is the last node. */
  predicate ReadingNumber(s: State) {
    && s.first && s.ptr <= |s.text| && Plain(s.f) && !s.f.seekValue && !s.f.needComma && !s.f.needColon
    && |s.nodes| > 0 && s.top == At(|s.nodes| - 1) && IsNumber(s.nodes[|s.nodes| - 1].kind)
    && ParentFits(s)
  }

  predicate DigitsFrom(s: State, d: nat) {
    && d <= s.ptr <= |s.text| && s.numDigits == s.ptr - d && (forall i :: d <= i < s.ptr ==> IsDigit(s.text[i]))
  }

  lemma WrapDigit(x: int, d: nat)
    ensures Wrap64(Wrap64(x) * 10 + d) == Wrap64(x * 10 + d)
    ensures Wrap64(-Wrap64(x)) == Wrap64(-x)
  {
    var k := (x + 0x8000_0000_0000_0000) / 0x1_0000_0000_0000_0000;
    assert x == Wrap64(x) + k * 0x1_0000_0000_0000_0000;
    WrapShift(Wrap64(x) * 10 + d, 10 * k);
    WrapShift(-Wrap64(x), -k);
  }

  lemma WrapShift(x: int, k: int)
    ensures Wrap64(x + k * 0x1_0000_0000_0000_0000) == Wrap64(x)
  {
  }

  lemma DigitOne(t: string, d: nat, p: nat)
    requires d <= p < |t| && (forall i :: d <= i <= p ==> IsDigit(t[i]))
    ensures DecimalValue(t[d..p + 1]) == DecimalValue(t[d..p]) * 10 + DigitValue(t[p])
  {
    assert t[d..p + 1][..p - d] == t[d..p];
  }

  /** The integer part read so far. */
  predicate IntegerPart(s: State, d: nat)
    requires ReadingNumber(s)
  {
    var n := s.nodes[|s.nodes| - 1];
    && DigitsFrom(s, d) && n.kind == KInteger && !s.f.numE && !s.f.numEGotSign
    && (s.ptr > d + 1 ==> s.text[d] != '0')
    && s.f.numZero == (s.ptr > d && s.text[d] == '0')
    && n.scalar == Wrap64(DecimalValue(s.text[d..s.ptr]))
  }

  lemma IntegerDigitStep(s: State, d: nat)
    requires ReadingNumber(s) && IntegerPart(s, d) && IsDigit(Peek(s.text, s.ptr))
    ensures Step(s) == if s.f.numZero then Fail else Next(WithDigit(s))
  {
    hide Wrap64, DecimalValue;
  }

  function WithDigit(s: State): State
    requires ReadingNumber(s) && IsDigit(Peek(s.text, s.ptr))
  {
    var t := |s.nodes| - 1;
    var n := s.nodes[t];
    s.(ptr := s.ptr + 1, numDigits := s.numDigits + 1,
       f := s.f.(numZero := s.numDigits == 0 && Peek(s.text, s.ptr) == '0'),
       nodes := s.nodes[t := n.(scalar := Wrap64(n.scalar * 10 + DigitValue(Peek(s.text, s.ptr))))])
  }

  lemma IntegerDigit(s: State, d: nat)
    requires ReadingNumber(s) && IntegerPart(s, d) && IsDigit(Peek(s.text, s.ptr)) && !s.f.numZero
    ensures ReadingNumber(WithDigit(s)) && IntegerPart(WithDigit(s), d) && SameNumber(s, WithDigit(s))
  {
    DigitOne(s.text, d, s.ptr);
    WrapDigit(DecimalValue(s.text[d..s.ptr]), DigitValue(s.text[s.ptr]));
    hide Wrap64, DecimalValue;
  }

  /** Two states of reading the same number that differ at most in position, digits, kind and value. */
  predicate SameNumber(s: State, s': State)
    requires ReadingNumber(s) && ReadingNumber(s')
  {
    && s'.text == s.text && s'.junk == s.junk && s'.root == s.root && s'.alloc == s.alloc
    && |s'.nodes| == |s.nodes| && s'.nodes[..|s.nodes| - 1] == s.nodes[..|s.nodes| - 1]
    && s'.f.numNegative == s.f.numNegative
    && var n, n' := s.nodes[|s.nodes| - 1], s'.nodes[|s.nodes| - 1];
      n' == n.(kind := n'.kind, scalar := n'.scalar)
  }

  lemma {:induction false} IntegerDigits(s: State, d: nat) returns (s': State)
    requires ReadingNumber(s) && IntegerPart(s, d)
    ensures var e := SkipDigits(s.text, s.ptr);
            if e > d + 1 && s.text[d] == '0' then Run(s) == Rejected
            else ReadingNumber(s') && IntegerPart(s', d) && s'.ptr == e && SameNumber(s, s') && Run(s) == Run(s')
    decreases |s.text| - s.ptr
  {
    hide Run, Step;
    s' := s;
    if !IsDigit(Peek(s.text, s.ptr)) {
    } else {
      IntegerDigitStep(s, d);
      if s.f.numZero {
        Stop(s);
      } else {
        IntegerDigit(s, d);
        Advance(s, WithDigit(s));
        s' := IntegerDigits(WithDigit(s), d);
      }
    }
  }

  /** After the point or the `e`: digits only count. */
  predicate FloatPart(s: State)
    requires ReadingNumber(s)
  {
    s.nodes[|s.nodes| - 1].kind == KDouble && s.nodes[|s.nodes| - 1].scalar == 0
  }

  lemma FloatDigit(s: State) returns (s': State)
    requires ReadingNumber(s) && FloatPart(s) && IsDigit(Peek(s.text, s.ptr))
    ensures Step(s) == Next(s') && s'.ptr == s.ptr + 1 && s'.numDigits == s.numDigits + 1
    ensures s' == s.(ptr := s'.ptr, numDigits := s'.numDigits, f := s'.f)
    ensures ReadingNumber(s') && s'.f == if s.f.numE then s.f.(numEGotSign := true) else s.f
  {
    s' := Step(s).s;
  }

  lemma {:induction false} FloatDigits(s: State) returns (s': State)
    requires ReadingNumber(s) && FloatPart(s)
    requires s.f.numE && s.numDigits > 0 ==> s.f.numEGotSign
    ensures s'.ptr == SkipDigits(s.text, s.ptr) && s'.numDigits == s.numDigits + s'.ptr - s.ptr
    ensures s' == s.(ptr := s'.ptr, numDigits := s'.numDigits, f := s'.f)
    ensures ReadingNumber(s') && s'.f == s.f.(numEGotSign := s'.f.numEGotSign)
    ensures !s.f.numE ==> s'.f == s.f
    ensures s.f.numE && s'.numDigits > 0 ==> s'.f.numEGotSign
    ensures s'.ptr == s.ptr ==> s' == s
    ensures Run(s) == Run(s')
    decreases |s.text| - s.ptr
  {
    hide Run, Step;
    s' := s;
    if !IsDigit(Peek(s.text, s.ptr)) {
    } else {
      var s1 := FloatDigit(s);
      Advance(s, s1);
      s' := FloatDigits(s1);
    }
  }

  /** What is known when the number in `s` is over at position `q`. */
  predicate NumberDone(s: State, x: State, q: nat, kind: Kind, scalar: int)
    requires ReadingNumber(s)
  {
    && Complete(x) && x.first && EndOf(x) == q && x.text == s.text && x.junk == s.junk && x.root == s.root
    && x.alloc == s.alloc && x.top == s.top && |x.nodes| == |s.nodes|
    && x.nodes == s.nodes[|s.nodes| - 1 := s.nodes[|s.nodes| - 1].(kind := kind, scalar := scalar)]
    && Run(s) == Resume(Finish(x))
  }

  /** The round that ends a double. */
  lemma EndFloat(s: State) returns (x: State)
    requires ReadingNumber(s) && FloatPart(s)
    requires !IsDigit(Peek(s.text, s.ptr))
    requires s.numDigits > 0
    requires if s.f.numE then s.f.numEGotSign else !IsExponent(Peek(s.text, s.ptr))
    ensures NumberDone(s, x, s.ptr, KDouble, 0)
  {
    x := s.(f := s.f.(next := true, reproc := true));
    assert s.nodes[|s.nodes| - 1 := s.nodes[|s.nodes| - 1]] == s.nodes;
    assert Step(s) == Finish(x) by { hide Run, Finish, Resume; }
    hide Step, Run, Finish;
    Completes(s, x);
  }

  lemma FloatWithoutDigits(s: State)
    requires ReadingNumber(s) && FloatPart(s) && s.numDigits == 0
    requires !IsDigit(Peek(s.text, s.ptr))
    requires s.f.numE ==> s.f.numEGotSign || Peek(s.text, s.ptr) !in ['+', '-']
    ensures Step(s) == Fail
  {
  }

  lemma ExponentSign(s: State) returns (s': State)
    requires ReadingNumber(s) && FloatPart(s) && s.f.numE && !s.f.numEGotSign && Peek(s.text, s.ptr) in ['+', '-']
    ensures Step(s) == Next(s') && s' == s.(ptr := s.ptr + 1, f := s'.f)
    ensures ReadingNumber(s') && s'.f.numE && s'.f.numEGotSign
  {
    s' := Step(s).s;
  }

  lemma Exponent(s: State) returns (x: State)
    requires ReadingNumber(s) && FloatPart(s) && s.f.numE && !s.f.numEGotSign && s.numDigits == 0
    ensures var r := ReadExponent(s.text, s.ptr);
            if r.Err? then Run(s) == Rejected else NumberDone(s, x, r.next, KDouble, 0)
  {
    hide Run, Step;
    var s1 := s;
    if Peek(s.text, s.ptr) in ['+', '-'] {
      s1 := ExponentSign(s);
      Advance(s, s1);
    }
    var s2 := FloatDigits(s1);
    if s2.numDigits == 0 {
      assert s2 == s1;
      FloatWithoutDigits(s2); Stop(s2);
      x := s;
    } else {
      x := EndFloat(s2);
    }
  }

  /** `.` or `e` turns the number into a double. */
  lemma ToFloat(s: State, d: nat) returns (s': State)
    requires ReadingNumber(s) && (IntegerPart(s, d) || (FloatPart(s) && !s.f.numE && s.numDigits > 0))
    requires Peek(s.text, s.ptr) == '.' ==> IntegerPart(s, d) && s.numDigits > 0
    requires Peek(s.text, s.ptr) == '.' || IsExponent(Peek(s.text, s.ptr))
    requires !s.f.numEGotSign
    ensures Step(s) == Next(s') && ReadingNumber(s') && FloatPart(s') && SameNumber(s, s')
    ensures s'.ptr == s.ptr + 1 && s'.numDigits == 0 && s'.f.numE == IsExponent(Peek(s.text, s.ptr))
    ensures !s'.f.numEGotSign
  {
    hide Wrap64, DecimalValue;
    s' := Step(s).s;
  }

  lemma SameNumberDone(s: State, s': State, x: State, q: nat, kind: Kind, scalar: int)
    requires ReadingNumber(s) && ReadingNumber(s') && SameNumber(s, s') && Run(s) == Run(s')
    requires NumberDone(s', x, q, kind, scalar)
    ensures NumberDone(s, x, q, kind, scalar)
  {
    hide Run, Finish;
    var n := |s.nodes| - 1;
    assert s.nodes == s.nodes[..n] + [s.nodes[n]];
    assert s'.nodes == s.nodes[..n] + [s'.nodes[n]];
  }

  /** The round that ends an integer; a minus sign before it is applied now. */
  lemma EndInteger(s: State, d: nat) returns (x: State)
    requires ReadingNumber(s) && IntegerPart(s, d)
    requires !IsDigit(Peek(s.text, s.ptr)) && Peek(s.text, s.ptr) != '.' && !IsExponent(Peek(s.text, s.ptr))
    ensures var v: int := DecimalValue(s.text[d..s.ptr]);
            NumberDone(s, x, s.ptr, KInteger, Wrap64(if s.f.numNegative then -v else v))
  {
    var t := |s.nodes| - 1;
    var n := s.nodes[t];
    WrapDigit(DecimalValue(s.text[d..s.ptr]), 0);
    var n' := if s.f.numNegative then n.(scalar := Wrap64(-n.scalar)) else n;
    x := s.(f := s.f.(next := true, reproc := true), nodes := s.nodes[t := n']);
    assert Step(s) == Finish(x) by { hide Run, Finish, Resume, Wrap64, DecimalValue; }
    hide Step, Run, Finish, Wrap64, DecimalValue;
    Completes(s, x);
  }

  lemma PointWithoutDigits(s: State, d: nat)
    requires ReadingNumber(s) && IntegerPart(s, d) && s.ptr == d && Peek(s.text, s.ptr) == '.'
    ensures Step(s) == Fail
  {
    hide Wrap64, DecimalValue;
  }

  /** After the integer part: a fraction and an exponent may follow. */
  lemma AfterInteger(s: State, d: nat) returns (x: State)
    requires ReadingNumber(s) && IntegerPart(s, d) && !IsDigit(Peek(s.text, s.ptr))
    ensures match AfterDigits(s.text, d, s.ptr, s.f.numNegative)
            case Err => Run(s) == Rejected
            case Ok(v, q) => NumberRead(s, x, v, q)
  {
    hide Run, Step, ReadExponent, NumberDone, DecimalValue, Wrap64;
    x := s;
    if Peek(s.text, s.ptr) == '.' {
      if s.ptr == d {
        PointWithoutDigits(s, d); Stop(s);
      } else {
        x := AfterPoint(s, d);
      }
    } else if IsExponent(Peek(s.text, s.ptr)) {
      x := ThroughExponent(s, d);
    } else {
      x := EndInteger(s, d);
    }
  }

  lemma ThroughExponent(s: State, d: nat) returns (x: State)
    requires ReadingNumber(s) && !s.f.numEGotSign && IsExponent(Peek(s.text, s.ptr))
    requires IntegerPart(s, d) || (FloatPart(s) && !s.f.numE && s.numDigits > 0)
    ensures var r := ReadExponent(s.text, s.ptr + 1);
            if r.Err? then Run(s) == Rejected else NumberDone(s, x, r.next, KDouble, 0)
  {
    hide Run, Step, ReadExponent, NumberDone, IntegerPart;
    var s1 := ToFloat(s, d);
    Advance(s, s1);
    x := Exponent(s1);
    if ReadExponent(s.text, s.ptr + 1).Ok? {
      SameNumberDone(s, s1, x, ReadExponent(s.text, s.ptr + 1).next, KDouble, 0);
    }
  }

  lemma AfterPoint(s: State, d: nat) returns (x: State)
    requires ReadingNumber(s) && IntegerPart(s, d) && s.ptr > d && Peek(s.text, s.ptr) == '.'
    ensures var f := SkipDigits(s.text, s.ptr + 1);
            if f == s.ptr + 1 then Run(s) == Rejected
            else if IsExponent(Peek(s.text, f)) then
              var r := ReadExponent(s.text, f + 1);
              if r.Err? then Run(s) == Rejected else NumberDone(s, x, r.next, KDouble, 0)
            else NumberDone(s, x, f, KDouble, 0)
  {
    hide Run, Step, ReadExponent, NumberDone;
    var s1 := ToFloat(s, d);
    Advance(s, s1);
    var s2 := FloatDigits(s1);
    if s2.numDigits == 0 {
      assert s2 == s1;
      FloatWithoutDigits(s2); Stop(s2);
      x := s;
    } else if IsExponent(Peek(s.text, s2.ptr)) {
      x := ThroughExponent(s2, 0);
      if ReadExponent(s.text, s2.ptr + 1).Ok? {
        SameNumberDone(s, s2, x, ReadExponent(s.text, s2.ptr + 1).next, KDouble, 0);
      }
    } else {
      x := EndFloat(s2);
      SameNumberDone(s, s2, x, s2.ptr, KDouble, 0);
    }
  }

  predicate NumberRead(s: State, x: State, v: Json, q: nat)
    requires ReadingNumber(s)
  {
    match v
    case JInt(i) => NumberDone(s, x, q, KInteger, i)
    case JDouble => NumberDone(s, x, q, KDouble, 0)
    case _ => false
  }

  /** A number whose first byte, a digit or a minus, is at `p`; the state is past the minus. */
  lemma Number1(s: State, p: nat) returns (x: State)
    requires ReadingNumber(s)
    requires p <= |s.text| && (IsDigit(Peek(s.text, p)) || Peek(s.text, p) == '-')
    requires s.f.numNegative == (Peek(s.text, p) == '-') && s.ptr == (if s.f.numNegative then p + 1 else p)
    requires IntegerPart(s, s.ptr)
    ensures match ReadNumber(s.text, p)
            case Err => Run(s) == Rejected
            case Ok(v, q) => NumberRead(s, x, v, q)
  {
    hide Run, NumberDone, DecimalValue, Wrap64, AfterDigits;
    var d := s.ptr;
    x := s;
    var s1 := IntegerDigits(s, d);
    if !(SkipDigits(s.text, d) > d + 1 && s.text[d] == '0') {
      x := AfterInteger(s1, d);
      var r := AfterDigits(s.text, d, s1.ptr, s.f.numNegative);
      if r.Ok? {
        SameNumberDone(s, s1, x, r.next, if r.value.JInt? then KInteger else KDouble,
                       if r.value.JInt? then r.value.i else 0);
      }
    }
  }

  // ---------------------------------------------------------------- values

  /** A value is sought, and pass 1 has made `s.nodes` so far. */
  predicate Ready1(s: State) {
    && s.first && s.ptr <= |s.text| && Plain(s.f) && s.f.seekValue && !s.f.needComma && !s.f.needColon
    && (if s.top.Null? then s.nodes == [] else InContainer(s))
    && s.root == if s.nodes == [] then Null else At(0)
  }

  /** The round ending in `x` completes the value `v` that was sought in `s`; its text ends at `q`. */
  predicate Closed1(s: State, x: State, v: Json, q: nat) {
    && Complete(x) && ParentFits(x) && EndOf(x) == q
    && x == s.(ptr := x.ptr, f := x.f, top := At(|s.nodes|), root := At(0),
               nodes := s.nodes + Measured(v, s.top, |s.nodes|),
               stringLength := x.stringLength, numDigits := x.numDigits)
  }

  predicate Read1(s: State, x: State, r: Parsed<Json>)
    requires Ready1(s)
  {
    match r
    case Err => Run(s) == Rejected
    case Ok(v, q) => q <= |s.text| && Closed1(s, x, v, q) && Run(s) == Resume(Finish(x))
  }

  /** The state with a fresh node of kind `kind` on top. */
  function Opened1(s: State, kind: Kind): State
    requires Ready1(s)
  {
    s.(f := s.f.(seekValue := false), top := At(|s.nodes|), root := At(0), nodes := s.nodes + [Fresh(s.top, kind)])
  }

  predicate IsWord(word: string, kind: Kind, scalar: int) {
    (word, kind, scalar) in [("true", KBoolean, 1), ("false", KBoolean, 0), ("null", KNull, 0)]
  }

  lemma WordRound(s: State, word: string, kind: Kind, scalar: int)
    requires s.ptr <= |s.text| && Plain(s.f) && s.f.seekValue && !s.f.needComma && !s.f.needColon
    requires IsWord(word, kind, scalar) && Peek(s.text, s.ptr) == word[0]
    ensures var o := Word(s.(f := s.f.(seekValue := false)), word, kind, scalar);
            Step(s) == if o.Bottom? then Finish(o.s) else o
  {
    hide Run, Word, Finish, Inside, StringChar, StartNumber, NewValue;
  }

  lemma WordStep1(s: State, word: string, kind: Kind, scalar: int)
    requires Ready1(s) && IsWord(word, kind, scalar) && Peek(s.text, s.ptr) == word[0]
    ensures Step(s) == if HasWord(s.text, s.ptr, word)
                       then var o := Opened1(s, kind);
                         Finish(o.(ptr := s.ptr + |word| - 1, f := o.f.(next := true),
                                   nodes := s.nodes + [Fresh(s.top, kind).(scalar := scalar)]))
                       else Fail
  {
    hide Run, Step, Finish;
    WordMatches(s.text, s.ptr, word);
    WordRound(s, word, kind, scalar);
    hide HasWord;
    var o := Opened1(s, kind);
    assert (s.nodes + [Fresh(s.top, kind)])[|s.nodes| := Fresh(s.top, kind).(scalar := scalar)]
        == s.nodes + [Fresh(s.top, kind).(scalar := scalar)];
  }

  lemma WordMatches(t: string, p: nat, word: string)
    requires |word| > 0 && p < |t| && t[p] == word[0] && '\0' !in word
    ensures HasWord(t, p, word)
       <==> !(|t| - p < |word| - 1 || exists i :: 1 <= i < |word| && Peek(t, p + i) != word[i])
  {
    if |t| - p >= |word| - 1 && forall i :: 1 <= i < |word| ==> Peek(t, p + i) == word[i] {
      if |word| > 1 { assert Peek(t, p + (|word| - 1)) == word[|word| - 1] && word[|word| - 1] in word; }
      assert t[p..p + |word|] == word by {
        forall i | 0 <= i < |word| ensures t[p + i] == word[i] {
          if i > 0 { assert Peek(t, p + i) == word[i]; }
        }
      }
    }
    if HasWord(t, p, word) {
      forall i | 1 <= i < |word| ensures Peek(t, p + i) == word[i] {
        assert t[p..p + |word|][i] == t[p + i];
      }
    }
  }

  lemma Word1(s: State, word: string, v: Json) returns (x: State)
    requires Ready1(s)
    requires (word, v) in [("true", JBool(true)), ("false", JBool(false)), ("null", JNull)]
    requires Peek(s.text, s.ptr) == word[0]
    ensures Read1(s, x, if HasWord(s.text, s.ptr, word) then Ok(v, s.ptr + |word|) else Err)
  {
    hide Run, Step, Finish;
    var kind := if v == JNull then KNull else KBoolean;
    var scalar := if v == JBool(true) then 1 else 0;
    WordStep1(s, word, kind, scalar);
    x := s;
    if HasWord(s.text, s.ptr, word) {
      var o := Opened1(s, kind);
      x := o.(ptr := s.ptr + |word| - 1, f := o.f.(next := true),
              nodes := s.nodes + [Fresh(s.top, kind).(scalar := scalar)]);
      Completes(s, x);
    } else {
      Stop(s);
    }
  }

  lemma OpenStep1(s: State)
    requires Ready1(s)
    ensures Peek(s.text, s.ptr) == '{' ==>
              var o := Opened1(s, KObject); Step(s) == Next(o.(ptr := s.ptr + 1))
    ensures Peek(s.text, s.ptr) == '[' ==>
              var o := Opened1(s, KArray); Step(s) == Next(o.(ptr := s.ptr + 1, f := o.f.(seekValue := true)))
    ensures Peek(s.text, s.ptr) == '"' ==>
              var o := Opened1(s, KString);
              Step(s) == Next(o.(ptr := s.ptr + 1, f := o.f.(str := true), stringLength := 0))
  {
    hide Run, Word, StartNumber, Inside, Finish, StringChar;
  }

  lemma EndStringStep1(s: State, t: nat)
    requires ReadingString(s) && Peek(s.text, s.ptr) == '"' && s.stringLength <= UINT_LIMIT
    requires !s.f.seekValue && !s.f.done && s.top == At(t) && s.nodes[t].kind == KString
    ensures Step(s) == Finish(s.(f := s.f.(str := false, next := true),
                                 nodes := s.nodes[t := s.nodes[t].(length := s.stringLength)]))
  {
    hide Run, Finish, EscapedChar, AddBytes;
  }

  lemma StringValue1(s: State) returns (x: State)
    requires Ready1(s) && Peek(s.text, s.ptr) == '"'
    ensures Read1(s, x, match ReadString(s.text, s.ptr + 1, 0) case Err => Err case Ok(v, q) => Ok(JString(v), q))
  {
    hide Run, Step, Finish, ReadString;
    var o := Opened1(s, KString);
    var s1 := o.(ptr := s.ptr + 1, f := o.f.(str := true), stringLength := 0);
    OpenStep1(s); Advance(s, s1);
    String1(s1);
    x := s;
    match ReadString(s.text, s.ptr + 1, 0) {
      case Err =>
      case Ok(v, q) =>
        var s2 := s1.(ptr := q - 1, stringLength := |v|);
        var t := |s.nodes|;
        EndStringStep1(s2, t);
        x := s2.(f := s2.f.(str := false, next := true), nodes := s2.nodes[t := s2.nodes[t].(length := |v|)]);
        assert x.nodes == s.nodes + Measured(JString(v), s.top, t);
        Completes(s2, x);
    }
  }

  lemma NumberStep1(s: State) returns (s': State)
    requires Ready1(s) && (IsDigit(Peek(s.text, s.ptr)) || Peek(s.text, s.ptr) == '-')
    ensures Step(s) == Next(s')
    ensures var negative := Peek(s.text, s.ptr) == '-';
            s' == Opened1(s, KInteger).(ptr := if negative then s.ptr + 1 else s.ptr, numDigits := 0,
                                        f := Flags(false, false, false, false, false, false, false, false,
                                                   negative, false, false, false, false))
  {
    s' := Step(s).s;
    hide Run, Word, Inside, StringChar;
  }

  lemma NumberValue1(s: State) returns (x: State)
    requires Ready1(s) && (IsDigit(Peek(s.text, s.ptr)) || Peek(s.text, s.ptr) == '-')
    ensures Read1(s, x, ReadNumber(s.text, s.ptr))
  {
    hide Run, Step, Finish, ReadNumber;
    var s1 := NumberStep1(s);
    if s1.ptr == s.ptr { Stay(s, s1); } else { Advance(s, s1); }
    assert IntegerPart(s1, s1.ptr) by { assert s1.text[s1.ptr..s1.ptr] == ""; }
    x := Number1(s1, s.ptr);
    match ReadNumber(s.text, s.ptr) {
      case Err =>
      case Ok(v, q) =>
        assert x.nodes == s.nodes + Measured(v, s.top, |s.nodes|);
    }
  }

  // ---------------------------------------------------------------- containers

  /** Inside the container at `k`: an array seeks its next item, an object its next key. */
  predicate Inside1(s: State, k: nat) {
    && s.first && s.ptr <= |s.text| && Plain(s.f) && !s.f.needColon
    && s.top == At(k) && InContainer(s) && ParentFits(s) && s.root == At(0)
    && s.f.seekValue == (s.nodes[k].kind == KArray)
    && (s.nodes[k].kind == KObject ==> s.nodes[k].block.KeyBytes?)
  }

  /** The container `n` after `count` more values and `bytes` more key bytes. */
  function Grown(n: Node, count: nat, bytes: nat): Node {
    n.(length := n.length + count, block := if n.block.KeyBytes? then KeyBytes(n.block.count + bytes) else n.block)
  }

  /** The state after the value completed in `x` has been counted by its container. */
  function Counted1(x: State, k: nat): State
    requires k < |x.nodes|
  {
    x.(ptr := EndOf(x), top := At(k),
       f := x.f.(next := false, reproc := false, needComma := true, seekValue := x.nodes[k].kind == KArray),
       nodes := x.nodes[k := Grown(x.nodes[k], 1, 0)])
  }

  lemma Count1(x: State, k: nat)
    requires x.first && Complete(x) && k < |x.nodes| && x.nodes[x.top.i].parent == At(k)
    ensures Finish(x) == if x.nodes[k].length + 1 > UINT_LIMIT then Fail else Next(Counted1(x, k))
  {
  }

  /** Counting touches the container and leaves the nodes of the value alone. */
  lemma CountedNodes(s: State, x: State, k: nat, v: Json, q: nat)
    requires Ready1(s) && s.top == At(k) && Closed1(s, x, v, q)
    ensures x.nodes[x.top.i].parent == At(k) && k < |x.nodes| && x.nodes[k] == s.nodes[k]
    ensures Counted1(x, k).nodes
         == s.nodes[k := Grown(s.nodes[k], 1, 0)] + Measured(v, At(k), |s.nodes|)
  {
    MeasuredParent(v, At(k), |s.nodes|);
    hide Measured, Grown;
  }

  lemma MeasuredParent(v: Json, parent: Link, base: nat)
    ensures Measured(v, parent, base)[0].parent == parent
  {
  }

  /** The rest of the container at `k`, holding `count` values with `bytes` of keys, closes in `x`. */
  predicate ClosedRest1(s: State, x: State, k: nat, count: nat, bytes: nat, rest: seq<Node>, q: nat)
    requires Inside1(s, k)
  {
    && Complete(x) && ParentFits(x) && EndOf(x) == q && q <= |s.text|
    && x == s.(ptr := x.ptr, f := x.f, nodes := s.nodes[k := Grown(s.nodes[k], count, bytes)] + rest,
               stringLength := x.stringLength, numDigits := x.numDigits)
    && Run(s) == Resume(Finish(x))
  }

  lemma CloseArrayStep(s: State, k: nat)
    requires s.ptr <= |s.text| && Plain(s.f) && !s.f.needColon && s.f.seekValue && s.top == At(k) && k < |s.nodes|
    requires s.nodes[k].kind == KArray && Peek(s.text, s.ptr) == ']'
    ensures Step(s) == Finish(s.(f := s.f.(needComma := false, seekValue := false, next := true)))
  {
    hide Run, Finish, StartValue, StringChar, Inside;
  }

  lemma CloseObjectStep(s: State, k: nat)
    requires s.ptr <= |s.text| && Plain(s.f) && !s.f.needColon && !s.f.seekValue && s.top == At(k) && k < |s.nodes|
    requires s.nodes[k].kind == KObject && Peek(s.text, s.ptr) == '}'
    ensures Step(s) == Finish(s.(f := s.f.(needComma := false, next := true)))
  {
    hide Run, Finish, Seek, StringChar;
  }

  lemma CommaStep(s: State, k: nat)
    requires s.ptr <= |s.text| && Plain(s.f) && !s.f.needColon && s.f.needComma && s.top == At(k) && InContainer(s)
    requires s.f.seekValue == (s.nodes[k].kind == KArray)
    requires Peek(s.text, s.ptr) == ','
    ensures Step(s) == Next(s.(ptr := s.ptr + 1, f := s.f.(needComma := false)))
  {
    hide Run, StartValue, StringChar;
  }

  lemma ItemMissingStep(s: State)
    requires s.ptr <= |s.text| && Plain(s.f) && s.f.needComma && s.f.seekValue
    requires Peek(s.text, s.ptr) !in [']', ','] && !IsSpace(Peek(s.text, s.ptr))
    ensures Step(s) == Fail
  {
    hide Run, StartValue, StringChar;
  }

  lemma KeyMissingStep(s: State, k: nat)
    requires s.ptr <= |s.text| && Plain(s.f) && !s.f.seekValue && s.top == At(k) && k < |s.nodes|
    requires s.nodes[k].kind == KObject && Peek(s.text, s.ptr) != '}' && !IsSpace(Peek(s.text, s.ptr))
    requires if s.f.needComma then Peek(s.text, s.ptr) != ',' else Peek(s.text, s.ptr) != '"'
    ensures Step(s) == Fail
  {
    hide Run, Seek, StringChar, Finish;
  }

  lemma BadValueStep(s: State)
    requires s.ptr <= |s.text| && Plain(s.f) && s.f.seekValue && !s.f.needComma && !s.f.needColon
    requires var b := Peek(s.text, s.ptr);
             b !in ['{', '[', '"', 't', 'f', 'n', '-'] && !IsDigit(b) && !IsSpace(b)
    requires Peek(s.text, s.ptr) == ']' ==> s.top.At? && s.top.i < |s.nodes| ==> s.nodes[s.top.i].kind != KArray
    ensures Step(s) == Fail
  {
    hide Run, StringChar, Inside, Finish, Word, StartNumber, NewValue;
  }

  lemma {:induction false} Value1(s: State) returns (x: State)
    requires Ready1(s) && !IsSpace(Peek(s.text, s.ptr))
    requires Peek(s.text, s.ptr) == ']' ==> !s.top.At? || s.nodes[s.top.i].kind != KArray
    ensures Read1(s, x, ReadValue(s.text, s.ptr))
    decreases |s.text| - s.ptr, 1
  {
    hide Run, Step, Finish, ReadItems, ReadMembers, ReadString, ReadNumber, HasWord, Closed1;
    var b := Peek(s.text, s.ptr);
    x := s;
    if b == '{' || b == '[' {
      x := Container1(s);
    } else if b == '"' {
      x := StringValue1(s);
    } else if b == 't' {
      x := Word1(s, "true", JBool(true));
    } else if b == 'f' {
      x := Word1(s, "false", JBool(false));
    } else if b == 'n' {
      x := Word1(s, "null", JNull);
    } else if IsDigit(b) || b == '-' {
      x := NumberValue1(s);
    } else {
      BadValueStep(s); Stop(s);
    }
  }

  lemma {:induction false} Container1(s: State) returns (x: State)
    requires Ready1(s) && (Peek(s.text, s.ptr) == '{' || Peek(s.text, s.ptr) == '[')
    ensures Read1(s, x, ReadValue(s.text, s.ptr))
    decreases |s.text| - s.ptr, 0
  {
    hide Run, Step, Finish, ReadItems, ReadMembers;
    var k := |s.nodes|;
    x := s;
    OpenStep1(s);
    if Peek(s.text, s.ptr) == '{' {
      var o := Opened1(s, KObject);
      var s1 := o.(ptr := s.ptr + 1);
      Advance(s, s1);
      x := Members1(s1, k);
      match ReadMembers(s.text, s1.ptr, false, 0) {
        case Err =>
        case Ok(ms, q) => OpenedNodes(s, JObject(ms), KObject, |ms|, |KeyText(ms)|, MeasuredMembers(ms, At(k), k + 1));
      }
    } else {
      var o := Opened1(s, KArray);
      var s1 := o.(ptr := s.ptr + 1, f := o.f.(seekValue := true));
      Advance(s, s1);
      x := Items1(s1, k);
      match ReadItems(s.text, s1.ptr, false, 0) {
        case Err =>
        case Ok(vs, q) => OpenedNodes(s, JArray(vs), KArray, |vs|, 0, MeasuredItems(vs, At(k), k + 1));
      }
    }
  }

  lemma OpenedNodes(s: State, v: Json, kind: Kind, count: nat, bytes: nat, rest: seq<Node>)
    requires IsContainer(kind)
    requires Measured(v, s.top, |s.nodes|) == [Grown(Fresh(s.top, kind), count, bytes)] + rest
    ensures (s.nodes + [Fresh(s.top, kind)])[|s.nodes| := Grown(Fresh(s.top, kind), count, bytes)] + rest
         == s.nodes + Measured(v, s.top, |s.nodes|)
  {
  }

  lemma UpdateTwice<T>(a: seq<T>, k: nat, n: T, g: T, m: seq<T>, rest: seq<T>)
    requires k < |a|
    ensures (a[k := n] + m)[k := g] + rest == a[k := g] + (m + rest)
  {
  }

  lemma GrownTwice(n: Node, count: nat, bytes: nat, more: nat, moreBytes: nat)
    ensures Grown(Grown(n, count, bytes), more, moreBytes) == Grown(n, count + more, bytes + moreBytes)
  {
  }

  /** One more value, then the rest: the container has grown by both. */
  lemma JoinRest(s: State, s2: State, x: State, k: nat, bytes: nat, m: seq<Node>,
                 count: nat, moreBytes: nat, rest: seq<Node>, q: nat)
    requires Inside1(s, k) && Inside1(s2, k) && Run(s) == Run(s2)
    requires s2 == s.(ptr := s2.ptr, f := s2.f, nodes := s.nodes[k := Grown(s.nodes[k], 1, bytes)] + m,
                      stringLength := s2.stringLength, numDigits := s2.numDigits)
    requires ClosedRest1(s2, x, k, count, moreBytes, rest, q)
    ensures ClosedRest1(s, x, k, 1 + count, bytes + moreBytes, m + rest, q)
  {
    hide Run, Finish, Complete, ParentFits, EndOf, Plain, Grown;
    var n := Grown(s.nodes[k], 1, bytes);
    GrownTwice(s.nodes[k], 1, bytes, count, moreBytes);
    UpdateTwice(s.nodes, k, n, Grown(n, count, moreBytes), m, rest);
  }

  /** A value completed inside the container at `k`: the run goes on with the container. */
  lemma Counts(s: State, x: State, k: nat, v: Json, q: nat)
    requires Ready1(s) && s.top == At(k) && q <= |s.text| && Closed1(s, x, v, q) && Run(s) == Resume(Finish(x))
    ensures k < |x.nodes| && x.nodes[x.top.i].parent == At(k) && x.nodes[k] == s.nodes[k]
    ensures Run(s) == if s.nodes[k].length + 1 > UINT_LIMIT then Rejected else Run(Counted1(x, k))
    ensures Counted1(x, k).nodes == s.nodes[k := Grown(s.nodes[k], 1, 0)] + Measured(v, At(k), |s.nodes|)
  {
    CountedNodes(s, x, k, v, q);
    Count1(x, k);
    hide Run, Finish, Measured;
  }

  lemma {:induction false} Items1(s: State, k: nat) returns (x: State)
    requires Inside1(s, k) && s.nodes[k].kind == KArray
    ensures match ReadItems(s.text, s.ptr, s.f.needComma, s.nodes[k].length)
            case Err => Run(s) == Rejected
            case Ok(vs, q) => ClosedRest1(s, x, k, |vs|, 0, MeasuredItems(vs, At(k), |s.nodes|), q)
    decreases |s.text| - s.ptr, 3
  {
    hide Run, Step, Finish, ReadValue, Measured;
    Spaces(s);
    var s1 := s.(ptr := SkipSpace(s.text, s.ptr));
    x := s;
    if Peek(s.text, s1.ptr) == ']' {
      CloseArrayStep(s1, k);
      x := s1.(f := s1.f.(needComma := false, seekValue := false, next := true));
      assert s.nodes[k := Grown(s.nodes[k], 0, 0)] + [] == s.nodes;
      Completes(s1, x);
    } else if s.f.needComma {
      if Peek(s.text, s1.ptr) == ',' {
        var s2 := s1.(ptr := s1.ptr + 1, f := s1.f.(needComma := false));
        CommaStep(s1, k); Advance(s1, s2);
        x := Items1(s2, k);
      } else {
        ItemMissingStep(s1); Stop(s1);
      }
    } else {
      x := NextItem1(s1, k);
    }
  }

  lemma {:induction false} NextItem1(s: State, k: nat) returns (x: State)
    requires Inside1(s, k) && s.nodes[k].kind == KArray
    requires !IsSpace(Peek(s.text, s.ptr)) && Peek(s.text, s.ptr) != ']' && !s.f.needComma
    ensures match ReadItems(s.text, s.ptr, false, s.nodes[k].length)
            case Err => Run(s) == Rejected
            case Ok(vs, q) => ClosedRest1(s, x, k, |vs|, 0, MeasuredItems(vs, At(k), |s.nodes|), q)
    decreases |s.text| - s.ptr, 2
  {
    hide Run, Step, Finish, ReadValue, ReadItems, Measured, MeasuredItems, Grown, ClosedRest1;
    ItemsFromValue(s.text, s.ptr, s.nodes[k].length);
    x := Value1(s);
    match ReadValue(s.text, s.ptr) {
      case Err =>
      case Ok(v, q) =>
        Counts(s, x, k, v, q);
        if s.nodes[k].length + 1 <= UINT_LIMIT {
          var s2 := Counted1(x, k);
          GrownKeeps(s.nodes[k], 1, 0);
          x := Items1(s2, k);
          var r := ReadItems(s.text, q, true, s.nodes[k].length + 1);
          if r.Ok? {
            ItemsNodes(v, r.value, At(k), |s.nodes|);
            JoinRest(s, s2, x, k, 0, Measured(v, At(k), |s.nodes|), |r.value|, 0,
                     MeasuredItems(r.value, At(k), |s2.nodes|), r.next);
          }
        }
    }
  }

  /** The reader at the first byte of an item. */
  lemma ItemsFromValue(t: string, p: nat, n: nat)
    requires p <= |t| && !IsSpace(Peek(t, p)) && Peek(t, p) != ']'
    ensures ReadItems(t, p, false, n) ==
            match ReadValue(t, p)
            case Err => Err
            case Ok(v, q) =>
              if n + 1 > UINT_LIMIT then Err
              else
                match ReadItems(t, q, true, n + 1)
                case Err => Err
                case Ok(vs, r) => Ok([v] + vs, r)
  {
    hide ReadValue;
    assert SkipSpace(t, p) == p;
  }

  lemma ItemsNodes(v: Json, vs: seq<Json>, parent: Link, base: nat)
    ensures MeasuredItems([v] + vs, parent, base)
         == Measured(v, parent, base) + MeasuredItems(vs, parent, base + Size(v))
  {
    assert ([v] + vs)[1..] == vs;
  }

  lemma GrownKeeps(n: Node, count: nat, bytes: nat)
    ensures var g := Grown(n, count, bytes);
            g == n.(length := n.length + count, block := g.block) && g.block.KeyBytes? == n.block.KeyBytes?
  {
  }

  // ---------------------------------------------------------------- object members

  lemma KeyOpenStep(s: State, k: nat)
    requires s.ptr <= |s.text| && Plain(s.f) && !s.f.seekValue && !s.f.needComma && s.top == At(k) && k < |s.nodes|
    requires s.nodes[k].kind == KObject && Peek(s.text, s.ptr) == '"'
    ensures Step(s) == Next(s.(ptr := s.ptr + 1, f := s.f.(str := true), stringLength := 0))
  {
    hide Run, Seek, StringChar;
  }

  lemma KeyCloseStep1(s: State, k: nat)
    requires ReadingString(s) && Peek(s.text, s.ptr) == '"' && s.stringLength <= UINT_LIMIT
    requires s.top == At(k) && s.nodes[k].kind == KObject && s.nodes[k].block.KeyBytes?
    ensures Step(s) == Next(s.(ptr := s.ptr + 1, f := s.f.(str := false, seekValue := true, needColon := true),
                               nodes := s.nodes[k := Grown(s.nodes[k], 0, s.stringLength + 1)]))
  {
    hide Run, Step, Main, AddBytes, EscapedChar;
    StringRound(s);
  }

  lemma ColonStep(s: State)
    requires s.ptr <= |s.text| && Plain(s.f) && s.f.seekValue && s.f.needColon && !s.f.needComma
    requires Peek(s.text, s.ptr) == ':'
    ensures Step(s) == Next(s.(ptr := s.ptr + 1, f := s.f.(needColon := false)))
  {
    hide Run, StartValue, StringChar;
  }

  lemma ColonMissingStep(s: State, k: nat)
    requires s.ptr <= |s.text| && Plain(s.f) && s.f.seekValue && s.f.needColon && !s.f.needComma
    requires s.top == At(k) && k < |s.nodes| && s.nodes[k].kind == KObject
    requires Peek(s.text, s.ptr) != ':' && !IsSpace(Peek(s.text, s.ptr))
    ensures Step(s) == Fail
  {
    hide Run, StartValue, StringChar;
  }

  /** From the opening quote of a key to the value it names. */
  lemma Key1(s: State, k: nat) returns (s': State)
    requires Inside1(s, k) && s.nodes[k].kind == KObject && !s.f.needComma && Peek(s.text, s.ptr) == '"'
    ensures match ReadString(s.text, s.ptr + 1, 0)
            case Err => Run(s) == Rejected
            case Ok(name, q) =>
              var c := SkipSpace(s.text, q);
              if Peek(s.text, c) != ':' then Run(s) == Rejected
              else
                && Ready1(s') && s'.ptr == SkipSpace(s.text, c + 1) && Run(s) == Run(s')
                && s' == s.(ptr := s'.ptr, f := s'.f, stringLength := s'.stringLength,
                            nodes := s.nodes[k := Grown(s.nodes[k], 0, |name| + 1)])
  {
    hide Run, Step, ReadString, Grown;
    var s1 := s.(ptr := s.ptr + 1, f := s.f.(str := true), stringLength := 0);
    KeyOpenStep(s, k); Advance(s, s1);
    String1(s1);
    s' := s;
    match ReadString(s.text, s.ptr + 1, 0) {
      case Err =>
      case Ok(name, q) =>
        var s2 := s1.(ptr := q - 1, stringLength := |name|);
        KeyCloseStep1(s2, k);
        GrownKeeps(s.nodes[k], 0, |name| + 1);
        var s3 := s2.(ptr := q, f := s2.f.(str := false, seekValue := true, needColon := true),
                      nodes := s.nodes[k := Grown(s.nodes[k], 0, |name| + 1)]);
        Advance(s2, s3);
        Spaces(s3);
        var s4 := s3.(ptr := SkipSpace(s.text, q));
        if Peek(s.text, s4.ptr) == ':' {
          var s5 := s4.(ptr := s4.ptr + 1, f := s4.f.(needColon := false));
          ColonStep(s4); Advance(s4, s5);
          Spaces(s5);
          s' := s5.(ptr := SkipSpace(s.text, s5.ptr));
        } else {
          ColonMissingStep(s4, k); Stop(s4);
        }
    }
  }

  lemma {:induction false} Members1(s: State, k: nat) returns (x: State)
    requires Inside1(s, k) && s.nodes[k].kind == KObject
    ensures match ReadMembers(s.text, s.ptr, s.f.needComma, s.nodes[k].length)
            case Err => Run(s) == Rejected
            case Ok(ms, q) => ClosedRest1(s, x, k, |ms|, |KeyText(ms)|, MeasuredMembers(ms, At(k), |s.nodes|), q)
    decreases |s.text| - s.ptr, 3
  {
    hide Run, Step, Finish, ReadMember, Measured;
    Spaces(s);
    var s1 := s.(ptr := SkipSpace(s.text, s.ptr));
    x := s;
    if Peek(s.text, s1.ptr) == '}' {
      CloseObjectStep(s1, k);
      x := s1.(f := s1.f.(needComma := false, next := true));
      assert s.nodes[k := Grown(s.nodes[k], 0, 0)] + [] == s.nodes;
      Completes(s1, x);
    } else if Peek(s.text, s1.ptr) == ',' && s.f.needComma {
      var s2 := s1.(ptr := s1.ptr + 1, f := s1.f.(needComma := false));
      CommaStep(s1, k); Advance(s1, s2);
      x := Members1(s2, k);
    } else if Peek(s.text, s1.ptr) != '"' || s.f.needComma {
      KeyMissingStep(s1, k); Stop(s1);
    } else {
      x := NextMember1(s1, k);
    }
  }

  lemma {:induction false} NextMember1(s: State, k: nat) returns (x: State)
    requires Inside1(s, k) && s.nodes[k].kind == KObject && Peek(s.text, s.ptr) == '"' && !s.f.needComma
    ensures match ReadMembers(s.text, s.ptr, false, s.nodes[k].length)
            case Err => Run(s) == Rejected
            case Ok(ms, q) => ClosedRest1(s, x, k, |ms|, |KeyText(ms)|, MeasuredMembers(ms, At(k), |s.nodes|), q)
    decreases |s.text| - s.ptr, 2
  {
    hide Run, Step, Finish, ReadValue, ReadString, ReadMembers, Measured, Grown, KeyText, MeasuredMembers;
    MembersFromKey(s.text, s.ptr, s.nodes[k].length);
    var s1 := Key1(s, k);
    var n := s.nodes[k];
    x := s;
    var key := ReadString(s.text, s.ptr + 1, 0);
    if key.Ok? && Peek(s.text, SkipSpace(s.text, key.next)) == ':' {
      var name := key.value;
      GrownKeeps(n, 0, |name| + 1);
      x := Value1(s1);
      match ReadValue(s.text, s1.ptr) {
        case Err =>
        case Ok(v, q) =>
          Counts(s1, x, k, v, q);
          if n.length + 1 <= UINT_LIMIT {
            x := RestOfMembers1(s, s1, x, k, Member(name, v), q);
          }
      }
    }
  }

  /** The reader at the opening quote of a key. */
  lemma MembersFromKey(t: string, p: nat, n: nat)
    requires p <= |t| && Peek(t, p) == '"'
    ensures var key := ReadString(t, p + 1, 0);
            ReadMembers(t, p, false, n) ==
            if key.Err? || Peek(t, SkipSpace(t, key.next)) != ':' then Err
            else
              match ReadValue(t, SkipSpace(t, SkipSpace(t, key.next) + 1))
              case Err => Err
              case Ok(v, q) =>
                if n + 1 > UINT_LIMIT then Err
                else
                  match ReadMembers(t, q, true, n + 1)
                  case Err => Err
                  case Ok(ms, r) => Ok([Member(key.value, v)] + ms, r)
  {
    hide ReadValue, ReadString;
    assert SkipSpace(t, p) == p;
  }

  /** After the member `m` of the object at `k`, whose value was completed in `y`. */
  lemma {:induction false} RestOfMembers1(s: State, s1: State, y: State, k: nat, m: Member, q: nat) returns (x: State)
    requires Inside1(s, k) && s.nodes[k].kind == KObject && Ready1(s1) && s1.top == At(k)
    requires s1 == s.(ptr := s1.ptr, f := s1.f, stringLength := s1.stringLength,
                      nodes := s.nodes[k := Grown(s.nodes[k], 0, |m.name| + 1)])
    requires q <= |s.text| && s.ptr < q && Closed1(s1, y, m.value, q) && k < |y.nodes|
    requires Run(s) == Run(Counted1(y, k))
    requires Counted1(y, k).nodes == s1.nodes[k := Grown(s1.nodes[k], 1, 0)] + Measured(m.value, At(k), |s1.nodes|)
    ensures match ReadMembers(s.text, q, true, s.nodes[k].length + 1)
            case Err => Run(s) == Rejected
            case Ok(ms, r) =>
              ClosedRest1(s, x, k, |ms| + 1, |KeyText([m] + ms)|, MeasuredMembers([m] + ms, At(k), |s.nodes|), r)
    decreases |s.text| - s.ptr, 0
  {
    hide Run, Step, Finish, ReadValue, ReadString, ReadMembers, Measured, Grown;
    var s2 := Counted1(y, k);
    var n := s.nodes[k];
    var bytes := |m.name| + 1;
    GrownKeeps(n, 0, bytes);
    GrownTwice(n, 0, bytes, 1, 0);
    GrownKeeps(n, 1, bytes);
    UpdateTwice(s.nodes, k, Grown(n, 0, bytes), Grown(n, 1, bytes), [], Measured(m.value, At(k), |s.nodes|));
    x := Members1(s2, k);
    match ReadMembers(s.text, q, true, n.length + 1) {
      case Err =>
      case Ok(ms, r) =>
        assert ([m] + ms)[1..] == ms;
        JoinRest(s, s2, x, k, bytes, Measured(m.value, At(k), |s.nodes|), |ms|, |KeyText(ms)|,
                 MeasuredMembers(ms, At(k), |s2.nodes|), r);
    }
  }

  // ---------------------------------------------------------------- documents

  lemma EndStep(s: State)
    requires s.ptr <= |s.text| && s.f.done && !s.f.str
    ensures Peek(s.text, s.ptr) == '\0' ==> Step(s) == Accept(s)
    ensures Peek(s.text, s.ptr) != '\0' && !IsSpace(Peek(s.text, s.ptr)) ==> Step(s) == Fail
  {
    hide Run, Seek, Inside, StringChar;
  }

  lemma RootDone(x: State)
    requires Complete(x) && x.nodes[x.top.i].parent.Null?
    ensures Finish(x) == Next(x.(ptr := EndOf(x), f := x.f.(next := false, reproc := false, needComma := true,
                                                            done := true)))
  {
  }

  /** Pass 1 rejects exactly the texts the reader rejects, and otherwise leaves the measured nodes. */
  lemma Pass1(text: string, junk: char)
    ensures Run(Start(text, true, junk, []))
         == match ReadDocument(text)
            case Err => Rejected
            case Ok(v, _) => Accepted(At(0), Measured(v, Null, 0))
  {
    hide Run, Step, Finish, ReadValue, Measured;
    var s := Start(text, true, junk, []);
    Spaces(s);
    var s1 := s.(ptr := SkipSpace(text, 0));
    var x := Value1(s1);
    match ReadValue(text, s1.ptr) {
      case Err =>
      case Ok(v, q) =>
        MeasuredParent(v, Null, 0);
        assert x.nodes == Measured(v, Null, 0);
        RootDone(x);
        var s2 := x.(ptr := q, f := x.f.(next := false, reproc := false, needComma := true, done := true));
        Spaces(s2);
        var s3 := s2.(ptr := SkipSpace(text, q));
        EndStep(s3); Stop(s3);
    }
  }
}
