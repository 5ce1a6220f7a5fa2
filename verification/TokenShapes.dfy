/** What decoding does to the bytes between two quotes of a text: it never gains quotes, backslashes or zero bytes. */
module TokenShapes {
  import opened JsonText
  import opened JsonGrammar
  import opened Description
  import opened DescLoader

  /** How many characters of `s` cannot stand between quotes as they are. */
  function Dirt(s: string): nat {
    if s == "" then 0 else (if CleanChar(s[0]) then 0 else 1) + Dirt(s[1..])
  }

  lemma {:induction false} DirtJoined(a: string, b: string)
    ensures Dirt(a + b) == Dirt(a) + Dirt(b)
  {
    if a == "" {
      assert a + b == b;
    } else {
      assert (a + b)[1..] == a[1..] + b;
      DirtJoined(a[1..], b);
    }
  }

  lemma DirtSplit(s: string, i: nat, j: nat)
    requires i <= j <= |s|
    ensures Dirt(s[i..]) == Dirt(s[i..j]) + Dirt(s[j..])
  {
    hide Dirt;
    assert s[i..] == s[i..j] + s[j..];
    DirtJoined(s[i..j], s[j..]);
  }

  lemma {:induction false} NoDirt(s: string)
    ensures Dirt(s) == 0 <==> forall i :: 0 <= i < |s| ==> CleanChar(s[i])
  {
    if s == "" {
    } else {
      NoDirt(s[1..]);
      assert (forall i :: 0 <= i < |s| ==> CleanChar(s[i]))
        <==> CleanChar(s[0]) && forall i :: 0 <= i < |s[1..]| ==> CleanChar(s[1..][i]);
    }
  }

  lemma OneDirt(c: char)
    ensures Dirt([c]) == if CleanChar(c) then 0 else 1
  {
    assert [c][1..] == "" && Dirt("") == 0;
  }

  predicate EndsOpen(s: string) {
    s != "" && (s[|s| - 1] == '{' || s[|s| - 1] == '\n')
  }

  // ---------------------------------------------------------------- one character

  lemma Utf8Clean(u: nat)
    requires u < 0x11_0000
    ensures |Utf8(u)| >= 1 && Dirt(Utf8(u)) <= 1
    ensures '\0' in Utf8(u) ==> Utf8(u) == ['\0']
    ensures |Utf8(u)| <= 4 && (u < 0x1_0000 ==> |Utf8(u)| <= 3)
  {
    var s := Utf8(u);
    if u <= 0x7F {
      OneDirt(s[0]);
    } else {
      NoDirt(s);
    }
  }

  /** What one character of a string becomes. */
  lemma CharDecoded(t: string, p: nat)
    requires p < |t| && t[p] != '"' && t[p] != '\0' && ReadChar(t, p).Ok?
    ensures var b, q := ReadChar(t, p).value, ReadChar(t, p).next;
            && b != "" && Dirt(b) <= Dirt(t[p..q]) && |b| <= q - p
            && (t[p] == '\\' ==> |b| < q - p && Dirt(t[p..q]) > 0)
            && (t[p] != '\\' ==> b == t[p..q] && Dirt(b) == 0)
            && ('\0' in b ==> t[p] == '\\' && b == ['\0'])
            && (EndsOpen(t[p..q]) ==> EndsOpen(b))
            && (forall i :: p < i < q && t[i] == '"' ==> i == p + 1 && t[p] == '\\' && b == "\"" && q == i + 1)
  {
    var b, q := ReadChar(t, p).value, ReadChar(t, p).next;
    DirtJoined([t[p]], t[p + 1..q]);
    OneDirt(t[p]);
    assert t[p..q] == [t[p]] + t[p + 1..q];
    if t[p] == '\\' {
      EscapeDecoded(t, p + 1);
    }
    hide Dirt, ReadEscape;
  }

  lemma EscapeDecoded(t: string, p: nat)
    requires p <= |t| && ReadEscape(t, p).Ok?
    ensures var b, q := ReadEscape(t, p).value, ReadEscape(t, p).next;
            && b != "" && Dirt(b) <= 1 && |b| <= q - p && ('\0' in b ==> b == ['\0'])
            && (EndsOpen(t[p..q]) ==> EndsOpen(b))
            && (forall i :: p <= i < q && t[i] == '"' ==> i == p && b == "\"" && q == p + 1)
  {
    hide Dirt, Utf8, Hex4;
    var b, q := ReadEscape(t, p).value, ReadEscape(t, p).next;
    if t[p] == 'u' {
      var u := UnicodeEscape(t, p).value;
      Utf8Clean(u);
      UnicodeNoQuote(t, p);
    } else {
      OneDirt(b[0]);
    }
  }

  lemma UnicodeNoQuote(t: string, p: nat)
    requires p < |t| && t[p] == 'u' && UnicodeEscape(t, p).Ok?
    ensures var q := UnicodeEscape(t, p).next;
            && p + 5 <= q && (UnicodeEscape(t, p).value >= 0x1_0000 ==> p + 11 <= q)
            && !EndsOpen(t[p..q]) && forall i :: p <= i < q ==> t[i] != '"'
  {
    var q := UnicodeEscape(t, p).next;
    HexIsHex(t, p + 1);
    if q == p + 11 { HexIsHex(t, p + 7); }
    hide Hex4, HexValue;
    assert t[p..q][q - p - 1] == t[q - 1];
  }

  lemma HexIsHex(t: string, p: nat)
    requires Hex4(t, p)
    ensures p + 4 <= |t| && forall i :: p <= i < p + 4 ==> t[i] != '"' && t[i] != '{' && t[i] != '\n'
  {
    EndOfHex(t, p);
    forall i | p <= i < p + 4 ensures t[i] != '"' && t[i] != '{' && t[i] != '\n' {
      assert HexValue(Peek(t, i)) != 0xFF;
    }
  }

  // ---------------------------------------------------------------- a whole string

  lemma {:induction false} CStringJoined(a: string, b: string)
    requires '\0' !in a
    ensures CString(a + b) == a + CString(b)
  {
    if a == "" {
      assert a + b == b;
    } else {
      assert (a + b)[1..] == a[1..] + b;
      CStringJoined(a[1..], b);
      assert [a[0]] + (a[1..] + CString(b)) == a + CString(b);
    }
  }

  /** How the bytes between the quotes, `g`, and what they are read as, `d`, are related. */
  predicate Shrinks(g: string, d: string) {
    && Dirt(d) <= Dirt(g) && |d| <= |g| && (Dirt(g) > 0 ==> |d| < |g|) && (Dirt(g) == 0 ==> d == g)
    && ('\0' in d ==> Dirt(CString(d)) < Dirt(g)) && (EndsOpen(g) ==> EndsOpen(d))
  }

  lemma EndsJoined(a: string, b: string)
    ensures EndsOpen(a + b) == if b == "" then EndsOpen(a) else EndsOpen(b)
  {
  }

  lemma CutAtZero(b: string, d: string)
    requires b != ""
    ensures '\0' !in b ==> Dirt(CString(b + d)) == Dirt(b) + Dirt(CString(d))
    ensures b == ['\0'] ==> Dirt(CString(b + d)) == 0
  {
    if '\0' !in b {
      CStringJoined(b, d);
      DirtJoined(b, CString(d));
    } else if b == ['\0'] {
      assert CString(b + d) == "";
    }
  }

  lemma ShrinksJoined(g: string, b: string, g': string, d: string)
    requires Shrinks(g', d) && g != "" && b != "" && Dirt(b) <= Dirt(g) && |b| <= |g| && (EndsOpen(g) ==> EndsOpen(b))
    requires if Dirt(g) > 0 then |b| < |g| else b == g
    requires '\0' in b ==> b == ['\0'] && Dirt(g) > 0
    ensures Shrinks(g + g', b + d)
  {
    DirtJoined(g, g');
    DirtJoined(b, d);
    CutAtZero(b, d);
    EndsJoined(g, g');
    EndsJoined(b, d);
    hide Dirt, CString, EndsOpen;
    assert '\0' in b + d ==> '\0' in b || '\0' in d;
  }

  /** Decoding shrinks what stands between the quotes. */
  lemma {:induction false} Decoded(t: string, p: nat, n: nat)
    requires p <= |t| && ReadString(t, p, n).Ok?
    ensures var d, e := ReadString(t, p, n).value, ReadString(t, p, n).next - 1;
            p <= e && t[e] == '"' && Shrinks(t[p..e], d)
    decreases |t| - p
  {
    hide ReadChar, Shrinks, EndsOpen;
    var e := ReadString(t, p, n).next - 1;
    if t[p] == '"' {
      NothingShrinks();
      assert t[p..e] == "";
    } else {
      var b, q := ReadChar(t, p).value, ReadChar(t, p).next;
      CharDecoded(t, p);
      Decoded(t, q, n + |b|);
      var d := ReadString(t, q, n + |b|).value;
      hide ReadString;
      assert t[p..e] == t[p..q] + t[q..e];
      ShrinksJoined(t[p..q], b, t[q..e], d);
    }
  }

  lemma NothingShrinks()
    ensures Shrinks("", "")
  {
  }

  /** A quote among the bytes of a string is written as an escape, and what follows is read on from there. */
  lemma {:induction false} QuoteInside(t: string, p: nat, n: nat, i: nat) returns (d: string, m: nat)
    requires p <= |t| && ReadString(t, p, n).Ok? && p <= i < ReadString(t, p, n).next - 1 && t[i] == '"'
    ensures i > p && t[i - 1] == '\\' && ReadString(t, i + 1, m).Ok?
    ensures ReadString(t, i + 1, m).next == ReadString(t, p, n).next
    ensures ReadString(t, p, n).value == d + "\"" + ReadString(t, i + 1, m).value
    ensures Dirt(d) <= Dirt(t[p..i - 1])
    decreases |t| - p
  {
    hide ReadChar, EndsOpen;
    var b, q := ReadChar(t, p).value, ReadChar(t, p).next;
    CharDecoded(t, p);
    hide Dirt;
    if i < q {
      d, m := "", n + 1;
      NoDirt("");
      assert "" + "\"" == b;
    } else {
      var rest, k := QuoteInside(t, q, n + |b|, i);
      d, m := b + rest, k;
      DirtJoined(b, rest);
      DirtJoined(t[p..q], t[q..i - 1]);
      assert t[p..q] + t[q..i - 1] == t[p..i - 1];
      assert b + (rest + "\"" + ReadString(t, i + 1, m).value) == d + "\"" + ReadString(t, i + 1, m).value;
    }
  }
}
