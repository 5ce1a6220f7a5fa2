/** No registry with a quote, a backslash or a zero byte in one of its strings survives being written and loaded: every
    such string that is loaded needs a worse one that was written. */
module DirtyStrings {
  import opened JsonGrammar
  import opened Description
  import opened DescLoader
  import opened LoadedStrings
  import opened TokenShapes
  import opened WrittenStrings

  /** `r` is worse than `s`: it has more characters that cannot stand as they are, or as many of them and does not end
      like a line while `s` does, or as many and is longer. */
  predicate Below(s: string, r: string) {
    || Dirt(s) < Dirt(r)
    || (Dirt(s) == Dirt(r) && EndsOpen(s) && !EndsOpen(r))
    || (Dirt(s) == Dirt(r) && EndsOpen(s) == EndsOpen(r) && |s| < |r|)
  }

  lemma {:induction false} Worst(strings: set<string>) returns (m: string)
    requires strings != {}
    ensures m in strings && forall s :: s in strings ==> !Below(m, s)
    decreases |strings|
  {
    hide Dirt, EndsOpen;
    var s :| s in strings;
    if strings == {s} {
      m := s;
    } else {
      var rest := strings - {s};
      assert |rest| < |strings| && strings == rest + {s};
      var r := Worst(rest);
      m := if Below(r, s) then s else r;
    }
  }

  /** If every dirty string needs a worse one, there is none. */
  lemma AllClean(strings: set<string>)
    requires forall s :: s in strings && Dirt(s) > 0 ==> exists r :: r in strings && Below(s, r)
    ensures forall s :: s in strings ==> Dirt(s) == 0
  {
    hide Dirt, EndsOpen;
    if strings != {} {
      var m := Worst(strings);
      forall s | s in strings ensures Dirt(s) == 0 {
        assert !Below(m, s);
      }
    }
  }

  // ---------------------------------------------------------------- where a dirty string comes from

  lemma {:induction false} CutIsNotDirtier(s: string)
    ensures Dirt(CString(s)) <= Dirt(s)
  {
    if s == "" || s[0] == '\0' {
    } else {
      CutIsNotDirtier(s[1..]);
      assert CString(s) == [s[0]] + CString(s[1..]);
      DirtJoined([s[0]], CString(s[1..]));
      DirtJoined([s[0]], s[1..]);
      assert [s[0]] + s[1..] == s;
    }
  }

  lemma {:induction false} UncutString(s: string)
    requires '\0' !in s
    ensures CString(s) == s
  {
    if s == "" {
    } else {
      UncutString(s[1..]);
      assert s == [s[0]] + s[1..];
    }
  }

  lemma {:induction false} CutEarly(a: string, b: string)
    requires '\0' in a
    ensures CString(a + b) == CString(a)
  {
    if a[0] == '\0' {
    } else {
      assert (a + b)[1..] == a[1..] + b && a[0] == (a + b)[0];
      CutEarly(a[1..], b);
    }
  }

  /** Where there is something to decode there is a backslash. */
  lemma {:induction false} BackslashIn(t: string, p: nat, n: nat) returns (x: nat)
    requires p <= |t| && ReadString(t, p, n).Ok? && Dirt(t[p..ReadString(t, p, n).next - 1]) > 0
    ensures p <= x < ReadString(t, p, n).next - 1 && t[x] == '\\'
    decreases |t| - p
  {
    hide ReadChar;
    Decoded(t, p, n);
    var e := ReadString(t, p, n).next - 1;
    if t[p] == '"' {
      assert false;
    } else if t[p] == '\\' {
      x := p;
    } else {
      var q := ReadChar(t, p).next;
      CharDecoded(t, p);
      DirtJoined(t[p..q], t[q..e]);
      assert t[p..q] + t[q..e] == t[p..e];
      x := BackslashIn(t, q, n + |ReadChar(t, p).value|);
    }
  }

  lemma ShrunkBelow(g: string, d: string, r: string)
    requires Shrinks(g, d) && Dirt(CString(d)) > 0 && (g == r || Dirt(g) < Dirt(r))
    ensures Below(CString(d), r)
  {
    CutIsNotDirtier(d);
    if '\0' !in d { UncutString(d); }
    hide Dirt, CString, EndsOpen;
  }

  /** The string that a token is decoded to, when the token lies inside a written string `t[a..b]`. */
  lemma InsideSlot(t: string, q: nat, a: nat, b: nat)
    requires IsToken(t, q) && 1 <= a <= q + 1 <= ReadString(t, q + 1, 0).next - 1 <= b < |t|
    requires Dirt(TokenString(t, q)) > 0
    ensures Below(TokenString(t, q), t[a..b])
  {
    hide Dirt, CString, ReadString, Shrinks, Below;
    var e := ReadString(t, q + 1, 0).next - 1;
    Decoded(t, q + 1, 0);
    if q + 1 != a || e != b { MoreDirt(t, a, q, e, b); }
    ShrunkBelow(t[q + 1..e], ReadString(t, q + 1, 0).value, t[a..b]);
  }

  lemma SliceOfSlice(t: string, a: nat, b: nat, i: nat, j: nat)
    requires a <= b <= |t| && i <= j <= b - a
    ensures t[a..b][i..j] == t[a + i..a + j]
  {
    assert forall k :: 0 <= k < b - a ==> t[a..b][k] == t[a + k];
  }

  lemma MoreDirt(t: string, a: nat, q: nat, e: nat, b: nat)
    requires a <= q + 1 <= e <= b < |t| && t[q] == t[e] == '"' && (q + 1 != a || e != b)
    ensures Dirt(t[a..b]) > Dirt(t[q + 1..e])
  {
    OneDirt('"');
    hide Dirt;
    var r := t[a..b];
    SliceOfSlice(t, a, b, q + 1 - a, e - a);
    assert r[0..] == r;
    DirtSplit(r, 0, q + 1 - a);
    DirtSplit(r, q + 1 - a, e - a);
    if q + 1 != a {
      assert r[0..q + 1 - a] == r[0..q - a] + "\"";
      DirtJoined(r[0..q - a], "\"");
    } else {
      assert r[e - a..] == "\"" + r[e + 1 - a..];
      DirtJoined("\"", r[e + 1 - a..]);
    }
  }

  /** The same when the token goes past the quote after the written string, which a backslash must then precede, up to
      the next quote. */
  lemma PastSlot(t: string, q: nat, s: Slot)
    requires IsToken(t, q) && IsSlot(t, s) && s.a <= q + 1 && q < s.b < ReadString(t, q + 1, 0).next - 1 <= s.c
    ensures Below(TokenString(t, q), t[s.a..s.b])
  {
    hide ReadString, Dirt, CString, EndsOpen, CleanChar, Below;
    var before, m := QuoteInside(t, q + 1, 0, s.b);
    RunRead(t, s, m);
    LastBackslash(t, s.a, q + 1, s.b);
    assert ReadString(t, q + 1, 0).value == before + ("\"" + t[s.b + 1..s.c]);
    EndsWithRun(before, t[s.b + 1..s.c], t[s.a..s.b]);
  }

  /** From the quote after a written string to the next there is nothing to decode. */
  lemma RunRead(t: string, s: Slot, m: nat)
    requires IsSlot(t, s) && ReadString(t, s.b + 1, m).Ok? && ReadString(t, s.b + 1, m).next - 1 <= s.c
    ensures var run := t[s.b + 1..s.c];
            ReadString(t, s.b + 1, m).value == run && run != "" && Dirt(run) == 0 && EndsOpen(run)
  {
    Decoded(t, s.b + 1, m);
    hide ReadString;
    assert ReadString(t, s.b + 1, m).next - 1 == s.c;
    NoDirt(t[s.b + 1..s.c]);
  }

  lemma EndsWithRun(before: string, run: string, r: string)
    requires run != "" && Dirt(run) == 0 && EndsOpen(run) && Dirt(before) < Dirt(r) && !EndsOpen(r)
    ensures Below(CString(before + ("\"" + run)), r)
  {
    if '\0' in before {
      CutEarly(before, "\"" + run);
      CutIsNotDirtier(before);
    } else {
      QuoteAndRun(before, run);
    }
    hide Dirt, CString, EndsOpen;
  }

  lemma LastBackslash(t: string, a: nat, p: nat, b: nat)
    requires a <= p < b <= |t| && t[b - 1] == '\\'
    ensures Dirt(t[p..b - 1]) < Dirt(t[a..b]) && !EndsOpen(t[a..b])
  {
    OneDirt('\\');
    hide Dirt;
    assert t[a..b] == t[a..p] + (t[p..b - 1] + "\\");
    DirtJoined(t[a..p], t[p..b - 1] + "\\");
    DirtJoined(t[p..b - 1], "\\");
  }

  lemma QuoteAndRun(before: string, run: string)
    requires '\0' !in before && run != "" && Dirt(run) == 0
    ensures CString(before + ("\"" + run)) == before + ("\"" + run)
    ensures Dirt(before + ("\"" + run)) == Dirt(before) + 1
    ensures EndsOpen(before + ("\"" + run)) == EndsOpen(run)
  {
    NoDirt(run);
    OneDirt('"');
    DirtJoined(before, "\"" + run);
    DirtJoined("\"", run);
    EndsJoined("\"", run);
    EndsJoined(before, "\"" + run);
    UncutString(before + ("\"" + run));
  }

  /** Every dirty string of a text in which all backslashes are in written strings comes from a worse one of these. */
  lemma WorseString(t: string, q: nat, raws: set<string>) returns (r: string)
    requires IsToken(t, q) && Slotted(t, raws) && Dirt(TokenString(t, q)) > 0
    ensures r in raws && Below(TokenString(t, q), r)
  {
    hide Dirt, CString;
    var e := ReadString(t, q + 1, 0).next - 1;
    Decoded(t, q + 1, 0);
    CutIsNotDirtier(ReadString(t, q + 1, 0).value);
    var x := BackslashIn(t, q + 1, 0);
    var s :| InSlot(t, x, s, raws);
    hide ReadString, Slotted, Below;
    r := t[s.a..s.b];
    if q + 1 < s.a {
      var d, m := QuoteInside(t, q + 1, 0, s.a - 1);
      assert false;
    }
    if e > s.c {
      var d, m := QuoteInside(t, q + 1, 0, s.c);
      assert false;
    }
    if e <= s.b {
      InsideSlot(t, q, s.a, s.b);
    } else {
      PastSlot(t, q, s);
    }
  }
}
