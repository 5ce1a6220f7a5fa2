/** Where the names and expressions of a loaded registry come from: each is the value of a string of the file, up to
    its first zero byte. */
module LoadedStrings {
  import opened JsonText
  import opened JsonGrammar
  import opened Options
  import opened RegistryModel
  import opened DescLoader
  import opened LoaderProofs

  // ---------------------------------------------------------------- the strings of a tree

  predicate AllIn(v: Json, strings: set<string>) {
    match v
    case JString(s) => CString(s) in strings
    case JArray(vs) => forall i :: 0 <= i < |vs| ==> AllIn(vs[i], strings)
    case JObject(ms) => MembersIn(ms, strings)
    case _ => true
  }

  predicate MembersIn(ms: seq<Member>, strings: set<string>) {
    forall i :: 0 <= i < |ms| ==> CString(ms[i].name) in strings && AllIn(ms[i].value, strings)
  }

  predicate OptionIn(s: Option<string>, strings: set<string>) {
    s.Some? ==> s.value in strings
  }

  predicate DomainIn(d: Domain, strings: set<string>) {
    && d.name in strings
    && (forall i :: 0 <= i < |d.params| ==> d.params[i].name in strings)
    && forall i :: 0 <= i < |d.constraints| ==> d.constraints[i].name in strings && d.constraints[i].expr in strings
  }

  predicate RegistryIn(ds: seq<Domain>, strings: set<string>) {
    forall i :: 0 <= i < |ds| ==> DomainIn(ds[i], strings)
  }

  predicate LoadIn(l: Load, strings: set<string>) {
    l.Load? ==>
      && RegistryIn(l.ds, strings)
      && OptionIn(l.box.pname, strings) && OptionIn(l.box.cname, strings) && OptionIn(l.box.expr, strings)
  }

  // ---------------------------------------------------------------- the loader invents none

  lemma CommitParamIn(l: Load, strings: set<string>)
    requires LoadIn(l, strings)
    ensures LoadIn(CommitParam(l), strings)
  {
  }

  lemma CommitConstraintIn(l: Load, strings: set<string>)
    requires LoadIn(l, strings)
    ensures LoadIn(CommitConstraint(l), strings)
  {
  }

  lemma AddDomainIn(ds: seq<Domain>, name: string, strings: set<string>)
    requires RegistryIn(ds, strings) && name in strings
    ensures RegistryIn(AddDomain(ds, name), strings)
  {
  }

  lemma EnterIn(l: Load, name: string, depth: nat, strings: set<string>)
    requires LoadIn(l, strings) && name in strings
    ensures LoadIn(Enter(l, name, depth), strings)
  {
    hide RegistryIn, CommitParam, CommitConstraint, AddDomain;
    if l.Load? {
      CommitParamIn(l, strings);
      CommitConstraintIn(CommitParam(l), strings);
      if depth == 1 {
        var done := if l.box.inDomain then CommitConstraint(CommitParam(l)) else l;
        if done.Load? { AddDomainIn(done.ds, name, strings); }
      } else if depth == 3 {
        CommitConstraintIn(EnterParam(l, name), strings);
      }
    }
  }

  lemma IntegerIn(l: Load, i: int, strings: set<string>)
    requires LoadIn(l, strings)
    ensures LoadIn(StoreInt(l, i), strings)
  {
    hide RegistryIn;
  }

  lemma {:induction false} ValueIn(l: Load, v: Json, depth: nat, strings: set<string>)
    requires LoadIn(l, strings) && AllIn(v, strings)
    ensures LoadIn(Value(l, v, depth), strings)
    decreases v, 0
  {
    hide RegistryIn, LoadItems, LoadMembers, StoreInt, CommitParam, CommitConstraint;
    if l.Load? {
      match v {
        case JObject(ms) =>
          MembersLoadedIn(l, ms, |ms|, depth + 1, strings);
          var r := LoadMembers(l, ms, |ms|, depth + 1);
          CommitParamIn(r, strings);
          CommitConstraintIn(CommitParam(r), strings);
        case JArray(vs) => ItemsLoadedIn(l.(box := EnterArray(l.box, |vs|)), vs, |vs|, depth + 1, strings);
        case JInt(i) => IntegerIn(l, i, strings);
        case _ =>
      }
    }
  }

  lemma {:induction false} MembersLoadedIn(l: Load, ms: seq<Member>, k: nat, depth: nat, strings: set<string>)
    requires LoadIn(l, strings) && MembersIn(ms, strings) && k <= |ms|
    ensures LoadIn(LoadMembers(l, ms, k, depth), strings)
    decreases ms, k
  {
    hide LoadIn, Enter, Value, CString;
    if k == 0 {
    } else {
      MembersLoadedIn(l, ms, k - 1, depth, strings);
      NextMemberIn(LoadMembers(l, ms, k - 1, depth), ms[k - 1], depth, strings);
    }
  }

  lemma {:induction false} NextMemberIn(l: Load, m: Member, depth: nat, strings: set<string>)
    requires LoadIn(l, strings) && CString(m.name) in strings && AllIn(m.value, strings)
    ensures LoadIn(Value(Enter(l, CString(m.name), depth), m.value, depth), strings)
    decreases m, 1
  {
    hide LoadIn, Enter, Value, CString, AllIn;
    EnterIn(l, CString(m.name), depth, strings);
    ValueIn(Enter(l, CString(m.name), depth), m.value, depth, strings);
  }

  lemma {:induction false} ItemsLoadedIn(l: Load, vs: seq<Json>, k: nat, depth: nat, strings: set<string>)
    requires LoadIn(l, strings) && k <= |vs| && forall i :: 0 <= i < |vs| ==> AllIn(vs[i], strings)
    ensures LoadIn(LoadItems(l, vs, k, depth), strings)
    decreases vs, k
  {
    hide LoadIn, Value;
    if k == 0 {
    } else {
      ItemsLoadedIn(l, vs, k - 1, depth, strings);
      ValueIn(LoadItems(l, vs, k - 1, depth), vs[k - 1], depth, strings);
    }
  }

  /** The first domain clears whatever the uninitialised record holds. */
  lemma FirstDomainIn(l: Load, name: string, strings: set<string>)
    requires l.Load? && RegistryIn(l.ds, strings) && NothingPending(l.box) && name in strings
    ensures LoadIn(Enter(l, name, 1), strings)
  {
    hide RegistryIn, AddDomain;
    AddDomainIn(l.ds, name, strings);
  }

  lemma {:induction false} DomainsLoadedIn(l: Load, ms: seq<Member>, k: nat, strings: set<string>)
    requires l.Load? && RegistryIn(l.ds, strings) && NothingPending(l.box) && MembersIn(ms, strings) && 0 < k <= |ms|
    ensures LoadIn(LoadMembers(l, ms, k, 1), strings)
    decreases k
  {
    hide LoadIn, Enter, Value, CString, RegistryIn, NothingPending;
    if k == 1 {
      NoMember(l, ms, 1);
      FirstDomainIn(l, CString(ms[0].name), strings);
      ValueIn(Enter(l, CString(ms[0].name), 1), ms[0].value, 1, strings);
    } else {
      DomainsLoadedIn(l, ms, k - 1, strings);
      NextMemberIn(LoadMembers(l, ms, k - 1, 1), ms[k - 1], 1, strings);
    }
  }

  /** Whatever object is loaded, every name and expression that the registry then has it had before, or is a string
      of the object. */
  lemma LoadedFrom(l: Load, ms: seq<Member>, strings: set<string>)
    requires l.Load? && RegistryIn(l.ds, strings) && NothingPending(l.box) && MembersIn(ms, strings)
    ensures var r := Value(l, JObject(ms), 0); r.Load? ==> RegistryIn(r.ds, strings)
  {
    hide Value, LoadMembers, RegistryIn, CommitParam, CommitConstraint, MembersIn;
    TopValue(l, ms);
    NoMember(l, ms, 1);
    if ms != [] {
      var r := LoadMembers(l, ms, |ms|, 1);
      DomainsLoadedIn(l, ms, |ms|, strings);
      CommitParamIn(r, strings);
      CommitConstraintIn(CommitParam(r), strings);
    }
  }

  // ---------------------------------------------------------------- the strings of a text

  /** A string can be read after the quote at `q`. */
  predicate IsToken(t: string, q: nat) {
    q < |t| && t[q] == '"' && ReadString(t, q + 1, 0).Ok?
  }

  /** What the loader takes from it. */
  function TokenString(t: string, q: nat): string
    requires IsToken(t, q)
  {
    CString(ReadString(t, q + 1, 0).value)
  }

  function Tokens(t: string): set<string> {
    set q | 0 <= q < |t| && IsToken(t, q) :: TokenString(t, q)
  }

  lemma {:induction false} ReadValueIn(t: string, p: nat, strings: set<string>)
    requires p <= |t| && Tokens(t) <= strings && ReadValue(t, p).Ok?
    ensures AllIn(ReadValue(t, p).value, strings)
    decreases |t| - p, 1
  {
    hide ReadItems, ReadMembers, ReadString, ReadNumber, MembersIn, Tokens;
    match Peek(t, p) {
      case '{' => ReadMembersIn(t, p + 1, false, 0, strings);
      case '[' => ReadItemsIn(t, p + 1, false, 0, strings);
      case '"' => TokenIn(t, p);
      case c => if IsDigit(c) || c == '-' { NumberIn(t, p); }
    }
  }

  lemma TokenIn(t: string, q: nat)
    requires IsToken(t, q)
    ensures TokenString(t, q) in Tokens(t)
  {
  }

  lemma NumberIn(t: string, p: nat)
    requires p <= |t| && (IsDigit(Peek(t, p)) || Peek(t, p) == '-') && ReadNumber(t, p).Ok?
    ensures ReadNumber(t, p).value.JInt? || ReadNumber(t, p).value.JDouble?
  {
    hide AfterDigits;
  }

  lemma {:induction false} ReadItemsIn(t: string, p: nat, needComma: bool, n: nat, strings: set<string>)
    requires p <= |t| && Tokens(t) <= strings && ReadItems(t, p, needComma, n).Ok?
    ensures forall i :: 0 <= i < |ReadItems(t, p, needComma, n).value| ==>
                          AllIn(ReadItems(t, p, needComma, n).value[i], strings)
    decreases |t| - p, 2
  {
    hide ReadValue, AllIn, Tokens;
    var q := SkipSpace(t, p);
    if Peek(t, q) == ']' {
    } else {
      if needComma {
        ReadItemsIn(t, q + 1, false, n, strings);
      } else {
        ReadValueIn(t, q, strings);
        ReadItemsIn(t, ReadValue(t, q).next, true, n + 1, strings);
      }
    }
  }

  lemma {:induction false} ReadMembersIn(t: string, p: nat, needComma: bool, n: nat, strings: set<string>)
    requires p <= |t| && Tokens(t) <= strings && ReadMembers(t, p, needComma, n).Ok?
    ensures MembersIn(ReadMembers(t, p, needComma, n).value, strings)
    decreases |t| - p, 2
  {
    hide ReadMember, AllIn, Tokens, CString;
    var q := SkipSpace(t, p);
    if Peek(t, q) == '}' {
    } else {
      if Peek(t, q) == ',' && needComma {
        ReadMembersIn(t, q + 1, false, n, strings);
      } else {
        ReadMemberIn(t, q, strings);
        ReadMembersIn(t, ReadMember(t, q).next, true, n + 1, strings);
      }
    }
  }

  lemma {:induction false} ReadMemberIn(t: string, q: nat, strings: set<string>)
    requires q <= |t| && Tokens(t) <= strings && Peek(t, q) == '"' && ReadMember(t, q).Ok?
    ensures CString(ReadMember(t, q).value.name) in strings && AllIn(ReadMember(t, q).value.value, strings)
    decreases |t| - q, 1
  {
    hide ReadValue, ReadString, AllIn, Tokens, CString;
    TokenIn(t, q);
    var c := SkipSpace(t, ReadString(t, q + 1, 0).next);
    ReadValueIn(t, SkipSpace(t, c + 1), strings);
  }
}
