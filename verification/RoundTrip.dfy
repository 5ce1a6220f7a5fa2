/** From the registry to the description file and back: what one process collects, another one applies. */
module RoundTrip {
  import opened JsonText
  import opened JsonGrammar
  import JsonMachine
  import opened JsonSyntax
  import opened JsonLanguage
  import opened Options
  import opened RegistryModel
  import opened Description
  import opened DescLoader
  import opened LoaderProofs
  import opened AtpCommon
  import opened DescWriter
  import opened AtpDesc
  import opened ApiLedger
  import opened ApiModel
  import opened WriterLimits
  import opened LoadedStrings
  import opened TokenShapes
  import opened WrittenStrings
  import opened DirtyStrings

  // ---------------------------------------------------------------- the description file is loose

  predicate SpotlessParams(ps: seq<Param>) {
    forall i :: 0 <= i < |ps| ==> Spotless(ps[i].name)
  }

  predicate SpotlessConstraints(cs: seq<Constraint>) {
    forall i :: 0 <= i < |cs| ==> Spotless(cs[i].name) && Spotless(cs[i].expr)
  }

  /** No name or expression holds a quote, a backslash or a zero byte. */
  predicate SpotlessRegistry(ds: seq<Domain>) {
    forall i :: 0 <= i < |ds| ==>
                  Spotless(ds[i].name) && SpotlessParams(ds[i].params) && SpotlessConstraints(ds[i].constraints)
  }

  lemma RawIsLoose(s: string, clean: bool)
    requires clean ==> Spotless(s)
    ensures LooseString(Raws(s), clean)
  {
    RawsPieces(s);
  }

  lemma NumberIsLoose(n: Int32, clean: bool)
    ensures Loose(NumberOf(n), clean)
  {
    DecimalRead(n);
  }

  lemma {:induction false} IntsAreLoose(vs: seq<Int32>, clean: bool)
    ensures LooseItems(IntItems(vs), clean)
  {
    if vs == [] {
    } else {
      NumberIsLoose(vs[0], clean);
      hide NumberOf, Loose;
      IntsAreLoose(vs[1..], clean);
    }
  }

  predicate LooseMember(m: MemberDoc, clean: bool) {
    && IsBlank(m.lead) && LooseString(m.key, clean) && IsBlank(m.beforeColon) && IsBlank(m.afterColon)
    && Loose(m.value, clean) && IsBlank(m.trail)
  }

  lemma KeyedIsLoose(lead: string, key: string, value: Doc, clean: bool)
    requires IsBlank(lead) && Loose(value, clean) && (clean ==> Spotless(key))
    ensures LooseMember(Keyed(lead, key, value), clean)
  {
    hide LooseString, Raws, Loose;
    RawIsLoose(key, clean);
  }

  lemma FirstIsLoose(m: MemberDoc, rest: seq<MemberDoc>, clean: bool)
    requires LooseMember(m, clean) && LooseMembers(rest, clean)
    ensures LooseMembers([m] + rest, clean)
  {
    hide LooseString, IsBlank, Loose;
    assert ([m] + rest)[1..] == rest;
  }

  lemma ThreeAreLoose(a: MemberDoc, b: MemberDoc, c: MemberDoc, clean: bool)
    requires LooseMember(a, clean) && LooseMember(b, clean) && LooseMember(c, clean)
    ensures LooseMembers([a, b, c], clean)
  {
    assert LooseMembers([], clean);
    hide LooseMember, LooseMembers;
    FirstIsLoose(c, [], clean);
    FirstIsLoose(b, [c], clean);
    FirstIsLoose(a, [b, c], clean);
    assert [c] + [] == [c] && [b] + [c] == [b, c] && [a] + [b, c] == [a, b, c];
  }

  lemma BodyIsLoose(ms: seq<MemberDoc>, tail: string, clean: bool)
    requires LooseMembers(ms, clean) && IsBlank(tail)
    ensures Loose(ObjectDoc(ms, false, tail), clean)
  {
  }

  lemma ItemsAreLoose(items: seq<ItemDoc>, tail: string, clean: bool)
    requires LooseItems(items, clean) && IsBlank(tail)
    ensures Loose(ArrayDoc(items, false, tail), clean)
  {
  }

  lemma NothingIsLoose(clean: bool)
    ensures LooseMembers([], clean) && LooseItems([], clean)
  {
  }

  lemma KeysAreSpotless()
    ensures Spotless("range") && Spotless("type") && Spotless("default") && Spotless("expr")
    ensures Spotless("params") && Spotless("constraints") && Spotless("explorations")
  {
  }

  /** An object of three members with the names the writer uses. */
  lemma BodyOfThree(lead: string, tail: string, ka: string, a: Doc, kb: string, b: Doc, kc: string, c: Doc, clean: bool)
    requires IsBlank(lead) && IsBlank(tail) && Spotless(ka) && Spotless(kb) && Spotless(kc)
    requires Loose(a, clean) && Loose(b, clean) && Loose(c, clean)
    ensures Loose(ObjectDoc([Keyed(lead, ka, a), Keyed(lead, kb, b), Keyed(lead, kc, c)], false, tail), clean)
  {
    hide Loose, LooseMember, LooseMembers, Keyed, IsBlank, Spotless;
    KeyedIsLoose(lead, ka, a, clean);
    KeyedIsLoose(lead, kb, b, clean);
    KeyedIsLoose(lead, kc, c, clean);
    ThreeAreLoose(Keyed(lead, ka, a), Keyed(lead, kb, b), Keyed(lead, kc, c), clean);
    BodyIsLoose([Keyed(lead, ka, a), Keyed(lead, kb, b), Keyed(lead, kc, c)], tail, clean);
  }

  lemma ParamIsLoose(p: Param, clean: bool)
    ensures Loose(ParamBody(p), clean)
  {
    hide Loose, LooseItems, IntItems, NumberOf, Keyed, IsBlank, ValuesOf, Spotless;
    WriterKeys();
    KeysAreSpotless();
    IntsAreLoose(ValuesOf(p), clean);
    ItemsAreLoose(IntItems(ValuesOf(p)), "", clean);
    NumberIsLoose(p.ptype, clean);
    NumberIsLoose(p.deflt, clean);
    BodyOfThree("", "", "range", ArrayDoc(IntItems(ValuesOf(p)), false, ""), "type", NumberOf(p.ptype),
                "default", NumberOf(p.deflt), clean);
  }

  lemma {:induction false} ParamsAreLoose(ps: seq<Param>, clean: bool)
    requires clean ==> SpotlessParams(ps)
    ensures LooseMembers(ParamDocs(ps), clean)
  {
    if ps == [] {
    } else {
      hide LooseMember, LooseMembers, Keyed, ParamBody, IsBlank, Loose, Spotless;
      WriterKeys();
      ParamIsLoose(ps[0], clean);
      KeyedIsLoose("\n", ps[0].name, ParamBody(ps[0]), clean);
      ParamsAreLoose(ps[1..], clean);
      FirstIsLoose(Keyed("\n", ps[0].name, ParamBody(ps[0])), ParamDocs(ps[1..]), clean);
    }
  }

  lemma ConstraintIsLoose(c: Constraint, clean: bool)
    requires clean ==> Spotless(c.expr)
    ensures Loose(ConstraintBody(c), clean)
  {
    var s := StringDoc(Raws(c.expr));
    assert Loose(s, clean) by { RawIsLoose(c.expr, clean); }
    hide LooseMember, LooseMembers, Keyed, IsBlank, Raws, Loose, Spotless;
    WriterKeys();
    KeysAreSpotless();
    NothingIsLoose(clean);
    KeyedIsLoose("", "expr", s, clean);
    FirstIsLoose(Keyed("", "expr", s), [], clean);
    assert [Keyed("", "expr", s)] + [] == [Keyed("", "expr", s)];
    BodyIsLoose([Keyed("", "expr", s)], "", clean);
  }

  lemma {:induction false} ConstraintsAreLoose(cs: seq<Constraint>, clean: bool)
    requires clean ==> SpotlessConstraints(cs)
    ensures LooseMembers(ConstraintDocs(cs), clean)
  {
    if cs == [] {
    } else {
      hide LooseMember, LooseMembers, Keyed, ConstraintBody, IsBlank, Loose, Spotless;
      WriterKeys();
      ConstraintIsLoose(cs[0], clean);
      KeyedIsLoose("\n", cs[0].name, ConstraintBody(cs[0]), clean);
      ConstraintsAreLoose(cs[1..], clean);
      FirstIsLoose(Keyed("\n", cs[0].name, ConstraintBody(cs[0])), ConstraintDocs(cs[1..]), clean);
    }
  }

  lemma DomainIsLoose(d: Domain, clean: bool)
    requires clean ==> SpotlessParams(d.params) && SpotlessConstraints(d.constraints)
    ensures Loose(DomainBody(d), clean)
  {
    hide Loose, LooseMembers, LooseItems, Keyed, ParamDocs, ConstraintDocs, IsBlank, Spotless;
    hide SpotlessParams, SpotlessConstraints;
    WriterKeys();
    KeysAreSpotless();
    NothingIsLoose(clean);
    ParamsAreLoose(d.params, clean);
    BodyIsLoose(ParamDocs(d.params), if d.params == [] then "\n\n" else "\n", clean);
    ConstraintsAreLoose(d.constraints, clean);
    BodyIsLoose(ConstraintDocs(d.constraints), if d.constraints == [] then "\n" else "", clean);
    ItemsAreLoose([], "\n", clean);
    BodyOfThree("\n", "\n", "params", ParamsDoc(d.params), "constraints", ConstraintsDoc(d.constraints),
                "explorations", ArrayDoc([], false, "\n"), clean);
  }

  lemma SpotlessParts(ds: seq<Domain>)
    requires SpotlessRegistry(ds) && ds != []
    ensures Spotless(ds[0].name) && SpotlessParams(ds[0].params) && SpotlessConstraints(ds[0].constraints)
    ensures SpotlessRegistry(ds[1..])
  {
    hide Spotless, SpotlessParams, SpotlessConstraints;
    assert forall i :: 0 <= i < |ds[1..]| ==> ds[1..][i] == ds[i + 1];
  }

  lemma {:induction false} DomainsAreLoose(ds: seq<Domain>, clean: bool)
    requires clean ==> SpotlessRegistry(ds)
    ensures LooseMembers(DomainDocs(ds), clean)
  {
    if ds == [] {
    } else {
      hide LooseMember, LooseMembers, Keyed, DomainBody, IsBlank, Loose, Spotless, SpotlessParams, SpotlessConstraints;
      hide SpotlessRegistry;
      if clean { SpotlessParts(ds); }
      WriterKeys();
      DomainIsLoose(ds[0], clean);
      KeyedIsLoose("\n", ds[0].name, DomainBody(ds[0]), clean);
      DomainsAreLoose(ds[1..], clean);
      FirstIsLoose(Keyed("\n", ds[0].name, DomainBody(ds[0])), DomainDocs(ds[1..]), clean);
    }
  }

  lemma RegistryIsLoose(ds: seq<Domain>, clean: bool)
    requires clean ==> SpotlessRegistry(ds)
    ensures Loose(RegistryDoc(ds), clean)
  {
    WriterKeys();
    hide SpotlessRegistry;
    DomainsAreLoose(ds, clean);
    hide LooseMembers, DomainDocs, IsBlank;
  }

  // ---------------------------------------------------------------- writing and reading back

  predicate ReadsBack(ds: seq<Domain>) {
    ReadDocument(DescText(ds)).Ok? && ReadDocument(DescText(ds)).value == RegistryJson(ds)
  }

  lemma CleanIsRead(ds: seq<Domain>)
    requires CleanRegistry(ds)
    ensures ReadsBack(ds)
  {
    hide RegistryDoc, RegistryJson, CleanRegistry, ReadDocument, Show, Valid, Erase, IsBlank;
    WriterKeys();
    RegistryErased(ds);
    var s := Source("", RegistryDoc(ds), "\n", "");
    SourceAccepted(s);
    assert ShowSource(s) == DescText(ds);
  }

  lemma BraceFirst(inner: string)
    ensures var s := "{" + inner + "\n" + "}"; Has(s + "\n", 0, s) && (s + "\n")[0] == '{'
  {
  }

  lemma StartsWithBrace(ds: seq<Domain>)
    ensures var t := DescText(ds); Has(t, 0, Show(RegistryDoc(ds))) && SkipSpace(t, 0) == 0 && t != "" && t[0] == '{'
  {
    hide ShowMembers, DomainDocs, Has;
    BraceFirst(ShowMembers(DomainDocs(ds), false));
  }

  lemma ReadIsClean(ds: seq<Domain>)
    requires ReadsBack(ds)
    ensures CleanRegistry(ds)
  {
    StartsWithBrace(ds);
    hide RegistryDoc, RegistryJson, CleanRegistry, Show, Valid, Erase, Has, Loose, ReadValue, SkipSpace;
    RegistryErased(ds);
    RegistryIsLoose(ds, false);
    ValueForced(DescText(ds), 0, RegistryDoc(ds), false);
  }

  /** The description file of a registry reads back as that registry, exactly when no name or expression holds a
      quote, a backslash or a zero byte (and no list has more than 4294967287 entries): the writer escapes nothing. */
  lemma WriterReadBack(ds: seq<Domain>)
    ensures ReadsBack(ds) <==> CleanRegistry(ds)
  {
    hide ReadsBack, CleanRegistry;
    if CleanRegistry(ds) { CleanIsRead(ds); }
    if ReadsBack(ds) { ReadIsClean(ds); }
  }

  lemma {:induction false} CleanParamAt(ps: seq<Param>, j: nat)
    requires CleanParams(ps) && j < |ps|
    ensures CleanParam(ps[j])
  {
    hide CleanParam;
    if j == 0 {
    } else {
      CleanParamAt(ps[1..], j - 1);
    }
  }

  lemma {:induction false} CleanDomainAt(ds: seq<Domain>, i: nat)
    requires CleanDomains(ds) && i < |ds|
    ensures CleanDomain(ds[i])
  {
    hide CleanDomain;
    if i == 0 {
    } else {
      CleanDomainAt(ds[1..], i - 1);
    }
  }

  /** A registry in which some parameter's name holds such a byte is not read back. */
  lemma DirtyNameIsLost(ds: seq<Domain>, i: nat, j: nat, c: char)
    requires i < |ds| && j < |ds[i].params| && c in ds[i].params[j].name && !CleanChar(c)
    ensures !ReadsBack(ds)
  {
    hide ReadsBack, CleanDomains, CleanParams;
    WriterReadBack(ds);
    if CleanRegistry(ds) {
      CleanDomainAt(ds, i);
      CleanParamAt(ds[i].params, j);
    }
  }

  // ---------------------------------------------------------------- the registry comes back

  lemma {:induction false} CleanParamsAreCStrings(ps: seq<Param>, i: nat)
    requires CleanParams(ps) && i < |ps|
    ensures IsCString(ps[i].name)
  {
    if i > 0 {
      CleanParamsAreCStrings(ps[1..], i - 1);
    } else {
      CleanIsCString(ps[0].name);
    }
  }

  lemma CleanIsCString(s: string)
    requires Clean(s)
    ensures IsCString(s)
  {
    forall i | 0 <= i < |s| ensures s[i] != '\0' { assert CleanChar(s[i]); }
  }

  lemma {:induction false} CleanConstraintsAreCStrings(cs: seq<Constraint>, i: nat)
    requires CleanConstraints(cs) && i < |cs|
    ensures IsCString(cs[i].name) && IsCString(cs[i].expr)
  {
    if i > 0 {
      CleanConstraintsAreCStrings(cs[1..], i - 1);
    } else {
      CleanIsCString(cs[0].name);
      CleanIsCString(cs[0].expr);
    }
  }

  lemma {:induction false} CleanDomainsAreCStrings(ds: seq<Domain>, i: nat)
    requires CleanDomains(ds) && i < |ds|
    ensures CStrings(ds[i])
  {
    if i > 0 {
      CleanDomainsAreCStrings(ds[1..], i - 1);
    } else {
      var d := ds[0];
      CleanIsCString(d.name);
      forall j | 0 <= j < |d.params| ensures IsCString(d.params[j].name) { CleanParamsAreCStrings(d.params, j); }
      forall j | 0 <= j < |d.constraints| ensures IsCString(d.constraints[j].name) && IsCString(d.constraints[j].expr) {
        CleanConstraintsAreCStrings(d.constraints, j);
      }
      hide IsCString, CleanParams, CleanConstraints, Clean;
    }
  }

  lemma NoMark(ds: seq<Domain>)
    ensures JsonMachine.SkipMark(DescText(ds)) == DescText(ds) && DescText(ds) != ""
  {
    StartsWithBrace(ds);
    hide DescText;
    assert JsonMachine.BYTE_ORDER_MARK[0] != '{';
  }

  /** A well-formed clean registry whose parameters all have values comes back the same exactly when the loader's
      uninitialised record has nothing pending. */
  lemma CleanComesBack(ds: seq<Domain>, stale: Box)
    requires WellFormed(ds) && AllSet(ds) && CleanRegistry(ds)
    ensures var r := LoadFile(FreshRegistry(), FileText(DescText(ds)), stale);
            r.Some? && (r.value.Load? && r.value.ds == ds <==> NothingPending(stale))
  {
    hide Value, ReadDocument, DescText, RegistryJson, WellFormed, AllSet, JsonMachine.SkipMark, NothingPending;
    NoMark(ds);
    CleanIsRead(ds);
    forall i | 0 <= i < |ds| ensures CStrings(ds[i]) { CleanDomainsAreCStrings(ds, i); }
    FreshLoad(ds, stale);
  }

  // ---------------------------------------------------------------- nothing else does

  lemma FreshIn(strings: set<string>)
    requires DEFAULT_DOMAIN in strings
    ensures RegistryIn(FreshRegistry(), strings)
  {
  }

  /** The file starts with a brace, so whatever is read is an object, and all its strings are tokens of the file. */
  lemma FileIsObject(ds: seq<Domain>, strings: set<string>)
    requires ReadDocument(DescText(ds)).Ok? && Tokens(DescText(ds)) <= strings
    ensures var v := ReadDocument(DescText(ds)).value; v.JObject? && MembersIn(v.members, strings)
  {
    StartsWithBrace(ds);
    hide DescText, ReadMembers, Tokens, MembersIn, Has, RegistryDoc, Show;
    ReadValueIn(DescText(ds), 0, strings);
  }

  /** If the registry comes back, its strings are tokens of its own file. */
  lemma ComesFromTokens(ds: seq<Domain>, stale: Box, strings: set<string>)
    requires NothingPending(stale) && Tokens(DescText(ds)) <= strings && DEFAULT_DOMAIN in strings
    requires var r := LoadFile(FreshRegistry(), FileText(DescText(ds)), stale);
             r.Some? && r.value.Load? && r.value.ds == ds
    ensures RegistryIn(ds, strings)
  {
    hide Value, ReadDocument, DescText, JsonMachine.SkipMark, NothingPending, RegistryIn, Tokens, MembersIn;
    NoMark(ds);
    FileIsObject(ds, strings);
    FreshIn(strings);
    LoadedFrom(Load(FreshRegistry(), stale), ReadDocument(DescText(ds)).value.members, strings);
  }

  /** Every dirty token of the file needs a worse string in the registry, so if these are tokens of the file
      themselves, all are clean. */
  lemma TokensAreClean(ds: seq<Domain>, strings: set<string>)
    requires RegistryIn(ds, strings) && strings == Tokens(DescText(ds)) + {DEFAULT_DOMAIN}
    ensures forall s :: s in strings ==> Dirt(s) == 0
  {
    NoDirt(DEFAULT_DOMAIN);
    FileIn(ds, strings);
    hide Dirt, Slotted, RegistryIn, DescText, Below;
    forall s | s in strings && Dirt(s) > 0 ensures exists r :: r in strings && Below(s, r) {
      var q :| 0 <= q < |DescText(ds)| && IsToken(DescText(ds), q) && TokenString(DescText(ds), q) == s;
      var r := WorseString(DescText(ds), q, strings);
    }
    AllClean(strings);
  }

  lemma StringsAreSpotless(ds: seq<Domain>, strings: set<string>)
    requires RegistryIn(ds, strings) && forall s :: s in strings ==> Dirt(s) == 0
    ensures SpotlessRegistry(ds)
  {
    forall s | s in strings ensures Spotless(s) { NoDirt(s); }
    hide Dirt, Spotless;
    forall i | 0 <= i < |ds|
      ensures Spotless(ds[i].name) && SpotlessParams(ds[i].params) && SpotlessConstraints(ds[i].constraints)
    {
      assert DomainIn(ds[i], strings);
    }
  }

  /** With clean strings only sizes can stand in the way, and then the file is not read at all. */
  lemma SpotlessIsClean(ds: seq<Domain>)
    requires SpotlessRegistry(ds) && ReadDocument(DescText(ds)).Ok?
    ensures CleanRegistry(ds)
  {
    StartsWithBrace(ds);
    hide RegistryDoc, CleanRegistry, Show, Valid, Erase, Has, Loose, ReadValue, SkipSpace, SpotlessRegistry;
    RegistryErased(ds);
    RegistryIsLoose(ds, true);
    ValueForced(DescText(ds), 0, RegistryDoc(ds), true);
  }

  lemma WhatComesBackIsClean(ds: seq<Domain>, stale: Box)
    requires NothingPending(stale)
    requires var r := LoadFile(FreshRegistry(), FileText(DescText(ds)), stale);
             r.Some? && r.value.Load? && r.value.ds == ds
    ensures CleanRegistry(ds)
  {
    hide Value, ReadDocument, DescText, JsonMachine.SkipMark, NothingPending, RegistryIn, Tokens, CleanRegistry;
    hide SpotlessRegistry;
    var strings := Tokens(DescText(ds)) + {DEFAULT_DOMAIN};
    ComesFromTokens(ds, stale, strings);
    TokensAreClean(ds, strings);
    StringsAreSpotless(ds, strings);
    NoMark(ds);
    SpotlessIsClean(ds);
  }

  /** A well-formed registry whose parameters all have values comes back the same -- the same domains in order, with
      the same parameters, types, defaults, value lists and constraints -- when the file written for it is loaded into
      a fresh registry, exactly when no name or expression holds a quote, a backslash or a zero byte (and no list or
      string is too long to be counted).  Otherwise the file is refused or something else is loaded. */
  lemma RegistryComesBack(ds: seq<Domain>, stale: Box)
    requires WellFormed(ds) && AllSet(ds) && NothingPending(stale)
    ensures var r := LoadFile(FreshRegistry(), FileText(DescText(ds)), stale);
            r.Some? && r.value.Load? && r.value.ds == ds <==> CleanRegistry(ds)
  {
    hide LoadFile, DescText, CleanRegistry, WellFormed, AllSet, NothingPending, FreshRegistry;
    if CleanRegistry(ds) {
      CleanComesBack(ds, stale);
    } else {
      var r := LoadFile(FreshRegistry(), FileText(DescText(ds)), stale);
      if r.Some? && r.value.Load? && r.value.ds == ds { WhatComesBackIsClean(ds, stale); }
    }
  }

  /** A registry of one parameter. */
  function OneParam(name: string): seq<Domain> {
    [Domain(DEFAULT_DOMAIN, [Param(name, TYPE_ENUM, 0, Some([1]))], [])]
  }

  lemma OneParamIsFine(name: string)
    ensures WellFormed(OneParam(name)) && AllSet(OneParam(name))
  {
    var ds := OneParam(name);
    assert ConstraintNames(ds[0].constraints) == [];
    assert DomainNames(ds) == [DEFAULT_DOMAIN];
  }

  /** For example, with a quote in the name of the only parameter the file is not read as the tree of the registry, and
      what is loaded from it is not the registry. */
  lemma QuotedNameIsLost(stale: Box)
    requires NothingPending(stale)
    ensures var ds := OneParam("a\"b"); var r := LoadFile(FreshRegistry(), FileText(DescText(ds)), stale);
            !ReadsBack(ds) && !(r.Some? && r.value.Load? && r.value.ds == ds)
  {
    var ds := OneParam("a\"b");
    assert ds[0].params[0].name == "a\"b" && "a\"b"[1] == '"' && !CleanChar('"');
    hide ReadsBack, OneParam, LoadFile, DescText, FreshRegistry, WellFormed, AllSet, NothingPending, CleanRegistry;
    DirtyNameIsLost(ds, 0, 0, '"');
    WriterReadBack(ds);
    OneParamIsFine("a\"b");
    RegistryComesBack(ds, stale);
  }

  // ---------------------------------------------------------------- collecting, then applying

  lemma SetIsValued(ds: seq<Domain>)
    ensures AllSet(ds) <==> AllValued(ds)
  {
    if AllValued(ds) {
      forall i, j | 0 <= i < |ds| && 0 <= j < |ds[i].params| ensures ds[i].params[j].values.Some? {
        assert Valued(ds[i].params);
      }
    }
    if AllSet(ds) {
      forall i | 0 <= i < |ds| ensures Valued(ds[i].params) {}
    }
  }

  /** The first call outside DTA mode is a load into a fresh registry. */
  lemma FirstCall(c: Call, w: World)
    requires c != EndCollection && !w.dta
    ensures var f := LoadFile(FreshRegistry(), w.file, w.stale); var r := Apply(START, c, w);
            && (r.Lib? && r.loaded <==> f.Some? && f.value.Load?)
            && (r.Lib? && r.loaded ==> r.ds == f.value.ds && r.collection == 0)
  {
    assert Init(START).ds == FreshRegistry() by { FreshIsWellFormed(); }
    hide LoadFile, FreshRegistry, AddDomain;
  }

  /** One process makes any sequence of calls in DTA mode and ends its collection having won the lock; another one,
      outside DTA mode, finds the file.  Its first call, whichever it is, gives it the same registry, exactly when
      all names and expressions are clean. */
  lemma CollectedIsApplied(calls: seq<(Call, World)>, c: Call, w: World)
    requires AllDta(calls) && c != EndCollection && !w.dta && NothingPending(w.stale)
    requires var l := Run(START, calls);
             && l.Lib? && l.initialized && l.collection == 0 && AllSet(l.ds) && w.file == FileText(DescText(l.ds))
    ensures var l := Run(START, calls); var r := Apply(START, c, w);
            r.Lib? && r.loaded && r.ds == l.ds && r.collection == 0 <==> CleanRegistry(l.ds)
  {
    hide Run, WriterOps, DescText, CleanRegistry, LoadFile, AllSet, NothingPending, Apply, WellFormed, FreshRegistry;
    var l := Run(START, calls);
    RegistryInvariant(START, calls);
    RegistryComesBack(l.ds, w.stale);
    FirstCall(c, w);
  }

  /** The call at `k` found the collection active, and the files have been touched as what it found says: the lock was
      removed at the start; then it was refused if the lock file was there, and otherwise created, and the text of the
      registry was written if the file could be opened. */
  predicate WrittenAt(calls: seq<(Call, World)>, k: nat, ops: seq<FileOp>, text: string) {
    && k < |calls| && Active(Run(START, calls[..k]))
    && var w := calls[k].1;
       ops == if w.locked then [RemoveLock, LockRefused]
              else if !w.writable then [RemoveLock, LockCreated]
              else [RemoveLock, LockCreated, Write(Some(text))]
  }

  /** What such a process has done to files is what the call that ended its collection found. */
  lemma CollectedIsWritten(calls: seq<(Call, World)>)
    requires AllDta(calls)
    requires var l := Run(START, calls); l.Lib? && l.collection == 0 && l.initialized && AllSet(l.ds)
    ensures var l := Run(START, calls); exists k :: WrittenAt(calls, k, l.ops, DescText(l.ds))
  {
    assert Collecting(START) && Accounted(START, Unopened);
    hide Run, DescText, AllSet, Collecting, TextOf;
    var k := EndedByOne(START, Unopened, calls);
    var before, l := Run(START, calls[..k]), Run(START, calls);
    AllSetHasText(l.ds);
    RegistryInvariant(START, calls[..k]);
    CollectingOps(before);
    hide AllDta, Active, Filed;
    FiledFromStart(l.ops, Some(DescText(l.ds)), calls[k].1);
    assert WrittenAt(calls, k, l.ops, DescText(l.ds));
  }

  lemma FiledFromStart(ops: seq<FileOp>, text: Option<string>, w: World)
    requires Filed([RemoveLock], ops, text, w)
    ensures ops == if w.locked then [RemoveLock, LockRefused]
                   else if !w.writable then [RemoveLock, LockCreated]
                   else [RemoveLock, LockCreated, Write(text)]
  {
  }

  lemma AllSetHasText(ds: seq<Domain>)
    requires AllSet(ds)
    ensures TextOf(ds) == Some(DescText(ds))
  {
    hide DescText;
  }

  lemma CollectingOps(l: Lib)
    requires Collecting(l) && Active(l)
    ensures l.ops == [RemoveLock]
  {
  }
}
