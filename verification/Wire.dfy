/** The array of parameter details that the server sends: packed by `ATP_get_total_parameter_details`
    (src/common/atpcommon.c), unpacked by the walk in `ATPS_send_atp_specs` (src/atpserver/atpserver.c). */
module Wire {
  import opened Options
  import opened RegistryModel
  import opened AtpCommon

  // ---------------------------------------------------------------- what is packed

  /** The division of C, which truncates towards zero. */
  function TruncDiv(a: int, b: int): int
    requires b != 0
  {
    var q := (if a < 0 then -a else a) / (if b < 0 then -b else b);
    if (a < 0) == (b < 0) then q else -q
  }

  predicate IsInt32(n: int) {
    -0x8000_0000 <= n <= 0x7FFF_FFFF
  }

  /** What the C code needs: values, and for everything but an enumeration at least three of them, a step that is
      not zero, and no overflow. */
  predicate Packable(p: Param) {
    p.values.Some? &&
    var vs := p.values.value;
    (p.ptype != TYPE_ENUM ==>
       && |vs| >= 3 && vs[2] != 0 && IsInt32(vs[1] as int - vs[0] as int)
       && IsInt32(TruncDiv(vs[1] as int - vs[0] as int, vs[2])))
  }

  /** The third entry: the number of values of an enumeration, or the number of steps of a range. */
  function Third(p: Param): int
    requires Packable(p)
  {
    var vs := p.values.value;
    if p.ptype == TYPE_ENUM then |vs| else TruncDiv(vs[1] as int - vs[0] as int, vs[2])
  }

  function Entry(p: Param): (r: seq<int>)
    requires Packable(p)
    ensures |r| == 3 + |p.values.value|
  {
    [p.ptype as int, p.deflt as int, Third(p)] + Ints(p.values.value)
  }

  function Ints(vs: seq<Int32>): (r: seq<int>)
    ensures |r| == |vs| && forall i :: 0 <= i < |vs| ==> r[i] == vs[i]
  {
    seq(|vs|, i requires 0 <= i < |vs| => vs[i])
  }

  predicate AllPackable(ps: seq<Param>) {
    forall i :: 0 <= i < |ps| ==> Packable(ps[i])
  }

  /** The entries of all parameters, one after the other. */
  function Packed(ps: seq<Param>): seq<int>
    requires AllPackable(ps)
  {
    if ps == [] then [] else Entry(ps[0]) + Packed(ps[1..])
  }

  /** The parameters of all domains, in order. */
  function AllParams(ds: seq<Domain>): seq<Param> {
    if ds == [] then [] else AllParams(ds[..|ds| - 1]) + ds[|ds| - 1].params
  }

  function ParamCount(ds: seq<Domain>): nat {
    if ds == [] then 0 else |ds[0].params| + ParamCount(ds[1..])
  }

  /** Domain by domain: the parameters of a domain come after all those of the domains before it. */
  lemma {:induction false} AllParamsAt(ds: seq<Domain>, i: nat, j: nat)
    requires i < |ds| && j < |ds[i].params|
    ensures |AllParams(ds)| == ParamCount(ds)
    ensures ParamCount(ds[..i]) + j < |AllParams(ds)| && AllParams(ds)[ParamCount(ds[..i]) + j] == ds[i].params[j]
    decreases |ds|
  {
    var last := |ds| - 1;
    CountsParams(ds);
    CountsParams(ds[..last]);
    assert ds[..last][..i] == ds[..i];
    if i < last {
      AllParamsAt(ds[..last], i, j);
    }
  }

  lemma {:induction false} CountsParams(ds: seq<Domain>)
    ensures |AllParams(ds)| == ParamCount(ds)
    decreases |ds|
  {
    if ds == [] {
    } else {
      CountsParams(ds[..|ds| - 1]);
      CountsLast(ds);
    }
  }

  lemma {:induction false} CountsLast(ds: seq<Domain>)
    requires ds != []
    ensures ParamCount(ds) == ParamCount(ds[..|ds| - 1]) + |ds[|ds| - 1].params|
    decreases |ds|
  {
    if |ds| == 1 {
      assert ds[1..] == [] && ds[..0] == [];
    } else {
      CountsLast(ds[1..]);
      assert ds[1..][..|ds| - 2] == ds[..|ds| - 1][1..] && ds[..|ds| - 1][0] == ds[0];
    }
  }

  /** All values have been set: the number of values that C reads is undefined before that. */
  predicate HasValues(ps: seq<Param>) {
    forall i :: 0 <= i < |ps| ==> ps[i].values.Some?
  }

  function TotalValues(ps: seq<Param>): nat
    requires HasValues(ps)
  {
    if ps == [] then 0 else |ps[0].values.value| + TotalValues(ps[1..])
  }

  /** The packed array has three entries per parameter and one per value. */
  lemma {:induction false} PackedLength(ps: seq<Param>)
    requires AllPackable(ps)
    ensures HasValues(ps) && |Packed(ps)| == 3 * |ps| + TotalValues(ps)
  {
    if ps == [] {
    } else {
      NeedsValues(ps[0]);
      hide Packable, Entry;
      PackedLength(ps[1..]);
    }
  }

  lemma {:induction false} PackedJoined(ps: seq<Param>, qs: seq<Param>)
    requires AllPackable(ps) && AllPackable(qs)
    ensures AllPackable(ps + qs) && Packed(ps + qs) == Packed(ps) + Packed(qs)
  {
    hide Packable, Entry;
    if ps == [] {
      assert ps + qs == qs;
    } else {
      PackedJoined(ps[1..], qs);
      assert (ps + qs)[1..] == ps[1..] + qs && (ps + qs)[0] == ps[0];
      assert Entry(ps[0]) + (Packed(ps[1..]) + Packed(qs)) == Entry(ps[0]) + Packed(ps[1..]) + Packed(qs);
    }
  }

  lemma PackedOne(p: Param)
    requires Packable(p)
    ensures AllPackable([p]) && Packed([p]) == Entry(p)
  {
    hide Entry, Packable;
    assert [p][1..] == [] && Packed([]) == [];
    assert Entry(p) + [] == Entry(p);
  }

  lemma {:induction false} TotalJoined(ps: seq<Param>, qs: seq<Param>)
    requires HasValues(ps) && HasValues(qs)
    ensures TotalValues(ps + qs) == TotalValues(ps) + TotalValues(qs)
  {
    if ps == [] {
      assert ps + qs == qs;
    } else {
      TotalJoined(ps[1..], qs);
      assert (ps + qs)[1..] == ps[1..] + qs;
    }
  }

  /** `q` is `a / b`, cut off towards zero: what is left has the sign of `a` and is smaller than `b`. */
  predicate CutOff(a: int, b: int, q: int) {
    var r := a - q * b;
    && (if b < 0 then b < r < 0 - b else 0 - b < r < b)
    && (a >= 0 ==> r >= 0) && (a <= 0 ==> r <= 0)
  }

  lemma Quotient(a: int, b: int)
    requires b != 0
    ensures CutOff(a, b, TruncDiv(a, b))
  {
    var x, y := if a < 0 then -a else a, if b < 0 then -b else b;
    Left(x, y, x / y, x % y, a, b);
  }

  /** Whatever the signs, what is left is the remainder of the absolute values with the sign of `a`. */
  lemma Left(x: int, y: int, q: int, m: int, a: int, b: int)
    requires x == q * y + m && 0 <= m < y
    requires x == (if a < 0 then -a else a) && y == if b < 0 then -b else b
    ensures CutOff(a, b, if (a < 0) == (b < 0) then q else -q)
  {
    var t := if (a < 0) == (b < 0) then q else -q;
    SignedProduct(q, y, b, t);
    Remains(a, b, t, t * b, m);
  }

  lemma SignedProduct(q: int, y: int, b: int, t: int)
    requires (b == y || b == -y) && (t == q || t == -q)
    ensures t * b == if (t == q) == (b == y) then q * y else -(q * y)
  {
    if b == -y { assert q * (-y) == -(q * y) && (-q) * (-y) == q * y; }
    assert (-q) * y == -(q * y);
  }

  lemma Remains(a: int, b: int, q: int, product: int, m: int)
    requires product == q * b && 0 <= m < (if b < 0 then -b else b)
    requires a - product == if a < 0 then -m else m
    ensures CutOff(a, b, q)
  {
  }

  /** The entry of parameter `i` is where the entries before it end: type, default and a third number, then the values.
      The third number is that of the values for an enumeration, whose type is 2; otherwise it is the whole number of
      steps from the first value to the second, cut off towards zero. */
  lemma {:induction false} PackedAt(ps: seq<Param>, i: nat)
    requires AllPackable(ps) && i < |ps|
    ensures AllPackable(ps[..i]) && ps[i].values.Some?
    ensures var a, o, p := Packed(ps), |Packed(ps[..i])|, ps[i]; var vs := p.values.value;
            && o + 3 + |vs| <= |a| && a[o] == p.ptype && a[o + 1] == p.deflt
            && (forall k :: 0 <= k < |vs| ==> a[o + 3 + k] == vs[k])
            && if p.ptype == 2 then a[o + 2] == |vs|
               else |vs| >= 3 && CutOff(vs[1] as int - vs[0] as int, vs[2], a[o + 2])
    decreases i
  {
    if i == 0 {
      FirstEntry(ps);
    } else {
      PackedAt(ps[1..], i - 1);
      assert ps[1..][..i - 1] == ps[..i][1..] && ps[..i][0] == ps[0];
      hide Packable, Third;
      assert AllPackable(ps[..i]);
      assert Packed(ps[..i]) == Entry(ps[0]) + Packed(ps[..i][1..]);
    }
  }

  lemma FirstEntry(ps: seq<Param>)
    requires AllPackable(ps) && ps != []
    ensures AllPackable(ps[..0]) && Packed(ps[..0]) == []
    ensures var a, p := Packed(ps), ps[0]; var vs := p.values.value;
            && 3 + |vs| <= |a| && a[0] == p.ptype && a[1] == p.deflt && a[2] == Third(p)
            && (forall k :: 0 <= k < |vs| ==> a[3 + k] == vs[k])
            && if p.ptype == 2 then a[2] == |vs|
               else |vs| >= 3 && CutOff(vs[1] as int - vs[0] as int, vs[2], a[2])
  {
    var p := ps[0];
    var vs := p.values.value;
    assert Packed(ps) == [p.ptype as int, p.deflt as int, Third(p)] + (Ints(vs) + Packed(ps[1..]));
    if p.ptype != 2 { Quotient(vs[1] as int - vs[0] as int, vs[2]); }
    hide TruncDiv, Ints;
  }

  // ---------------------------------------------------------------- the walk

  /** What the walk finds for one parameter. */
  datatype Details = Details(ptype: int, deflt: int, third: int, values: seq<int>)

  /** How many values the walk takes. */
  function Count(ptype: int, third: int): int {
    if ptype == TYPE_RANGE then 3 else third
  }

  /** The walk over `n` parameters from `index` on; nothing if it leaves the array. */
  function Walk(a: seq<int>, index: int, n: nat): Option<seq<Details>>
    decreases n
  {
    if n == 0 then Some([])
    else if index < 0 || index + 3 > |a| then None
    else
      var count := Count(a[index], a[index + 2]);
      if index + 3 + count > |a| then None
      else
        var values := if count > 0 then a[index + 3..index + 3 + count] else [];
        match Walk(a, index + 3 + count, n - 1)
        case None => None
        case Some(rest) => Some([Details(a[index], a[index + 1], a[index + 2], values)] + rest)
  }

  function DetailsOf(p: Param): Details
    requires Packable(p)
  {
    Details(p.ptype, p.deflt, Third(p), Ints(p.values.value))
  }

  function AllDetails(ps: seq<Param>): (r: seq<Details>)
    requires AllPackable(ps)
    ensures |r| == |ps|
  {
    if ps == [] then [] else [DetailsOf(ps[0])] + AllDetails(ps[1..])
  }

  /** The walk takes as many values as were packed. */
  predicate StrideFits(p: Param)
    requires Packable(p)
  {
    Count(p.ptype, Third(p)) == |p.values.value|
  }

  predicate AllStridesFit(ps: seq<Param>)
    requires AllPackable(ps)
  {
    forall i :: 0 <= i < |ps| ==> StrideFits(ps[i])
  }

  /** The stride fits every enumeration, whose type is 2, a range, whose type is 1, with three values, and another type
      only if it happens to have as many values as steps. */
  lemma StrideMeaning(p: Param)
    requires Packable(p)
    ensures p.ptype == 2 ==> StrideFits(p)
    ensures p.ptype == 1 ==> (StrideFits(p) <==> |p.values.value| == 3)
    ensures p.ptype != 1 && p.ptype != 2 ==> (StrideFits(p) <==> |p.values.value| == Third(p))
  {
  }

  /** At the entry of a parameter the walk reads its three numbers. */
  lemma EntryRead(a: seq<int>, index: nat, p: Param, rest: seq<int>)
    requires Packable(p) && index <= |a| && a[index..] == Entry(p) + rest
    ensures index + 3 + |p.values.value| <= |a|
    ensures a[index] == p.ptype && a[index + 1] == p.deflt && a[index + 2] == Third(p)
    ensures a[index + 3..index + 3 + |p.values.value|] == Ints(p.values.value)
    ensures a[index + 3 + |p.values.value|..] == rest
  {
    var e, vs := Entry(p) + rest, Ints(p.values.value);
    assert e[0] == a[index] && e[1] == a[index + 1] && e[2] == a[index + 2];
    assert e == [p.ptype as int, p.deflt as int, Third(p)] + (vs + rest);
    hide Third, Ints, Entry;
    SliceAfter(a, index, e, 3, 3 + |vs|);
    assert e[3..] == vs + rest;
    assert e[3..3 + |vs|] == vs && e[3 + |vs|..] == rest;
  }

  lemma SliceAfter(a: seq<int>, index: nat, e: seq<int>, i: nat, j: nat)
    requires index <= |a| && a[index..] == e && i <= j <= |e|
    ensures index + j <= |a| && a[index + i..index + j] == e[i..j] && a[index + j..] == e[j..]
  {
    assert forall k :: 0 <= k < |e| ==> e[k] == a[index + k];
  }

  lemma ConsIsCons<T>(x: T, xs: seq<T>, y: T, ys: seq<T>)
    ensures [x] + xs == [y] + ys <==> x == y && xs == ys
  {
    if [x] + xs == [y] + ys {
      assert ([x] + xs)[0] == ([y] + ys)[0] && ([x] + xs)[1..] == ([y] + ys)[1..];
    }
  }

  /** The walk recovers every parameter's type, default and values, in order, exactly when every stride fits. */
  lemma {:induction false} WalkRecovers(a: seq<int>, index: nat, ps: seq<Param>)
    requires AllPackable(ps) && index <= |a| && a[index..] == Packed(ps)
    ensures Walk(a, index, |ps|) == Some(AllDetails(ps)) <==> AllStridesFit(ps)
    decreases |ps|
  {
    hide Packable, Third, Ints, Entry, StrideFits, AllStridesFit;
    if ps == [] {
      NothingLeft(ps);
    } else {
      var p, rest := ps[0], ps[1..];
      NeedsValues(p);
      assert Packed(ps) == Entry(p) + Packed(rest) && AllDetails(ps) == [DetailsOf(p)] + AllDetails(rest);
      hide Packed, Walk, AllDetails, DetailsOf;
      EntryRead(a, index, p, Packed(rest));
      WalkRecovers(a, index + 3 + |p.values.value|, rest);
      FirstStride(ps);
      WalkStep(a, index, p, |rest|, AllDetails(rest));
    }
  }

  lemma NothingLeft(ps: seq<Param>)
    requires ps == []
    ensures AllPackable(ps) && AllStridesFit(ps)
  {
  }

  lemma FirstStride(ps: seq<Param>)
    requires AllPackable(ps) && ps != []
    ensures AllStridesFit(ps) <==> StrideFits(ps[0]) && AllStridesFit(ps[1..])
  {
    hide StrideFits, Packable;
    if StrideFits(ps[0]) && AllStridesFit(ps[1..]) {
      forall i | 0 <= i < |ps| ensures StrideFits(ps[i]) {
        if i > 0 { assert ps[i] == ps[1..][i - 1]; }
      }
    }
    if AllStridesFit(ps) {
      forall i | 0 <= i < |ps[1..]| ensures StrideFits(ps[1..][i]) { assert ps[1..][i] == ps[i + 1]; }
    }
  }

  lemma CountOrThree(p: Param)
    requires Packable(p)
    ensures Count(p.ptype, Third(p)) == |p.values.value| || |p.values.value| >= 3
  {
  }

  lemma WalkStep(a: seq<int>, index: nat, p: Param, n: nat, later: seq<Details>)
    requires Packable(p) && index + 3 + |p.values.value| <= |a|
    requires a[index] == p.ptype && a[index + 1] == p.deflt && a[index + 2] == Third(p)
    requires a[index + 3..index + 3 + |p.values.value|] == Ints(p.values.value)
    ensures Walk(a, index, n + 1) == Some([DetailsOf(p)] + later)
       <==> StrideFits(p) && Walk(a, index + 3 + |p.values.value|, n) == Some(later)
  {
    CountOrThree(p);
    hide Packable, Third, Ints;
    var count := Count(p.ptype, Third(p));
    if index + 3 + count <= |a| {
      var rest := Walk(a, index + 3 + count, n);
      if rest.Some? {
        var values := if count > 0 then a[index + 3..index + 3 + count] else [];
        ConsIsCons(Details(p.ptype, p.deflt, Third(p), values), rest.value, DetailsOf(p), later);
      }
    }
  }

  /** A registry that the API has built is always recovered, if its types are the two that are defined: a range then
      has exactly three values, and an enumeration sends their number. */
  lemma RegistryRecovered(ds: seq<Domain>)
    requires AllValuesFit(ds) && AllPackable(AllParams(ds))
    requires forall i :: 0 <= i < |AllParams(ds)| ==>
                           AllParams(ds)[i].ptype == TYPE_RANGE || AllParams(ds)[i].ptype == TYPE_ENUM
    ensures Walk(Packed(AllParams(ds)), 0, |AllParams(ds)|) == Some(AllDetails(AllParams(ds)))
  {
    var ps := AllParams(ds);
    forall i | 0 <= i < |ps| ensures StrideFits(ps[i]) { ParamFits(ds, i); }
    hide AllParams, Packable, StrideFits, Packed;
    assert Packed(ps)[0..] == Packed(ps);
    WalkRecovers(Packed(ps), 0, ps);
  }

  lemma {:induction false} ParamFits(ds: seq<Domain>, i: nat)
    requires AllValuesFit(ds) && i < |AllParams(ds)|
    ensures ValuesFit(AllParams(ds)[i])
    decreases |ds|
  {
    hide ValuesFit;
    var last := |ds| - 1;
    if i < |AllParams(ds[..last])| {
      ParamFits(ds[..last], i);
    } else {
      assert AllParams(ds)[i] == ds[last].params[i - |AllParams(ds[..last])|];
    }
  }

  /** The declaration API only warns about other types.  A parameter of type 3 with four values and two steps: the
      walk takes two of its values and goes on in the middle of its entry. */
  lemma OtherTypeIsLost()
    ensures var p := Param("p", 3, 0, Some([0, 2, 1, 5]));
            Packable(p) && AllPackable([p]) && Walk(Packed([p]), 0, 1) != Some(AllDetails([p]))
  {
    var p := Param("p", 3, 0, Some([0, 2, 1, 5]));
    assert Packable(p) && !StrideFits(p) && [p][0] == p;
    hide Packable, StrideFits, Walk, Packed;
    PackedOne(p);
    assert Packed([p])[0..] == Packed([p]);
    WalkRecovers(Packed([p]), 0, [p]);
  }

  // ---------------------------------------------------------------- the arrays

  /** `ATP_get_total_parameter_number` and `ATP_get_total_parameter_values_number` */
  method Totals(reg: Registry) returns (params: nat, values: nat)
    requires reg.Valid() && HasValues(AllParams(reg.Contents()))
    ensures params == |AllParams(reg.Contents())| && values == TotalValues(AllParams(reg.Contents()))
  {
    hide View, AllParams, TotalValues, HasValues;
    NoParams();
    params, values := 0, 0;
    ghost var ds := reg.Contents();
    for i := 0 to reg.numDomains
      invariant HasValues(AllParams(ds[..i]))
      invariant params == |AllParams(ds[..i])| && values == TotalValues(AllParams(ds[..i]))
    {
      NextParams(ds, i);
      NextHasValues(ds, i);
      var d := View(reg.domains[i]);
      params := params + |d.params|;
      var v := CountValues(d.params);
      values := values + v;
      TotalJoined(AllParams(ds[..i]), d.params);
    }
    assert ds[..reg.numDomains] == ds;
  }

  method CountValues(ps: seq<Param>) returns (values: nat)
    requires HasValues(ps)
    ensures values == TotalValues(ps)
  {
    values := 0;
    for j := 0 to |ps|
      invariant values == TotalValues(ps[..j])
    {
      assert ps[..j + 1] == ps[..j] + [ps[j]];
      TotalJoined(ps[..j], [ps[j]]);
      values := values + |ps[j].values.value|;
    }
    assert ps[..|ps|] == ps;
  }

  lemma NeedsValues(p: Param)
    requires Packable(p)
    ensures p.values.Some?
  {
  }

  lemma NoParams()
    ensures AllParams([]) == [] && AllPackable([]) && TotalValues([]) == 0 && HasValues([])
  {
  }

  lemma PartsPackable(ps: seq<Param>, a: seq<Param>, b: seq<Param>)
    requires AllPackable(ps) && a + b <= ps
    ensures AllPackable(a) && AllPackable(b) && AllPackable(a + b)
  {
    hide Packable;
    forall j | 0 <= j < |a| ensures Packable(a[j]) { assert a[j] == (a + b)[j] == ps[j]; }
    forall j | 0 <= j < |b| ensures Packable(b[j]) { assert b[j] == (a + b)[|a| + j] == ps[|a| + j]; }
  }

  lemma NextParams(ds: seq<Domain>, i: nat)
    requires i < |ds|
    ensures AllParams(ds[..i + 1]) == AllParams(ds[..i]) + ds[i].params
    ensures AllParams(ds[..i + 1]) <= AllParams(ds)
  {
    assert ds[..i + 1][..i] == ds[..i] && ds[..i + 1][i] == ds[i];
    assert AllParams(ds[..i + 1]) == AllParams(ds[..i]) + ds[i].params;
    hide AllParams;
    PrefixParams(ds, i + 1);
  }

  lemma NextPackable(ds: seq<Domain>, i: nat)
    requires i < |ds| && AllPackable(AllParams(ds))
    ensures AllPackable(AllParams(ds[..i])) && AllPackable(ds[i].params) && AllPackable(AllParams(ds[..i + 1]))
  {
    hide Packable, AllPackable, AllParams;
    NextParams(ds, i);
    PartsPackable(AllParams(ds), AllParams(ds[..i]), ds[i].params);
  }

  lemma PartsHaveValues(ps: seq<Param>, a: seq<Param>, b: seq<Param>)
    requires HasValues(ps) && a + b <= ps
    ensures HasValues(b) && HasValues(a + b)
  {
    forall j | 0 <= j < |b| ensures b[j].values.Some? { assert b[j] == (a + b)[|a| + j] == ps[|a| + j]; }
    forall j | 0 <= j < |a + b| ensures (a + b)[j].values.Some? { assert (a + b)[j] == ps[j]; }
  }

  lemma NextHasValues(ds: seq<Domain>, i: nat)
    requires i < |ds| && HasValues(AllParams(ds))
    ensures HasValues(ds[i].params) && HasValues(AllParams(ds[..i + 1]))
  {
    hide AllParams, HasValues;
    NextParams(ds, i);
    PartsHaveValues(AllParams(ds), AllParams(ds[..i]), ds[i].params);
  }

  lemma {:induction false} PrefixParams(ds: seq<Domain>, i: nat)
    requires i <= |ds|
    ensures AllParams(ds[..i]) <= AllParams(ds)
    decreases |ds|
  {
    if i == |ds| {
      assert ds[..i] == ds;
    } else {
      PrefixParams(ds[..|ds| - 1], i);
      assert ds[..|ds| - 1][..i] == ds[..i];
    }
  }

  /** The entry of one parameter, at `index`. */
  method PackParam(a: array<int>, index: nat, p: Param)
    requires Packable(p) && index + 3 + |p.values.value| <= a.Length
    modifies a
    ensures a[..index] == old(a[..index]) && a[index..index + 3 + |p.values.value|] == Entry(p)
  {
    var vs := p.values.value;
    a[index] := p.ptype;
    a[index + 1] := p.deflt;
    if p.ptype == TYPE_ENUM {
      a[index + 2] := |vs|;
    } else {
      a[index + 2] := TruncDiv(vs[1] as int - vs[0] as int, vs[2]);
    }
    CopyValues(a, index + 3, vs);
    assert a[index..index + 3 + |vs|] == a[index..index + 3] + a[index + 3..index + 3 + |vs|];
  }

  method CopyValues(a: array<int>, index: nat, vs: seq<Int32>)
    requires index + |vs| <= a.Length
    modifies a
    ensures a[..index] == old(a[..index]) && a[index..index + |vs|] == Ints(vs)
  {
    for k := 0 to |vs|
      invariant a[..index] == old(a[..index])
      invariant forall i :: 0 <= i < k ==> a[index + i] == vs[i]
    {
      a[index + k] := vs[k];
    }
  }

  lemma {:induction false} PrefixFits(all: seq<Param>, ps: seq<Param>)
    requires ps <= all && AllPackable(all)
    ensures AllPackable(ps) && |Packed(ps)| <= |Packed(all)|
  {
    hide Packable;
    var rest := all[|ps|..];
    assert all == ps + rest;
    PackedJoined(ps, rest) by { PartsPackable(all, ps, rest); }
    PartsPackable(all, ps, rest);
  }

  /** The parameters of one domain, after those that are `done`. */
  method PackParams(a: array<int>, index: nat, ps: seq<Param>, ghost done: seq<Param>, ghost all: seq<Param>)
    returns (next: nat)
    requires AllPackable(all) && done + ps <= all && AllPackable(done) && AllPackable(ps)
    requires a.Length == |Packed(all)| && index == |Packed(done)| <= a.Length && a[..index] == Packed(done)
    modifies a
    ensures AllPackable(done + ps) && next == |Packed(done + ps)| <= a.Length && a[..next] == Packed(done + ps)
  {
    hide Packable, Packed, AllPackable;
    next := index;
    assert done + ps[..0] == done;
    for j := 0 to |ps|
      invariant AllPackable(done + ps[..j]) && next == |Packed(done + ps[..j])| <= a.Length
      invariant a[..next] == Packed(done + ps[..j])
    {
      ghost var sofar := done + ps[..j];
      OneMoreFits(all, done, ps, j);
      NeedsValues(ps[j]);
      PackParam(a, next, ps[j]);
      var n := next + 3 + |ps[j].values.value|;
      assert a[..n] == a[..next] + a[next..n];
      next := n;
      assert done + ps[..j + 1] == sofar + [ps[j]];
    }
    assert ps[..|ps|] == ps;
  }

  lemma OneMoreFits(all: seq<Param>, done: seq<Param>, ps: seq<Param>, j: nat)
    requires AllPackable(all) && done + ps <= all && j < |ps|
    ensures var sofar := done + ps[..j];
            && AllPackable(sofar) && Packable(ps[j]) && AllPackable(sofar + [ps[j]])
            && Packed(sofar + [ps[j]]) == Packed(sofar) + Entry(ps[j])
            && |Packed(sofar)| + |Entry(ps[j])| <= |Packed(all)|
  {
    hide Packable, Packed, Entry;
    var sofar := done + ps[..j];
    assert sofar + [ps[j]] <= all by { assert sofar + [ps[j]] == (done + ps)[..|done| + j + 1]; }
    PartsPackable(all, sofar, [ps[j]]);
    assert Packable([ps[j]][0]);
    PackedJoined(sofar, [ps[j]]);
    PackedOne(ps[j]);
    PrefixFits(all, sofar + [ps[j]]);
  }

  /** `ATP_get_total_parameter_details`: an array of exactly the packed entries, every one of its slots written. */
  method ParameterDetails(reg: Registry) returns (a: array<int>)
    requires reg.Valid() && AllPackable(AllParams(reg.Contents()))
    ensures fresh(a) && a[..] == Packed(AllParams(reg.Contents()))
  {
    hide Packable, View, AllParams, AllPackable, HasValues, TotalValues, Packed;
    ghost var ds := reg.Contents();
    ghost var all := AllParams(ds);
    PackedLength(all);
    var params, values := Totals(reg);
    a := new int[params * 3 + values];
    var index := 0;
    NothingPacked();
    for i := 0 to reg.numDomains
      invariant AllPackable(AllParams(ds[..i]))
      invariant index == |Packed(AllParams(ds[..i]))| <= a.Length && a[..index] == Packed(AllParams(ds[..i]))
    {
      NextParams(ds, i);
      NextPackable(ds, i);
      index := PackParams(a, index, View(reg.domains[i]).params, AllParams(ds[..i]), all);
    }
    assert ds[..reg.numDomains] == ds;
  }

  lemma NothingPacked()
    ensures AllParams([]) == [] && AllPackable([]) && Packed([]) == []
  {
  }

  /** The loop of `ATPS_send_atp_specs`. */
  method UnpackDetails(a: seq<int>, n: nat) returns (r: Option<seq<Details>>)
    ensures r == Walk(a, 0, n)
  {
    hide Walk;
    var found: seq<Details> := [];
    var index := 0;
    PrependNothing(Walk(a, 0, n));
    for i := 0 to n
      invariant Walk(a, 0, n) == Prepend(found, Walk(a, index, n - i))
    {
      WalkLeaves(a, index, n - i);
      if index < 0 || index + 3 > |a| { return None; }
      var count := if a[index] == TYPE_RANGE then 3 else a[index + 2];
      if index + 3 + count > |a| { return None; }
      var values := TakeValues(a, index, count);
      var d := Details(a[index], a[index + 1], a[index + 2], values);
      NextDetails(a, index, n - i, d);
      PrependMore(found, d, Walk(a, index + 3 + count, n - i - 1));
      found := found + [d];
      index := index + 3 + count;
    }
    WalkLeaves(a, index, 0);
    assert found + [] == found;
    r := Some(found);
  }

  lemma WalkLeaves(a: seq<int>, index: int, n: nat)
    ensures n == 0 ==> Walk(a, index, n) == Some([])
    ensures n > 0 && (index < 0 || index + 3 > |a| || index + 3 + Count(a[index], a[index + 2]) > |a|) ==>
              Walk(a, index, n) == None
  {
  }

  lemma NextDetails(a: seq<int>, index: nat, n: nat, d: Details)
    requires n > 0 && index + 3 <= |a| && index + 3 + Count(a[index], a[index + 2]) <= |a|
    requires var count := Count(a[index], a[index + 2]);
             d == Details(a[index], a[index + 1], a[index + 2],
                          if count > 0 then a[index + 3..index + 3 + count] else [])
    ensures Walk(a, index, n)
         == match Walk(a, index + 3 + Count(a[index], a[index + 2]), n - 1)
            case None => None
            case Some(rest) => Some([d] + rest)
  {
  }

  method TakeValues(a: seq<int>, index: nat, count: int) returns (values: seq<int>)
    requires index + 3 <= |a| && index + 3 + count <= |a|
    ensures values == if count > 0 then a[index + 3..index + 3 + count] else []
  {
    values := [];
    var k := 0;
    while k < count
      invariant 0 <= k && (k <= count || k == 0)
      invariant values == a[index + 3..index + 3 + k]
    {
      values := values + [a[index + k + 3]];
      k := k + 1;
    }
  }

  lemma PrependNothing(r: Option<seq<Details>>)
    ensures Prepend([], r) == r
  {
    if r.Some? { assert [] + r.value == r.value; }
  }

  function Prepend(found: seq<Details>, r: Option<seq<Details>>): Option<seq<Details>> {
    if r.None? then None else Some(found + r.value)
  }

  lemma PrependMore(found: seq<Details>, d: Details, r: Option<seq<Details>>)
    ensures Prepend(found + [d], r) == Prepend(found, match r case None => None case Some(rest) => Some([d] + rest))
  {
    if r.Some? { assert found + [d] + r.value == found + ([d] + r.value); }
  }
}
