/** How many values a range parameter has: the number the server reports (src/common/atpcommon.c:504) against the
    values the query lets through (src/common/atpcommon.c:561 and 605) and those its documentation promises. */
module RangeQuery {
  import opened RegistryModel
  import opened Wire

  /** `(min <= R <= max) && ( R = p * step )` for some integer `p`. */
  ghost predicate Admitted(min: int, max: int, step: int, r: int) {
    min <= r <= max && exists p: int :: r == p * step
  }

  /** The multiples of `step` from `min` to `max`. */
  function Multiples(min: int, max: int, step: int): seq<int>
    requires step > 0
    decreases max - min
  {
    if max < min then []
    else Multiples(min, max - 1, step) + if max % step == 0 then [max] else []
  }

  lemma MultipleOf(r: int, step: int)
    requires step > 0
    ensures r % step == 0 <==> exists p: int :: r == p * step
  {
    if r % step == 0 {
      assert r == (r / step) * step;
    }
    if exists p: int :: r == p * step {
      var p: int :| r == p * step;
      NoRemainder(p, step);
    }
  }

  lemma Factor(d: int, step: int)
    requires step > 0
    ensures d >= 1 ==> d * step >= step
    ensures d >= 2 ==> d * step >= 2 * step
    ensures d <= 0 ==> d * step <= 0
    ensures d <= -1 ==> d * step <= -step
  {
  }

  lemma {:induction false} NoRemainder(p: int, step: int)
    requires step > 0
    ensures (p * step) % step == 0
  {
    var q, m := (p * step) / step, (p * step) % step;
    assert (p - q) * step == m;
    Factor(p - q, step);
  }

  /** They are the values the query lets through, in increasing order. */
  lemma {:induction false} MultiplesAreAdmitted(min: int, max: int, step: int)
    requires step > 0
    ensures forall r :: r in Multiples(min, max, step) <==> Admitted(min, max, step, r)
    ensures forall i, j :: 0 <= i < j < |Multiples(min, max, step)| ==>
                             Multiples(min, max, step)[i] < Multiples(min, max, step)[j]
    decreases max - min
  {
    if min > max {
    } else {
      MultiplesAreAdmitted(min, max - 1, step);
      MultipleOf(max, step);
      var before, ms := Multiples(min, max - 1, step), Multiples(min, max, step);
      forall r ensures r in ms <==> Admitted(min, max, step, r) {
        assert r in ms <==> r in before || (r == max && max % step == 0);
        assert Admitted(min, max, step, r)
          <==> Admitted(min, max - 1, step, r) || (r == max && Admitted(min, max, step, max));
      }
      forall i, j | 0 <= i < j < |ms| ensures ms[i] < ms[j] {
        assert ms[i] == before[i] && before[i] in before;
      }
    }
  }

  /** One more number: its quotient goes up exactly when it is a multiple. */
  lemma QuotientStep(n: int, step: int)
    requires step > 0
    ensures n / step - (n - 1) / step == if n % step == 0 then 1 else 0
  {
    var a, b := n / step, (n - 1) / step;
    var d := a - b;
    assert d * step == 1 + (n - 1) % step - n % step;
    Factor(d, step);
  }

  lemma {:induction false} MultiplesCount(min: int, max: int, step: int)
    requires step > 0 && min - 1 <= max
    ensures |Multiples(min, max, step)| == max / step - (min - 1) / step
    decreases max - min
  {
    if min > max {
    } else {
      MultiplesCount(min, max - 1, step);
      QuotientStep(max, step);
    }
  }

  lemma QuotientOfDifference(min: int, max: int, step: int)
    requires step > 0 && min <= max
    ensures max / step - (min - 1) / step
         == (max - min) / step + if max % step <= (min - 1) % step then 1 else 0
  {
    var c := max / step - (min - 1) / step;
    var q, m := (max - min) / step, (max - min) % step;
    var d := c - q;
    assert d * step == m + 1 - max % step + (min - 1) % step;
    Factor(d, step);
  }

  /** The number of values the query lets through is the number the server reports, or one more; it is one more
      exactly when the remainder of `max` does not exceed that of `min - 1`. */
  lemma ReportedCount(p: Param)
    requires Packable(p) && p.ptype == TYPE_RANGE
    requires var vs := p.values.value; vs[0] <= vs[1] && vs[2] > 0
    ensures var vs := p.values.value; var min: int, max: int, step: int := vs[0], vs[1], vs[2];
            |Multiples(min, max, step)| == Third(p) + if max % step <= (min - 1) % step then 1 else 0
  {
    var vs := p.values.value;
    var min: int, max: int, step: int := vs[0], vs[1], vs[2];
    MultiplesCount(min, max, step);
    QuotientOfDifference(min, max, step);
    hide Multiples;
  }

  /** The values `min, min + step, ...` up to `max`, as the header of the library describes a range. */
  function Progression(min: int, max: int, step: int): seq<int>
    requires step > 0
    decreases max - min
  {
    if max < min then [] else [min] + Progression(min + step, max, step)
  }

  lemma {:induction false} ProgressionCount(min: int, max: int, step: int)
    requires step > 0 && min <= max
    ensures |Progression(min, max, step)| == (max - min) / step + 1
    decreases max - min
  {
    if min + step <= max {
      ProgressionCount(min + step, max, step);
      OneStepLess(max - min, step);
    } else {
      assert (max - min) / step == 0;
    }
  }

  lemma OneStepLess(n: int, step: int)
    requires step > 0
    ensures (n - step) / step == n / step - 1
  {
    var d := n / step - (n - step) / step;
    assert d * step == step + (n - step) % step - n % step;
    Factor(d, step);
  }

  /** The query lets through as many values as the range has, exactly under the same condition; whenever `min` is
      a multiple of the step, for example. */
  lemma QueryAgainstRange(min: int, max: int, step: int)
    requires step > 0 && min <= max
    ensures |Multiples(min, max, step)| == |Progression(min, max, step)| <==> max % step <= (min - 1) % step
    ensures min % step == 0 ==> max % step <= (min - 1) % step
  {
    MultiplesCount(min, max, step);
    ProgressionCount(min, max, step);
    QuotientOfDifference(min, max, step);
    hide Multiples, Progression;
    if min % step == 0 { BeforeMultiple(min, step); }
  }

  lemma BeforeMultiple(n: int, step: int)
    requires step > 0 && n % step == 0
    ensures (n - 1) % step == step - 1
  {
    var d := n / step - (n - 1) / step;
    assert d * step == 1 + (n - 1) % step;
    Factor(d, step);
  }

  /** From a multiple on, the next multiple is one step further. */
  lemma {:induction false} FirstMultiple(min: int, max: int, step: int)
    requires step > 0 && min % step == 0 && min <= max
    ensures Multiples(min, max, step) == [min] + Multiples(min + step, max, step)
    decreases max - min
  {
    if min == max {
      assert Multiples(min, max - 1, step) == [] && Multiples(min + step, max, step) == [];
    } else {
      FirstMultiple(min, max - 1, step);
      var last := if max % step == 0 then [max] else [];
      if max < min + step {
        NoneBetween(min, max, step);
        assert Multiples(min + step, max, step) == [] && Multiples(min + step, max - 1, step) == [];
      } else {
        assert Multiples(min + step, max, step) == Multiples(min + step, max - 1, step) + last;
      }
      assert Multiples(min, max, step) == Multiples(min, max - 1, step) + last;
    }
  }

  lemma NoneBetween(min: int, max: int, step: int)
    requires step > 0 && min % step == 0 && min < max < min + step
    ensures max % step != 0
  {
    var d := max / step - min / step;
    assert d * step == max - min - max % step;
    Factor(d, step);
  }

  lemma {:induction false} SameFromMultiple(min: int, max: int, step: int)
    requires step > 0 && min % step == 0
    ensures Multiples(min, max, step) == Progression(min, max, step)
    decreases max - min
  {
    if min > max {
    } else {
      FirstMultiple(min, max, step);
      OneStepMore(min, step);
      SameFromMultiple(min + step, max, step);
    }
  }

  lemma OneStepMore(n: int, step: int)
    requires step > 0 && n % step == 0
    ensures (n + step) % step == 0
  {
    OneStepLess(n + step, step);
  }

  /** The query lets through the very values of the range exactly when the range starts at a multiple of its step. */
  lemma QueryIsRange(min: int, max: int, step: int)
    requires step > 0 && min <= max
    ensures Multiples(min, max, step) == Progression(min, max, step) <==> min % step == 0
  {
    MultiplesAreAdmitted(min, max, step);
    MultipleOf(min, step);
    assert Progression(min, max, step)[0] == min;
    assert min in Multiples(min, max, step) <==> Admitted(min, max, step, min);
    hide Multiples, Progression;
    if min % step == 0 { SameFromMultiple(min, max, step); }
  }

  /** A range that starts elsewhere, as in test/test.c: not one value is the same. */
  lemma OddRangeDiffers()
    ensures Progression(1, 10, 2) == [1, 3, 5, 7, 9] && Multiples(1, 10, 2) == [2, 4, 6, 8, 10]
  {
    assert Progression(11, 10, 2) == [] && Progression(9, 10, 2) == [9] && Progression(7, 10, 2) == [7, 9];
    assert Progression(5, 10, 2) == [5, 7, 9] && Progression(3, 10, 2) == [3, 5, 7, 9];
    assert Multiples(1, 1, 2) == [] && Multiples(1, 2, 2) == [2] && Multiples(1, 3, 2) == [2];
    assert Multiples(1, 4, 2) == [2, 4] && Multiples(1, 5, 2) == [2, 4] && Multiples(1, 6, 2) == [2, 4, 6];
    assert Multiples(1, 7, 2) == [2, 4, 6] && Multiples(1, 8, 2) == [2, 4, 6, 8];
    assert Multiples(1, 9, 2) == [2, 4, 6, 8];
  }
}
