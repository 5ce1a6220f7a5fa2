/** Single rounds of the loop of `json_parse_ex`, and how rounds compose into runs; both passes use these. */
module JsonRounds {
  import opened JsonText
  import opened JsonMachine

  /** How a pass goes on from the end of a round. */
  function Resume(o: Outcome): Verdict {
    match o
    case Next(s) => if s.ptr <= |s.text| then Run(s) else Diverged
    case Bottom(_) => Diverged
    case Accept(s) => Accepted(s.root, s.nodes)
    case Fail => Rejected
    case Crash => Crashed
  }

  lemma Advance(s: State, s': State)
    requires s.ptr <= |s.text| && Step(s) == Next(s')
    requires s'.text == s.text && s.ptr < s'.ptr <= |s.text|
    ensures Run(s) == Run(s')
  {
    hide Step;
  }

  lemma Stay(s: State, s': State)
    requires s.ptr <= |s.text| && Step(s) == Next(s')
    requires s'.text == s.text && s'.ptr == s.ptr && Rank(s') < Rank(s)
    ensures Run(s) == Run(s')
  {
    hide Step;
  }

  lemma Stop(s: State)
    requires s.ptr <= |s.text| && (Step(s) == Fail || Step(s).Accept?)
    ensures Run(s) == Resume(Step(s))
  {
    hide Step;
  }

  /** The position after a round that reaches its bottom in state `x`. */
  function EndOf(x: State): nat {
    if x.f.reproc then x.ptr else x.ptr + 1
  }

  /** No pending flags besides those saying what is expected next. */
  predicate Plain(f: Flags) {
    !f.next && !f.reproc && !f.escaped && !f.str && !f.done
  }

  predicate IsContainer(k: Kind) {
    k == KArray || k == KObject
  }

  predicate InContainer(s: State) {
    s.top.At? && s.top.i < |s.nodes| && IsContainer(s.nodes[s.top.i].kind)
  }

  /** The state at the bottom of the round that completes the value on top. */
  predicate Complete(x: State) {
    && x.f.next && !x.f.escaped && !x.f.str && !x.f.done && !x.f.seekValue && !x.f.needComma && !x.f.needColon
    && x.top.At? && x.top.i < |x.nodes|
  }

  /** The enclosing value of a complete one is a container, if there is one. */
  predicate ParentFits(x: State)
    requires x.top.At? && x.top.i < |x.nodes|
  {
    var parent := x.nodes[x.top.i].parent;
    parent.At? ==> parent.i < |x.nodes| && IsContainer(x.nodes[parent.i].kind)
  }

  lemma Completes(s: State, x: State)
    requires s.ptr <= |s.text| && Complete(x) && ParentFits(x)
    requires Step(s) == Finish(x) && x.text == s.text
    requires s.ptr < EndOf(x) <= |s.text| || (s.ptr == EndOf(x) && Rank(s) > 0)
    ensures Run(s) == Resume(Finish(x))
  {
    hide Step;
    match Finish(x) {
      case Next(s') =>
        assert s'.ptr == EndOf(x) && s'.text == s.text;
        assert Rank(s') == 0;
        if s.ptr < s'.ptr { Advance(s, s'); } else { Stay(s, s'); }
      case _ =>
    }
  }

  /** A round that reads one byte of a string. */
  lemma StringRound(s: State)
    requires s.ptr <= |s.text| && s.f.str && !StringChar(s, Peek(s.text, s.ptr)).Bottom?
    ensures Step(s) == StringChar(s, Peek(s.text, s.ptr))
  {
    hide StringChar, Main, Finish, Run;
  }

  /** A round outside strings. */
  lemma MainRound(s: State)
    requires s.ptr <= |s.text| && !s.f.str
    ensures var o := Main(s, Peek(s.text, s.ptr)); Step(s) == if o.Bottom? then Finish(o.s) else o
  {
    hide StringChar, Main, Finish, Run;
  }

  // ---------------------------------------------------------------- whitespace

  /** States in which whitespace is skipped. */
  predicate SkipsSpace(s: State) {
    && s.ptr <= |s.text| && !s.f.str && !s.f.next && !s.f.reproc
    && (s.f.done || s.f.seekValue
        || (s.top.At? && s.top.i < |s.nodes| && s.nodes[s.top.i].kind == KObject))
  }

  lemma SpaceStep(s: State)
    requires SkipsSpace(s) && IsSpace(Peek(s.text, s.ptr))
    ensures Step(s) == Next(s.(ptr := s.ptr + 1))
  {
  }

  lemma {:induction false} Spaces(s: State)
    requires SkipsSpace(s)
    ensures Run(s) == Run(s.(ptr := SkipSpace(s.text, s.ptr)))
    decreases |s.text| - s.ptr
  {
    hide Step, Run;
    if IsSpace(Peek(s.text, s.ptr)) {
      var s' := s.(ptr := s.ptr + 1);
      SpaceStep(s);
      Advance(s, s');
      Spaces(s');
      assert s'.(ptr := SkipSpace(s'.text, s'.ptr)) == s.(ptr := SkipSpace(s.text, s.ptr));
    } else {
      assert s.(ptr := SkipSpace(s.text, s.ptr)) == s;
    }
  }
}
