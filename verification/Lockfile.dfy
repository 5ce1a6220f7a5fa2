/** The lock file protocol of src/common/atpcommon.c: every process removes `atp.lck` when it starts, and a process
    that ends its collection creates it exclusively and, if that succeeds, writes the description file. */
module Lockfile {
  /** How far a process has come.  Creating the lock and writing the file are two separate steps. */
  datatype Phase = Before | Ready | Holding | Done

  datatype Event = Removed(p: nat) | Refused(p: nat) | Created(p: nat) | Wrote(p: nat) | Idle(p: nat)

  datatype State = State(lock: bool, phases: seq<Phase>)

  /** The next step of process `p`. */
  function Step(s: State, p: nat): (r: (State, Event))
    requires p < |s.phases|
    ensures |r.0.phases| == |s.phases| && r.1.p == p
  {
    match s.phases[p]
    case Before => (State(false, s.phases[p := Ready]), Removed(p))
    case Ready =>
      if s.lock then (State(true, s.phases[p := Done]), Refused(p))
      else (State(true, s.phases[p := Holding]), Created(p))
    case Holding => (State(s.lock, s.phases[p := Done]), Wrote(p))
    case Done => (s, Idle(p))
  }

  predicate Scheduled(s: State, schedule: seq<nat>) {
    forall i :: 0 <= i < |schedule| ==> schedule[i] < |s.phases|
  }

  /** What happens when the processes take their steps in the order given. */
  function Trace(s: State, schedule: seq<nat>): (r: seq<Event>)
    requires Scheduled(s, schedule)
    ensures |r| == |schedule|
    decreases |schedule|
  {
    if schedule == [] then []
    else var (s', e) := Step(s, schedule[0]); [e] + Trace(s', schedule[1..])
  }

  function After(s: State, schedule: seq<nat>): (r: State)
    requires Scheduled(s, schedule)
    ensures |r.phases| == |s.phases|
    decreases |schedule|
  {
    if schedule == [] then s else After(Step(s, schedule[0]).0, schedule[1..])
  }

  /** The event at `j` is that of the process scheduled there, and the first step leaves the rest of the run. */
  lemma {:induction false} EventAt(s: State, schedule: seq<nat>, j: nat)
    requires Scheduled(s, schedule) && j < |schedule|
    ensures var (s', e) := Step(s, schedule[0]);
            && Scheduled(s', schedule[1..])
            && Trace(s, schedule)[j] == (if j == 0 then e else Trace(s', schedule[1..])[j - 1])
            && Trace(s, schedule)[j].p == schedule[j]
    decreases j
  {
    var s' := Step(s, schedule[0]).0;
    hide Step;
    if j == 0 {
    } else {
      EventAt(s', schedule[1..], j - 1);
    }
  }

  lemma Parts(s: State, a: seq<nat>, b: seq<nat>)
    requires Scheduled(s, a + b)
    ensures Scheduled(s, a) && Scheduled(s, b)
  {
    assert forall i :: 0 <= i < |a| ==> a[i] == (a + b)[i];
    assert forall i :: 0 <= i < |b| ==> b[i] == (a + b)[|a| + i];
  }

  /** A run in two parts. */
  lemma {:induction false} Joined(s: State, a: seq<nat>, b: seq<nat>)
    requires Scheduled(s, a + b)
    ensures Scheduled(s, a) && Scheduled(After(s, a), b)
    ensures Trace(s, a + b) == Trace(s, a) + Trace(After(s, a), b)
    decreases |a|
  {
    hide Step;
    Parts(s, a, b);
    if a == [] {
      assert a + b == b;
    } else {
      assert (a + b)[1..] == a[1..] + b && (a + b)[0] == a[0];
      var (s', e) := Step(s, a[0]);
      Joined(s', a[1..], b);
      assert [e] + Trace(s', a[1..] + b) == ([e] + Trace(s', a[1..])) + Trace(After(s, a), b);
    }
  }

  lemma {:induction false} AfterBoth(s: State, a: seq<nat>, b: seq<nat>)
    requires Scheduled(s, a) && Scheduled(After(s, a), b)
    ensures Scheduled(s, a + b) && After(s, a + b) == After(After(s, a), b)
    decreases |a|
  {
    hide Step;
    if a == [] {
      assert a + b == b;
    } else {
      assert (a + b)[1..] == a[1..] + b && (a + b)[0] == a[0];
      AfterBoth(Step(s, a[0]).0, a[1..], b);
    }
  }

  // ---------------------------------------------------------------- between two creations the lock was removed

  lemma {:induction false} LockedUntilRemoved(s: State, schedule: seq<nat>, j: nat) returns (k: nat)
    requires Scheduled(s, schedule) && j < |schedule| && s.lock
    requires Trace(s, schedule)[j].Created?
    ensures k < j && Trace(s, schedule)[k].Removed?
    decreases j
  {
    EventAt(s, schedule, 0);
    EventAt(s, schedule, j);
    hide Trace;
    var (s', e) := Step(s, schedule[0]);
    if e.Removed? {
      k := 0;
    } else {
      k := LockedUntilRemoved(s', schedule[1..], j - 1);
      EventAt(s, schedule, k + 1);
      k := k + 1;
    }
  }

  /** In every run, whatever the lock was at the start, between two creations some process removed the lock. */
  lemma {:induction false} CreationsSeparated(s: State, schedule: seq<nat>, i: nat, j: nat) returns (k: nat)
    requires Scheduled(s, schedule) && i < j < |schedule|
    requires Trace(s, schedule)[i].Created? && Trace(s, schedule)[j].Created?
    ensures i < k < j && Trace(s, schedule)[k].Removed?
    decreases i
  {
    EventAt(s, schedule, i);
    EventAt(s, schedule, j);
    hide Trace;
    var (s', e) := Step(s, schedule[0]);
    if i == 0 {
      k := LockedUntilRemoved(s', schedule[1..], j - 1);
    } else {
      hide Step;
      k := CreationsSeparated(s', schedule[1..], i - 1, j - 1);
    }
    EventAt(s, schedule, k + 1);
    k := k + 1;
  }

  // ---------------------------------------------------------------- writes

  /** A process that does not hold the lock creates it before it writes. */
  lemma {:induction false} WriteAfterCreate(s: State, schedule: seq<nat>, j: nat) returns (i: nat)
    requires Scheduled(s, schedule) && j < |schedule| && Trace(s, schedule)[j].Wrote?
    requires s.phases[schedule[j]] != Holding
    ensures i < j && Trace(s, schedule)[i] == Created(schedule[j])
    decreases j
  {
    EventAt(s, schedule, 0);
    EventAt(s, schedule, j);
    hide Trace;
    var (s', e) := Step(s, schedule[0]);
    if e == Created(schedule[j]) {
      i := 0;
    } else {
      i := WriteAfterCreate(s', schedule[1..], j - 1);
      EventAt(s, schedule, i + 1);
      i := i + 1;
    }
  }

  /** No process takes part twice: it creates the lock at most once, and writes at most once. */
  lemma {:induction false} OnceEach(s: State, schedule: seq<nat>, i: nat, j: nat)
    requires Scheduled(s, schedule) && i < j < |schedule|
    requires Trace(s, schedule)[i].Created? || Trace(s, schedule)[i].Wrote?
    ensures Trace(s, schedule)[j] != Trace(s, schedule)[i]
    decreases i
  {
    EventAt(s, schedule, i);
    EventAt(s, schedule, j);
    hide Trace;
    var (s', e) := Step(s, schedule[0]);
    if i == 0 {
      NeverAgain(s', schedule[1..], e, j - 1);
    } else {
      OnceEach(s', schedule[1..], i - 1, j - 1);
    }
  }

  lemma {:induction false} NeverAgain(s: State, schedule: seq<nat>, e: Event, j: nat)
    requires Scheduled(s, schedule) && j < |schedule| && e.p < |s.phases|
    requires match e
             case Created(p) => s.phases[p] == Holding || s.phases[p] == Done
             case Wrote(p) => s.phases[p] == Done
             case _ => false
    ensures Trace(s, schedule)[j] != e
    decreases j
  {
    EventAt(s, schedule, j);
    hide Trace;
    if j == 0 {
    } else {
      NeverAgain(Step(s, schedule[0]).0, schedule[1..], e, j - 1);
    }
  }

  /** Two writes with no removal between them: then a removal fell between a creation and the write that belongs
      to it.  So if no process starts while another is about to write, any two writes are separated by a start. */
  lemma WritesSeparated(s: State, schedule: seq<nat>, i: nat, j: nat) returns (c: nat, k: nat, w: nat)
    requires Scheduled(s, schedule) && i < j < |schedule|
    requires forall q :: 0 <= q < |s.phases| ==> s.phases[q] != Holding
    requires var t := Trace(s, schedule); t[i].Wrote? && t[j].Wrote? && forall k :: i < k < j ==> !t[k].Removed?
    ensures c < k < w < |schedule|
    ensures var t := Trace(s, schedule); t[w].Wrote? && t[c] == Created(t[w].p) && t[k].Removed?
  {
    EventAt(s, schedule, i);
    EventAt(s, schedule, j);
    hide Trace, Step;
    var a := WriteAfterCreate(s, schedule, i);
    var b := WriteAfterCreate(s, schedule, j);
    OnceEach(s, schedule, i, j);
    if a < b {
      k := CreationsSeparated(s, schedule, a, b);
      c, w := a, i;
    } else {
      k := CreationsSeparated(s, schedule, b, a);
      c, w := b, j;
    }
  }

  /** Without that proviso two processes can both write with no start between the writes: process 1 starts while
      process 0 is about to write. */
  lemma TwoWriters()
    ensures Trace(State(false, [Before, Before]), [0, 0, 1, 1, 0, 1])
         == [Removed(0), Created(0), Removed(1), Created(1), Wrote(0), Wrote(1)]
  {
    hide Trace;
    var s0 := State(false, [Before, Before]);
    var s1 := State(false, [Ready, Before]);
    var s2 := State(true, [Holding, Before]);
    var s3 := State(false, [Holding, Ready]);
    var s4 := State(true, [Holding, Holding]);
    var s5 := State(true, [Done, Holding]);
    NoStep(State(true, [Done, Done]));
    OneStep(s5, State(true, [Done, Done]), 1, Wrote(1), []);
    OneStep(s4, s5, 0, Wrote(0), [1]);
    OneStep(s3, s4, 1, Created(1), [0, 1]);
    OneStep(s2, s3, 1, Removed(1), [1, 0, 1]);
    OneStep(s1, s2, 0, Created(0), [1, 1, 0, 1]);
    OneStep(s0, s1, 0, Removed(0), [0, 1, 1, 0, 1]);
    hide Step, Scheduled;
    assert [0] + [0, 1, 1, 0, 1] == [0, 0, 1, 1, 0, 1] && [0] + [1, 1, 0, 1] == [0, 1, 1, 0, 1];
    assert [1] + [1, 0, 1] == [1, 1, 0, 1] && [1] + [0, 1] == [1, 0, 1] && [0] + [1] == [0, 1] && [1] + [] == [1];
  }

  lemma NoStep(s: State)
    ensures Trace(s, []) == []
  {
  }

  lemma OneStep(s: State, s': State, p: nat, e: Event, rest: seq<nat>)
    requires p < |s.phases| && |s'.phases| == |s.phases| && Scheduled(s, rest)
    requires s'.phases == s.phases[p := s'.phases[p]] && Step(s, p) == (State(s'.lock, s.phases[p := s'.phases[p]]), e)
    ensures Scheduled(s, [p] + rest) && Trace(s, [p] + rest) == [e] + Trace(s', rest)
  {
    assert ([p] + rest)[1..] == rest;
  }

  // ---------------------------------------------------------------- what becomes of a process

  /** A process that has been refused has returned for good: it neither tries again nor writes. */
  lemma {:induction false} RefusedForGood(s: State, schedule: seq<nat>, i: nat, j: nat)
    requires Scheduled(s, schedule) && i < j < |schedule|
    requires Trace(s, schedule)[i].Refused? && schedule[j] == schedule[i]
    ensures Trace(s, schedule)[j] == Idle(schedule[i])
    decreases i
  {
    EventAt(s, schedule, i);
    EventAt(s, schedule, j);
    hide Trace;
    var s' := Step(s, schedule[0]).0;
    if i == 0 {
      IdleWhenDone(s', schedule[1..], j - 1);
    } else {
      RefusedForGood(s', schedule[1..], i - 1, j - 1);
    }
  }

  lemma {:induction false} IdleWhenDone(s: State, schedule: seq<nat>, j: nat)
    requires Scheduled(s, schedule) && j < |schedule| && s.phases[schedule[j]] == Done
    ensures Trace(s, schedule)[j] == Idle(schedule[j])
    decreases j
  {
    EventAt(s, schedule, j);
    hide Trace;
    if j == 0 {
    } else {
      IdleWhenDone(Step(s, schedule[0]).0, schedule[1..], j - 1);
    }
  }

  /** How often process `p` is scheduled. */
  function Turns(schedule: seq<nat>, p: nat): nat {
    if schedule == [] then 0 else (if schedule[0] == p then 1 else 0) + Turns(schedule[1..], p)
  }

  /** The most steps a process in this phase can still take. */
  function StepsLeft(phase: Phase): nat {
    match phase case Before => 3 case Ready => 2 case Holding => 1 case Done => 0
  }

  /** Every process is done after at most three steps of its own, whatever the others do. */
  lemma {:induction false} DoneInTime(s: State, schedule: seq<nat>, p: nat)
    requires Scheduled(s, schedule) && p < |s.phases| && Turns(schedule, p) >= StepsLeft(s.phases[p])
    ensures After(s, schedule).phases[p] == Done
    decreases |schedule|
  {
    if schedule == [] {
    } else {
      DoneInTime(Step(s, schedule[0]).0, schedule[1..], p);
    }
  }

  /** One step of its own makes a process ready, and no other process changes that. */
  lemma {:induction false} ReadyAfterOne(s: State, schedule: seq<nat>, p: nat)
    requires Scheduled(s, schedule) && p < |s.phases|
    requires Turns(schedule, p) == match s.phases[p] case Before => 1 case _ => 0
    requires s.phases[p] == Before || s.phases[p] == Ready
    ensures After(s, schedule).phases[p] == Ready
    decreases |schedule|
  {
    if schedule == [] {
    } else {
      ReadyAfterOne(Step(s, schedule[0]).0, schedule[1..], p);
    }
  }

  // ---------------------------------------------------------------- all starts before all ends

  function Writes(t: seq<Event>): nat {
    if t == [] then 0 else (if t[0].Wrote? then 1 else 0) + Writes(t[1..])
  }

  function Holders(ps: seq<Phase>): nat {
    if ps == [] then 0 else (if ps[0].Holding? then 1 else 0) + Holders(ps[1..])
  }

  lemma {:induction false} HoldersChange(ps: seq<Phase>, p: nat, x: Phase)
    requires p < |ps|
    ensures Holders(ps[p := x]) - Holders(ps) == (if x.Holding? then 1 else 0) - (if ps[p].Holding? then 1 else 0)
  {
    if p == 0 {
      assert ps[0 := x][1..] == ps[1..];
    } else {
      assert ps[p := x][1..] == ps[1..][p - 1 := x];
      HoldersChange(ps[1..], p - 1, x);
    }
  }

  lemma {:induction false} NoHolders(ps: seq<Phase>)
    requires forall i :: 0 <= i < |ps| ==> ps[i] != Holding
    ensures Holders(ps) == 0
  {
    if ps == [] {
    } else {
      NoHolders(ps[1..]);
    }
  }

  predicate AllStarted(s: State) {
    forall i :: 0 <= i < |s.phases| ==> s.phases[i] != Before
  }

  /** When all have started and the lock exists, only those already holding it write. */
  lemma {:induction false} LockedRun(s: State, schedule: seq<nat>)
    requires Scheduled(s, schedule) && AllStarted(s) && s.lock
    ensures Writes(Trace(s, schedule)) + Holders(After(s, schedule).phases) == Holders(s.phases)
    decreases |schedule|
  {
    if schedule == [] {
    } else {
      var (s', e) := Step(s, schedule[0]);
      if s.phases[schedule[0]] != Done { HoldersChange(s.phases, schedule[0], s'.phases[schedule[0]]); }
      LockedRun(s', schedule[1..]);
      assert Trace(s, schedule)[1..] == Trace(s', schedule[1..]);
    }
  }

  lemma {:induction false} FreeRun(s: State, schedule: seq<nat>)
    requires Scheduled(s, schedule) && !s.lock && schedule != []
    requires forall i :: 0 <= i < |s.phases| ==> s.phases[i] == Ready
    ensures Writes(Trace(s, schedule)) + Holders(After(s, schedule).phases) == 1
  {
    var (s', e) := Step(s, schedule[0]);
    NoHolders(s.phases);
    HoldersChange(s.phases, schedule[0], Holding);
    LockedRun(s', schedule[1..]);
    assert Trace(s, schedule)[1..] == Trace(s', schedule[1..]);
  }

  /** A process that has gone past its start never comes back to it. */
  lemma {:induction false} PastReady(s: State, schedule: seq<nat>, p: nat)
    requires Scheduled(s, schedule) && p < |s.phases| && (s.phases[p] == Holding || s.phases[p] == Done)
    ensures After(s, schedule).phases[p] != Ready
    decreases |schedule|
  {
    if schedule == [] {
    } else {
      PastReady(Step(s, schedule[0]).0, schedule[1..], p);
    }
  }

  lemma {:induction false} StartsRemoveTheLock(s: State, starts: seq<nat>)
    requires Scheduled(s, starts) && s.phases != []
    requires forall i :: 0 <= i < |s.phases| ==> s.phases[i] == Before || (s.phases[i] == Ready && !s.lock)
    requires forall i :: 0 <= i < |s.phases| ==> After(s, starts).phases[i] == Ready
    ensures !After(s, starts).lock && Writes(Trace(s, starts)) == 0
    decreases |starts|
  {
    if starts == [] {
      assert After(s, starts).phases[0] == Ready;
    } else {
      var (s', e) := Step(s, starts[0]);
      assert After(s, starts) == After(s', starts[1..]) && After(s, starts).phases[starts[0]] == Ready;
      if s.phases[starts[0]] == Ready {
        PastReady(s', starts[1..], starts[0]);
        assert false;
      }
      StartsRemoveTheLock(s', starts[1..]);
      assert Trace(s, starts)[1..] == Trace(s', starts[1..]);
    }
  }

  lemma {:induction false} WritesJoined(a: seq<Event>, b: seq<Event>)
    ensures Writes(a + b) == Writes(a) + Writes(b)
  {
    if a == [] {
      assert a + b == b;
    } else {
      assert (a + b)[1..] == a[1..] + b;
      WritesJoined(a[1..], b);
    }
  }

  /** When every start comes before every end and all processes finish, exactly one of them writes, in whatever
      order they take their steps and whatever lock an earlier run left behind. */
  lemma SingleWriter(lock: bool, n: nat, starts: seq<nat>, ends: seq<nat>)
    requires n > 0
    requires var s := State(lock, seq(n, _ => Before));
             && Scheduled(s, starts) && Scheduled(s, ends)
             && (forall i :: 0 <= i < n ==> After(s, starts).phases[i] == Ready)
             && (forall i :: 0 <= i < n ==> After(After(s, starts), ends).phases[i] == Done)
    ensures Scheduled(State(lock, seq(n, _ => Before)), starts + ends)
    ensures Writes(Trace(State(lock, seq(n, _ => Before)), starts + ends)) == 1
  {
    var s := State(lock, seq(n, _ => Before));
    var m := After(s, starts);
    StartsRemoveTheLock(s, starts);
    assert m.phases[0] == Ready && After(m, ends).phases[0] == Done;
    FreeRun(m, ends);
    NoHolders(After(m, ends).phases);
    Joined(s, starts, ends);
    WritesJoined(Trace(s, starts), Trace(m, ends));
  }

  /** That is so in every run in which every process starts once, in whatever order, before any of them ends, and each
      then has two more steps or more, in whatever order: all of them finish, and exactly one writes. */
  lemma EveryScheduleFinishes(lock: bool, n: nat, starts: seq<nat>, ends: seq<nat>)
    requires n > 0 && (forall p <- starts + ends :: p < n)
    requires forall p: nat :: p < n ==> Turns(starts, p) == 1 && Turns(ends, p) >= 2
    ensures var s := State(lock, seq(n, _ => Before));
            && Scheduled(s, starts + ends)
            && (forall p: nat :: p < n ==> After(s, starts + ends).phases[p] == Done)
            && Writes(Trace(s, starts + ends)) == 1
  {
    var s := State(lock, seq(n, _ => Before));
    assert forall i :: 0 <= i < |starts + ends| ==> (starts + ends)[i] in starts + ends;
    Parts(s, starts, ends);
    var m := After(s, starts);
    forall p: nat | p < n ensures m.phases[p] == Ready { ReadyAfterOne(s, starts, p); }
    forall p: nat | p < n ensures After(m, ends).phases[p] == Done { DoneInTime(m, ends, p); }
    hide Step, After, Trace, Turns;
    AfterBoth(s, starts, ends);
    SingleWriter(lock, n, starts, ends);
  }

  // ---------------------------------------------------------------- exactly when two can write

  /** Process `p` holds the lock, or could have it by taking steps of its own. */
  predicate CanWrite(s: State, p: nat)
    requires p < |s.phases|
  {
    s.phases[p] == Holding || s.phases[p] == Before || (s.phases[p] == Ready && !s.lock)
  }

  /** Two processes could write, one of which does not need the lock to be free. */
  predicate Vulnerable(s: State) {
    exists p: nat, q: nat :: p < |s.phases| && q < |s.phases| && p != q
                             && CanWrite(s, p) && CanWrite(s, q) && s.phases[q] != Ready
  }

  /** Two writes with no start between them. */
  predicate Unseparated(t: seq<Event>) {
    exists i, j :: 0 <= i < j < |t| && t[i].Wrote? && t[j].Wrote? && forall k :: i < k < j ==> !t[k].Removed?
  }

  lemma SafeStep(s: State, p: nat)
    requires !Vulnerable(s) && p < |s.phases|
    ensures !Vulnerable(Step(s, p).0)
    ensures s.phases[p] == Holding ==> forall q: nat :: q < |s.phases| ==> !CanWrite(Step(s, p).0, q)
  {
    var r := Step(s, p).0;
    assert forall q: nat :: q < |s.phases| && q != p ==> r.phases[q] == s.phases[q];
    if s.phases[p] == Holding {
      forall q: nat | q < |s.phases| ensures !CanWrite(r, q) {
        assert CanWrite(s, p) && (q != p ==> !CanWrite(s, q));
      }
    } else {
      forall x: nat, y: nat | x < |s.phases| && y < |s.phases| && x != y && CanWrite(r, x) && CanWrite(r, y)
        ensures r.phases[y] == Ready
      {
        assert CanWrite(s, y) ==> s.phases[y] == Ready || !CanWrite(s, x);
        assert CanWrite(s, p) && CanWrite(s, x) && x != p ==> s.phases[x] == Ready;
        assert CanWrite(s, p) && CanWrite(s, y) && y != p ==> s.phases[y] == Ready;
      }
    }
  }

  /** When no process can get the lock any more, none will. */
  lemma {:induction false} NobodyLeft(s: State, schedule: seq<nat>)
    requires Scheduled(s, schedule) && forall p: nat :: p < |s.phases| ==> !CanWrite(s, p)
    ensures Writes(Trace(s, schedule)) == 0
    decreases |schedule|
  {
    if schedule == [] {
    } else {
      var (s', e) := Step(s, schedule[0]);
      assert !CanWrite(s, schedule[0]);
      forall p: nat | p < |s'.phases| ensures !CanWrite(s', p) {
        assert !CanWrite(s, p);
      }
      NobodyLeft(s', schedule[1..]);
      assert Trace(s, schedule)[1..] == Trace(s', schedule[1..]);
    }
  }

  lemma {:induction false} SafeWritesOnce(s: State, schedule: seq<nat>)
    requires Scheduled(s, schedule) && !Vulnerable(s)
    ensures Writes(Trace(s, schedule)) <= 1
    decreases |schedule|
  {
    hide Vulnerable;
    if schedule == [] {
    } else {
      var (s', e) := Step(s, schedule[0]);
      SafeStep(s, schedule[0]);
      if e.Wrote? { NobodyLeft(s', schedule[1..]); } else { SafeWritesOnce(s', schedule[1..]); }
      assert Trace(s, schedule)[1..] == Trace(s', schedule[1..]);
    }
  }

  lemma {:induction false} WriteCounted(t: seq<Event>, i: nat)
    requires i < |t| && t[i].Wrote?
    ensures Writes(t) == Writes(t[..i]) + 1 + Writes(t[i + 1..])
  {
    assert t == t[..i] + ([t[i]] + t[i + 1..]);
    WritesJoined(t[..i], [t[i]] + t[i + 1..]);
    assert ([t[i]] + t[i + 1..])[1..] == t[i + 1..];
  }

  /** A process that can write gets the lock by its own steps, and the others stay where they are. */
  lemma Armed(s: State, p: nat) returns (a: seq<nat>)
    requires p < |s.phases| && CanWrite(s, p)
    ensures Scheduled(s, a) && After(s, a).phases == s.phases[p := Holding]
  {
    if s.phases[p] == Holding {
      a := [];
      assert s.phases[p := Holding] == s.phases;
    } else {
      var r := Step(s, p).0;
      if r.phases[p] == Holding {
        a := [p];
        assert a[1..] == [];
      } else {
        a := [p, p];
        assert a[1..] == [p] && a[1..][1..] == [];
        assert After(s, a) == After(r, [p]) == Step(r, p).0;
      }
    }
  }

  lemma LastTwo(s: State, p: nat, q: nat)
    requires p < |s.phases| && q < |s.phases| && p != q && s.phases[p] == s.phases[q] == Holding
    ensures Scheduled(s, [p, q]) && Trace(s, [p, q]) == [Wrote(p), Wrote(q)]
  {
    var s' := Step(s, p).0;
    var s'' := Step(s', q).0;
    NoStep(s'');
    OneStep(s', s'', q, Wrote(q), []);
    OneStep(s, s', p, Wrote(p), [q]);
    hide Step, Trace;
    assert [p] + [q] == [p, q] && [q] + [] == [q];
  }

  lemma BothWrite(s: State, p: nat, q: nat) returns (schedule: seq<nat>)
    requires p < |s.phases| && q < |s.phases| && p != q
    requires CanWrite(s, p) && CanWrite(s, q) && s.phases[q] != Ready
    ensures Scheduled(s, schedule) && Unseparated(Trace(s, schedule))
  {
    var a := Armed(s, p);
    var s1 := After(s, a);
    assert s1.phases[q] == s.phases[q];
    var b := Armed(s1, q);
    var s2 := After(s1, b);
    hide After, Trace, Step;
    AfterBoth(s, a, b);
    LastTwo(s2, p, q);
    AfterBoth(s, a + b, [p, q]);
    Joined(s, a + b, [p, q]);
    schedule := a + b + [p, q];
    var t, i := Trace(s, schedule), |a + b|;
    assert t[i] == Wrote(p) && t[i + 1] == Wrote(q);
  }

  /** Exactly when the protocol can fail: some run from here has two writes with no start between them if and only if
      two processes could write and one of them has not started, or holds the lock already. */
  lemma TwoCanWrite(s: State)
    ensures Vulnerable(s) <==> exists schedule :: Scheduled(s, schedule) && Unseparated(Trace(s, schedule))
  {
    if Vulnerable(s) {
      var p: nat, q: nat :| p < |s.phases| && q < |s.phases| && p != q
                            && CanWrite(s, p) && CanWrite(s, q) && s.phases[q] != Ready;
      var schedule := BothWrite(s, p, q);
    } else {
      hide Trace, Vulnerable;
      forall schedule | Scheduled(s, schedule) ensures !Unseparated(Trace(s, schedule)) {
        var t := Trace(s, schedule);
        SafeWritesOnce(s, schedule);
        forall i: nat, j: nat | i < j < |t| && t[i].Wrote? && t[j].Wrote? ensures false {
          WriteCounted(t, i);
          WriteCounted(t[i + 1..], j - i - 1);
        }
      }
    }
  }
}
