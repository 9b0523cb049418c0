/**
 * The atomic helpers: single operations made atomic by switching interrupts off, and the
 * compare-and-exchange loop built on them. The loop is proved to look like one atomic action under any
 * interleaving, and reference counting with `rt_atomic_inc_not_zero` is followed over every run.
 */
module Atomic {

  const MODULUS := 0x1_0000_0000

  /** `rt_atomic_t` on this 32-bit core, read as unsigned. */
  type Word = x: int | 0 <= x < MODULUS

  function Plus(x: Word, y: Word): Word {
    (x + y) % MODULUS
  }

  function Minus(x: Word, y: Word): Word {
    (x - y) % MODULUS
  }

  // ---------------------------------------------------------------- the loop, step by step

  /**
   * A thread inside `rt_atomic_fetch_add_unless(ptr, a, u)`: before the load; after a load or a failed
   * exchange that left c in the local variable, `stamp` being the number of changes of the cell at that moment;
   * or about to return.
   */
  datatype Thread =
    | Idle
    | Entered(a: Word, u: Word)
    | Read(a: Word, u: Word, c: Word, stamp: nat)
    | Done(ret: Word)

  datatype State = State(cell: Word, changes: nat, threads: seq<Thread>)

  /** Other(v) is any other atomic operation on the cell by anybody, leaving v. */
  datatype Event = Begin(t: nat, a: Word, u: Word) | Load(t: nat) | Leave(t: nat) | Exchange(t: nat) | Return(t: nat)
                 | Other(v: Word)

  predicate Enabled(s: State, e: Event) {
    match e
    case Begin(t, _, _) => t < |s.threads| && s.threads[t].Idle?
    case Load(t) => t < |s.threads| && s.threads[t].Entered?
    case Leave(t) => t < |s.threads| && s.threads[t].Read? && s.threads[t].c == s.threads[t].u
    case Exchange(t) => t < |s.threads| && s.threads[t].Read? && s.threads[t].c != s.threads[t].u
    case Return(t) => t < |s.threads| && s.threads[t].Done?
    case Other(_) => true
  }

  function Write(s: State, v: Word): State {
    if v == s.cell then s else s.(cell := v, changes := s.changes + 1)
  }

  function Apply(s: State, e: Event): State
    requires Enabled(s, e)
  {
    match e
    case Begin(t, a, u) => s.(threads := s.threads[t := Entered(a, u)])
    case Load(t) => s.(threads := s.threads[t := Read(s.threads[t].a, s.threads[t].u, s.cell, s.changes)])
    case Leave(t) => s.(threads := s.threads[t := Done(s.threads[t].c)])
    case Exchange(t) =>
      var th := s.threads[t];
      if s.cell != th.c then
        s.(threads := s.threads[t := Read(th.a, th.u, s.cell, s.changes)])
      else
        Write(s, Plus(th.c, th.a)).(threads := s.threads[t := Done(th.c)])
    case Return(t) => s.(threads := s.threads[t := Idle])
    case Other(v) => Write(s, v)
  }

  ghost predicate Feasible(s: State, es: seq<Event>)
    decreases |es|
  {
    es == [] || (Enabled(s, es[0]) && Feasible(Apply(s, es[0]), es[1..]))
  }

  ghost function Run(s: State, es: seq<Event>): State
    requires Feasible(s, es)
    decreases |es|
  {
    if es == [] then s else Run(Apply(s, es[0]), es[1..])
  }

  // ---------------------------------------------------------------- the atomic action it must look like

  datatype SpecThread = Away | Pending(a: Word, u: Word) | Finished(ret: Word)

  datatype Spec = Spec(cell: Word, threads: seq<SpecThread>)

  datatype SpecEvent = SBegin(t: nat, a: Word, u: Word) | Act(t: nat) | SReturn(t: nat) | SOther(v: Word)

  predicate SpecEnabled(s: Spec, e: SpecEvent) {
    match e
    case SBegin(t, _, _) => t < |s.threads| && s.threads[t].Away?
    case Act(t) => t < |s.threads| && s.threads[t].Pending?
    case SReturn(t) => t < |s.threads| && s.threads[t].Finished?
    case SOther(_) => true
  }

  /** Act reads the cell, adds unless it reads u, and fixes the result, all in one step. */
  function SpecApply(s: Spec, e: SpecEvent): Spec
    requires SpecEnabled(s, e)
  {
    match e
    case SBegin(t, a, u) => s.(threads := s.threads[t := Pending(a, u)])
    case Act(t) =>
      var th := s.threads[t];
      Spec(if s.cell == th.u then s.cell else Plus(s.cell, th.a), s.threads[t := Finished(s.cell)])
    case SReturn(t) => s.(threads := s.threads[t := Away])
    case SOther(v) => s.(cell := v)
  }

  ghost predicate SpecFeasible(s: Spec, es: seq<SpecEvent>)
    decreases |es|
  {
    es == [] || (SpecEnabled(s, es[0]) && SpecFeasible(SpecApply(s, es[0]), es[1..]))
  }

  ghost function SpecRun(s: Spec, es: seq<SpecEvent>): Spec
    requires SpecFeasible(s, es)
    decreases |es|
  {
    if es == [] then s else SpecRun(SpecApply(s, es[0]), es[1..])
  }

  /** What a caller can see: calls, returned values, and the other operations on the cell. */
  datatype Observation = Called(t: nat, a: Word, u: Word) | Returned(t: nat, ret: Word) | Wrote(v: Word)

  function Seen(s: State, e: Event): seq<Observation>
    requires Enabled(s, e)
  {
    match e
    case Begin(t, a, u) => [Called(t, a, u)]
    case Return(t) => [Returned(t, s.threads[t].ret)]
    case Other(v) => [Wrote(v)]
    case _ => []
  }

  function SpecSeen(s: Spec, e: SpecEvent): seq<Observation>
    requires SpecEnabled(s, e)
  {
    match e
    case SBegin(t, a, u) => [Called(t, a, u)]
    case SReturn(t) => [Returned(t, s.threads[t].ret)]
    case SOther(v) => [Wrote(v)]
    case Act(_) => []
  }

  ghost function Trace(s: State, es: seq<Event>): seq<Observation>
    requires Feasible(s, es)
    decreases |es|
  {
    if es == [] then [] else Seen(s, es[0]) + Trace(Apply(s, es[0]), es[1..])
  }

  ghost function SpecTrace(s: Spec, es: seq<SpecEvent>): seq<Observation>
    requires SpecFeasible(s, es)
    decreases |es|
  {
    if es == [] then [] else SpecSeen(s, es[0]) + SpecTrace(SpecApply(s, es[0]), es[1..])
  }

  /** A thread that has read u has already acted: it can only leave the loop and return u. */
  function AbsThread(th: Thread): SpecThread {
    match th
    case Idle => Away
    case Entered(a, u) => Pending(a, u)
    case Read(a, u, c, _) => if c == u then Finished(c) else Pending(a, u)
    case Done(ret) => Finished(ret)
  }

  function Abs(s: State): Spec {
    Spec(s.cell, seq(|s.threads|, i requires 0 <= i < |s.threads| => AbsThread(s.threads[i])))
  }

  lemma AbsUpdate(threads: seq<Thread>, t: nat, th: Thread, cell: Word, changes: nat)
    requires t < |threads|
    ensures Abs(State(cell, changes, threads[t := th])).threads
         == Abs(State(cell, changes, threads)).threads[t := AbsThread(th)]
  {
  }

  /** The atomic steps that one step of the loop stands for: none, or one with the same observation. */
  function Meaning(s: State, e: Event): seq<SpecEvent>
    requires Enabled(s, e)
  {
    match e
    case Begin(t, a, u) => [SBegin(t, a, u)]
    case Load(t) => if s.cell == s.threads[t].u then [Act(t)] else []
    case Leave(t) => []
    case Exchange(t) => if s.cell == s.threads[t].c || s.cell == s.threads[t].u then [Act(t)] else []
    case Return(t) => [SReturn(t)]
    case Other(v) => [SOther(v)]
  }

  lemma StepRefines(s: State, e: Event)
    requires Enabled(s, e)
    ensures var m := Meaning(s, e);
            if m == [] then Abs(Apply(s, e)) == Abs(s) && Seen(s, e) == []
            else SpecEnabled(Abs(s), m[0]) && Abs(Apply(s, e)) == SpecApply(Abs(s), m[0])
                 && Seen(s, e) == SpecSeen(Abs(s), m[0])
  {
    if !e.Other? {
      var s' := Apply(s, e);
      AbsUpdate(s.threads, e.t, s'.threads[e.t], s'.cell, s'.changes);
      assert s'.threads == s.threads[e.t := s'.threads[e.t]];
      assert Abs(s).threads[e.t := Abs(s).threads[e.t]] == Abs(s).threads;
    }
  }

  /**
   * `rt_atomic_fetch_add_unless` is linearizable: every run of any number of threads and other atomic
   * operations has the same calls, results and cell values as a run in which each call acts in one step.
   */
  lemma {:induction false} Linearizable(s: State, es: seq<Event>) returns (spec: seq<SpecEvent>)
    requires Feasible(s, es)
    ensures SpecFeasible(Abs(s), spec)
    ensures SpecRun(Abs(s), spec) == Abs(Run(s, es))
    ensures SpecTrace(Abs(s), spec) == Trace(s, es)
    decreases |es|
  {
    if es == [] {
      spec := [];
    } else {
      StepRefines(s, es[0]);
      var rest := Linearizable(Apply(s, es[0]), es[1..]);
      spec := Meaning(s, es[0]) + rest;
      if Meaning(s, es[0]) == [] {
        assert spec == rest;
      } else {
        assert spec[1..] == rest;
      }
    }
  }

  // ---------------------------------------------------------------- retries

  ghost predicate ReadsCurrent(s: State) {
    forall t :: 0 <= t < |s.threads| && s.threads[t].Read? ==>
      && s.threads[t].stamp <= s.changes
      && (s.threads[t].stamp == s.changes ==> s.cell == s.threads[t].c)
  }

  lemma {:induction false} ReadsStayCurrent(s: State, es: seq<Event>)
    requires ReadsCurrent(s) && Feasible(s, es)
    ensures ReadsCurrent(Run(s, es))
    decreases |es|
  {
    if es != [] {
      ReadsStayCurrent(Apply(s, es[0]), es[1..]);
    }
  }

  /** Over every run: an exchange fails only if somebody changed the cell since this thread last read it. */
  lemma RetryMeansInterference(n: nat, cell: Word, es: seq<Event>, t: nat)
    requires Feasible(State(cell, 0, seq(n, _ => Idle)), es)
    requires Enabled(Run(State(cell, 0, seq(n, _ => Idle)), es), Exchange(t))
    ensures var s := Run(State(cell, 0, seq(n, _ => Idle)), es);
            Apply(s, Exchange(t)).threads[t].Read? ==> s.threads[t].stamp < s.changes
  {
    ReadsStayCurrent(State(cell, 0, seq(n, _ => Idle)), es);
  }

  // ---------------------------------------------------------------- reference counting

  /** The exchange that takes a reference. */
  predicate Takes(s: State, e: Event)
    requires Enabled(s, e)
  {
    e.Exchange? && s.cell == s.threads[e.t].c
  }

  /** Only `rt_atomic_inc_not_zero`, and decrements by holders of a reference, when `held` are out. */
  predicate RefStep(s: State, e: Event, held: nat) {
    && Enabled(s, e)
    && (e.Begin? ==> e.a == 1 && e.u == 0)
    && (e.Other? ==> 0 < held && e.v == Minus(s.cell, 1))
  }

  function HeldAfter(s: State, e: Event, held: nat): nat
    requires RefStep(s, e, held)
  {
    if Takes(s, e) then held + 1 else if e.Other? then held - 1 else held
  }

  ghost predicate RefRun(s: State, es: seq<Event>, held: nat)
    decreases |es|
  {
    es == [] || (RefStep(s, es[0], held) && RefRun(Apply(s, es[0]), es[1..], HeldAfter(s, es[0], held)))
  }

  lemma {:induction false} RefRunFeasible(s: State, es: seq<Event>, held: nat)
    requires RefRun(s, es, held)
    ensures Feasible(s, es)
    decreases |es|
  {
    if es != [] {
      RefRunFeasible(Apply(s, es[0]), es[1..], HeldAfter(s, es[0], held));
    }
  }

  ghost function RefEnd(s: State, es: seq<Event>, held: nat): (State, nat)
    requires RefRun(s, es, held)
    decreases |es|
  {
    if es == [] then (s, held) else RefEnd(Apply(s, es[0]), es[1..], HeldAfter(s, es[0], held))
  }

  ghost function Count(s: State, es: seq<Event>, held: nat): (r: (nat, nat))
    requires RefRun(s, es, held)
    decreases |es|
  {
    if es == [] then (0, 0) else
      var (taken, dropped) := Count(Apply(s, es[0]), es[1..], HeldAfter(s, es[0], held));
      (taken + if Takes(s, es[0]) then 1 else 0, dropped + if es[0].Other? then 1 else 0)
  }

  predicate CountingOnly(s: State) {
    forall t :: 0 <= t < |s.threads| && (s.threads[t].Entered? || s.threads[t].Read?) ==>
      s.threads[t].a == 1 && s.threads[t].u == 0
  }

  lemma CountStep(s: State, e: Event, held: nat)
    requires RefStep(s, e, held) && CountingOnly(s) && s.cell == held % MODULUS
    ensures CountingOnly(Apply(s, e)) && Apply(s, e).cell == HeldAfter(s, e, held) % MODULUS
  {
    if Takes(s, e) {
      assert (held % MODULUS + 1) % MODULUS == (held + 1) % MODULUS;
    } else if e.Other? {
      assert (held % MODULUS - 1) % MODULUS == (held - 1) % MODULUS;
    }
  }

  /**
   * Over every run the counter is the initial number of references plus successful increments minus
   * decrements, modulo the width of the counter.
   */
  lemma {:induction false} CounterCounts(s: State, es: seq<Event>, held: nat)
    requires RefRun(s, es, held) && CountingOnly(s) && s.cell == held % MODULUS
    ensures var (end, left) := RefEnd(s, es, held);
            var (taken, dropped) := Count(s, es, held);
            left == held + taken - dropped && end.cell == left % MODULUS && CountingOnly(end)
    decreases |es|
  {
    if es != [] {
      CountStep(s, es[0], held);
      CounterCounts(Apply(s, es[0]), es[1..], HeldAfter(s, es[0], held));
    }
  }

  lemma {:induction false} ZeroStays(s: State, es: seq<Event>)
    requires RefRun(s, es, 0) && CountingOnly(s) && s.cell == 0
    ensures RefEnd(s, es, 0).0.cell == 0 && RefEnd(s, es, 0).1 == 0
    decreases |es|
  {
    if es != [] {
      assert HeldAfter(s, es[0], 0) == 0;
      ZeroStays(Apply(s, es[0]), es[1..]);
    }
  }

  /**
   * A counter that reads zero stays zero over every further run exactly when no reference is out. It
   * reads zero with references out only once a full 2^32 of them have been taken.
   */
  lemma ZeroStaysIffNoneHeld(s: State, held: nat)
    requires CountingOnly(s) && s.cell == 0 == held % MODULUS
    ensures (forall es :: RefRun(s, es, held) ==> RefEnd(s, es, held).0.cell == 0) <==> held == 0
    ensures held == 0 <==> held < MODULUS
  {
    if held == 0 {
      forall es | RefRun(s, es, held)
        ensures RefEnd(s, es, held).0.cell == 0
      {
        ZeroStays(s, es);
      }
    } else {
      var es := [Other(Minus(s.cell, 1))];
      var s' := Apply(s, es[0]);
      assert RefRun(s', [], held - 1);
      assert RefRun(s, es, held);
      assert RefEnd(s, es, held) == RefEnd(s', [], held - 1) == (s', held - 1);
      assert s'.cell == MODULUS - 1;
    }
  }

  // ---------------------------------------------------------------- one call's log

  /** How often a run changed the cell by a successful exchange. */
  ghost function Additions(s: State, es: seq<Event>): nat
    requires Feasible(s, es)
    decreases |es|
  {
    if es == [] then 0
    else (if Takes(s, es[0]) then 1 else 0) + Additions(Apply(s, es[0]), es[1..])
  }

  lemma {:induction false} RunOn(s: State, es: seq<Event>, e: Event)
    requires Feasible(s, es) && Enabled(Run(s, es), e)
    ensures Feasible(s, es + [e]) && Run(s, es + [e]) == Apply(Run(s, es), e)
    ensures Additions(s, es + [e]) == Additions(s, es) + if Takes(Run(s, es), e) then 1 else 0
    decreases |es|
  {
    if es == [] {
      assert es + [e] == [e] && [e][1..] == [];
    } else {
      assert (es + [e])[1..] == es[1..] + [e];
      RunOn(Apply(s, es[0]), es[1..], e);
    }
  }

  /**
   * From s0 the run es leads to s and has n additions. It is a call of thread t, which does all of its own
   * steps in it, among any number of other atomic operations.
   */
  ghost predicate Logged(s0: State, es: seq<Event>, s: State, t: nat, a: Word, u: Word, n: nat) {
    && Feasible(s0, es) && Run(s0, es) == s && Additions(s0, es) == n
    && es != [] && es[0] == Begin(t, a, u)
    && (forall i :: 0 <= i < |es| ==> es[i].Other? || es[i].t == t)
    && t < |s.threads| == |s0.threads| && s.threads == s0.threads[t := s.threads[t]]
  }

  lemma LogOn(s0: State, es: seq<Event>, s: State, t: nat, a: Word, u: Word, n: nat, e: Event)
    requires Logged(s0, es, s, t, a, u, n) && Enabled(s, e) && (e.Other? || e.t == t)
    ensures Logged(s0, es + [e], Apply(s, e), t, a, u, n + if Takes(s, e) then 1 else 0)
  {
    RunOn(s0, es, e);
  }

  lemma LogBegin(s0: State, t: nat, a: Word, u: Word)
    requires Enabled(s0, Begin(t, a, u))
    ensures Logged(s0, [Begin(t, a, u)], Apply(s0, Begin(t, a, u)), t, a, u, 0)
  {
    var s := Apply(s0, Begin(t, a, u));
    assert [Begin(t, a, u)][1..] == [] && Feasible(s, []) && Run(s, []) == s && Additions(s, []) == 0;
  }

  // ---------------------------------------------------------------- the helpers themselves

  /** The cell, and the interrupt state that makes the single operations atomic. */
  class Cell {
    var value: Word
    var irqOn: bool

    constructor (v: Word)
      ensures value == v && irqOn
    {
      value, irqOn := v, true;
    }

    method InterruptDisable() returns (level: bool)
      modifies this`irqOn
      ensures level == old(irqOn) && !irqOn
    {
      level, irqOn := irqOn, false;
    }

    method InterruptEnable(level: bool)
      modifies this`irqOn
      ensures irqOn == level
    {
      irqOn := level;
    }

    method Load() returns (temp: Word)
      modifies this`irqOn
      ensures temp == value && irqOn == old(irqOn)
    {
      var level := InterruptDisable();
      temp := value;
      InterruptEnable(level);
    }

    method Store(v: Word)
      modifies this
      ensures value == v && irqOn == old(irqOn)
    {
      var level := InterruptDisable();
      value := v;
      InterruptEnable(level);
    }

    method Swap(v: Word) returns (temp: Word)
      modifies this
      ensures temp == old(value) && value == v && irqOn == old(irqOn)
    {
      var level := InterruptDisable();
      temp, value := value, v;
      InterruptEnable(level);
    }

    method Add(v: Word) returns (temp: Word)
      modifies this
      ensures temp == old(value) && value == Plus(temp, v) && irqOn == old(irqOn)
    {
      var level := InterruptDisable();
      temp := value;
      value := Plus(value, v);
      InterruptEnable(level);
    }

    method Sub(v: Word) returns (temp: Word)
      modifies this
      ensures temp == old(value) && value == Minus(temp, v) && irqOn == old(irqOn)
    {
      var level := InterruptDisable();
      temp := value;
      value := Minus(value, v);
      InterruptEnable(level);
    }

    method FlagTestAndSet() returns (temp: Word)
      modifies this
      ensures irqOn == old(irqOn)
      ensures temp == (if old(value) == 0 then 0 else 1) && value == if old(value) == 0 then 1 else old(value)
    {
      var level := InterruptDisable();
      if value == 0 {
        temp, value := 0, 1;
      } else {
        temp := 1;
      }
      InterruptEnable(level);
    }

    /** Returns the flag and what `*expected` holds afterwards. */
    method CompareExchangeStrong(expected: Word, desired: Word) returns (temp: Word, expected': Word)
      modifies this
      ensures irqOn == old(irqOn) && expected' == old(value)
      ensures temp == (if old(value) == expected then 1 else 0)
      ensures value == if old(value) == expected then desired else old(value)
    {
      var level := InterruptDisable();
      expected' := expected;
      if value != expected {
        expected', temp := value, 0;
      } else {
        value, temp := desired, 1;
      }
      InterruptEnable(level);
    }

    /** Other threads get in between two steps: they carry out the next batch of the script, if any. */
    method Interfere(script: seq<seq<Word>>, ghost s0: State, ghost es: seq<Event>, ghost s: State, ghost t: nat,
                     ghost a: Word, ghost u: Word, ghost n: nat)
      returns (rest: seq<seq<Word>>, ghost es': seq<Event>, ghost s': State)
      requires s.cell == value && Logged(s0, es, s, t, a, u, n)
      modifies this`value
      ensures s'.cell == value && Logged(s0, es', s', t, a, u, n) && s'.threads == s.threads
      ensures rest == if script == [] then [] else script[1..]
      ensures script == [] ==> s' == s
    {
      rest, es', s' := script, es, s;
      if script != [] {
        rest := script[1..];
        for i := 0 to |script[0]|
          invariant s'.cell == value && Logged(s0, es', s', t, a, u, n) && s'.threads == s.threads
        {
          LogOn(s0, es', s', t, a, u, n, Other(script[0][i]));
          es', s', value := es' + [Other(script[0][i])], Apply(s', Other(script[0][i])), script[0][i];
        }
      }
    }

    /**
     * `rt_atomic_fetch_add_unless` by thread t, among other threads that get in before the load, after it and
     * after every exchange, as often as the script has batches of their writes. The call is a run of the step
     * machine above, at the end of which the thread is about to return c; it has changed the cell once, or not
     * at all if c is u.
     */
    method FetchAddUnless(a: Word, u: Word, script: seq<seq<Word>>, ghost s0: State, ghost t: nat)
      returns (c: Word, ghost es: seq<Event>, ghost s: State)
      requires s0.cell == value && t < |s0.threads| && s0.threads[t].Idle?
      modifies this
      ensures irqOn == old(irqOn) && s.cell == value
      ensures Logged(s0, es, s, t, a, u, if c == u then 0 else 1) && s.threads[t] == Done(c)
    {
      LogBegin(s0, t, a, u);
      es, s := [Begin(t, a, u)], Apply(s0, Begin(t, a, u));
      var rest;
      rest, es, s := Interfere(script, s0, es, s, t, a, u, 0);
      c := Load();
      LogOn(s0, es, s, t, a, u, 0, Event.Load(t));
      es, s := es + [Event.Load(t)], Apply(s, Event.Load(t));
      rest, es, s := Interfere(rest, s0, es, s, t, a, u, 0);
      while c != u
        invariant irqOn == old(irqOn) && s.cell == value && Logged(s0, es, s, t, a, u, 0)
        invariant s.threads[t].Read? && s.threads[t].a == a && s.threads[t].u == u && s.threads[t].c == c
        decreases |rest|, value != c
      {
        ghost var taken := if value == c then 1 else 0;
        LogOn(s0, es, s, t, a, u, 0, Exchange(t));
        es, s := es + [Exchange(t)], Apply(s, Exchange(t));
        var ok, seen := CompareExchangeStrong(c, Plus(c, a));
        rest, es, s := Interfere(rest, s0, es, s, t, a, u, taken);
        if ok == 1 {
          return;
        }
        c := seen;
      }
      LogOn(s0, es, s, t, a, u, 0, Leave(t));
      es, s := es + [Leave(t)], Apply(s, Leave(t));
    }

    method AddUnless(a: Word, u: Word, script: seq<seq<Word>>, ghost s0: State, ghost t: nat)
      returns (added: bool, ghost es: seq<Event>, ghost s: State)
      requires s0.cell == value && t < |s0.threads| && s0.threads[t].Idle?
      modifies this
      ensures irqOn == old(irqOn) && s.cell == value && Logged(s0, es, s, t, a, u, if added then 1 else 0)
      ensures s.threads[t].Done? && (added <==> s.threads[t].ret != u)
    {
      var c;
      c, es, s := FetchAddUnless(a, u, script, s0, t);
      added := c != u;
    }

    method IncNotZero(script: seq<seq<Word>>, ghost s0: State, ghost t: nat)
      returns (taken: bool, ghost es: seq<Event>, ghost s: State)
      requires s0.cell == value && t < |s0.threads| && s0.threads[t].Idle?
      modifies this
      ensures irqOn == old(irqOn) && s.cell == value && Logged(s0, es, s, t, 1, 0, if taken then 1 else 0)
      ensures s.threads[t].Done? && (taken <==> s.threads[t].ret != 0)
    {
      taken, es, s := AddUnless(1, 0, script, s0, t);
    }
  }
}
