/**
 How a cycle starts: flip takes every free_lock, stop_all_mutators_and_save_state signals
 every live thread, waits until all have entered the handler, turns the barrier on, swaps
 the colours, releases the free_locks and waits until all have saved their state.  When the
 marking is done the barrier is turned off again.  Any number of threads run between any two
 steps.
 */
module Handshake {
  datatype Owner = Nobody | Collector | Thread(t: int)

  datatype Pc =
    | Idle
    | Locking(k: nat)      // the first k free_locks taken
    | Locked
    | Signalling(k: nat)   // threads_lock held, the first k live threads signalled
    | WaitEntered
    | BarrierOn
    | Swapped
    | Unlocking(k: nat)
    | WaitCopied
    | Collecting           // the rest of the cycle

  datatype Handler = Out | Entered | RegistersSaved | StackSaved

  /** enteredBy, copiedBy, saves, allocations and allocationsAtLock are histories: no step tests them. */
  datatype State = State(
    locks: seq<Owner>,
    gc: Pc,
    threadsLocked: bool,
    live: seq<int>,
    entered: nat,
    copied: nat,
    toHalt: nat,
    barrier: bool,
    swaps: nat,
    index: map<int, nat>,
    pending: set<int>,
    handler: map<int, Handler>,
    registers: map<nat, int>,
    stacks: map<nat, int>,
    enteredBy: set<int>,
    copiedBy: set<int>,
    saves: map<int, nat>,
    allocations: nat,
    allocationsAtLock: nat)

  datatype Step =
    // flip and stop_all_mutators_and_save_state
    | LockFree
    | AllLocked
    | ResetAndLockThreads
    | Signal
    | AllSignalled
    | EnableBarrier
    | Swap
    | UnlockFree
    | AllUnlocked
    | AllCopied
    // full_gc, when the sweep has found nothing
    | DisableBarrier
    // gc_flip_action_func on thread t
    | Enter(t: int)
    | SaveRegisters(t: int)
    | SaveStack(t: int)
    | Return(t: int)
    // RTallocate on thread t in group g
    | BeginAllocation(t: int, g: nat)
    | Allocate(t: int, g: nat)
    | EndAllocation(t: int, g: nat)
    // make_thread_live and free_thread
    | Spawn(t: int)
    | Exit(t: int)

  predicate Running(s: State, t: int) { t in s.live && t in s.handler && s.handler[t].Out? }

  predicate Handling(s: State, t: int, h: Handler) { t in s.handler && s.handler[t] == h && t in s.index }

  ghost predicate Enabled(s: State, st: Step) {
    match st
    case LockFree =>
      (s.gc.Idle? && |s.locks| > 0 && s.locks[0].Nobody?) ||
      (s.gc.Locking? && s.gc.k < |s.locks| && s.locks[s.gc.k].Nobody?)
    case AllLocked => s.gc.Locking? && s.gc.k == |s.locks|
    case ResetAndLockThreads => s.gc.Locked? && !s.threadsLocked
    case Signal => s.gc.Signalling? && s.gc.k < |s.live|
    case AllSignalled => s.gc.Signalling? && s.gc.k == |s.live|
    case EnableBarrier => s.gc.WaitEntered? && s.entered == s.toHalt
    case Swap => s.gc.BarrierOn?
    case UnlockFree => s.gc.Swapped? || (s.gc.Unlocking? && s.gc.k < |s.locks|)
    case AllUnlocked => s.gc.Unlocking? && s.gc.k == |s.locks|
    case AllCopied => s.gc.WaitCopied? && s.copied == s.toHalt
    case DisableBarrier => s.gc.Collecting?
    case Enter(t) => t in s.pending && t in s.handler && s.handler[t].Out?
    case SaveRegisters(t) => Handling(s, t, Entered)
    case SaveStack(t) => Handling(s, t, RegistersSaved)
    case Return(t) => Handling(s, t, StackSaved)
    case BeginAllocation(t, g) => Running(s, t) && g < |s.locks| && s.locks[g].Nobody?
    case Allocate(t, g) => Running(s, t) && g < |s.locks| && s.locks[g] == Thread(t)
    case EndAllocation(t, g) => Running(s, t) && g < |s.locks| && s.locks[g] == Thread(t)
    case Spawn(t) => !s.threadsLocked && t !in s.live
    case Exit(t) => !s.threadsLocked && Running(s, t) && Thread(t) !in s.locks
  }

  function Without(live: seq<int>, t: int): seq<int> {
    if live == [] then [] else if live[0] == t then live[1..] else [live[0]] + Without(live[1..], t)
  }

  ghost function After(s: State, st: Step): State
    requires Enabled(s, st)
  {
    match st
    case LockFree =>
      var k := if s.gc.Idle? then 0 else s.gc.k;
      s.(locks := s.locks[k := Collector], gc := Locking(k + 1))
    case AllLocked => s.(gc := Locked, allocationsAtLock := s.allocations)
    case ResetAndLockThreads =>
      s.(entered := 0, copied := 0, threadsLocked := true, toHalt := 0, gc := Signalling(0),
      enteredBy := {}, copiedBy := {}, saves := map t | t in s.live :: 0)
    case Signal =>
      var t := s.live[s.gc.k];
      s.(index := s.index[t := s.toHalt], toHalt := s.toHalt + 1, pending := s.pending + {t},
         gc := Signalling(s.gc.k + 1))
    case AllSignalled => s.(gc := WaitEntered)
    case EnableBarrier => s.(barrier := true, gc := BarrierOn)
    case Swap => s.(swaps := s.swaps + 1, gc := Swapped)
    case UnlockFree =>
      var k := if s.gc.Swapped? then 0 else s.gc.k;
      if k < |s.locks| then s.(locks := s.locks[k := Nobody], gc := Unlocking(k + 1)) else s.(gc := Unlocking(k))
    case AllUnlocked => s.(gc := WaitCopied)
    case AllCopied => s.(threadsLocked := false, gc := Collecting)
    case DisableBarrier => s.(barrier := false, gc := Idle)
    case Enter(t) =>
      s.(pending := s.pending - {t}, handler := s.handler[t := Entered], entered := s.entered + 1,
         enteredBy := s.enteredBy + {t})
    case SaveRegisters(t) =>
      s.(registers := s.registers[s.index[t] := t], handler := s.handler[t := RegistersSaved])
    case SaveStack(t) =>
      s.(stacks := s.stacks[s.index[t] := t], handler := s.handler[t := StackSaved],
      saves := s.saves[t := 1 + if t in s.saves then s.saves[t] else 0])
    case Return(t) =>
      s.(copied := s.copied + 1, copiedBy := s.copiedBy + {t}, handler := s.handler[t := Out])
    case BeginAllocation(t, g) => s.(locks := s.locks[g := Thread(t)])
    case Allocate(t, g) => s.(allocations := s.allocations + 1)
    case EndAllocation(t, g) => s.(locks := s.locks[g := Nobody])
    case Spawn(t) => s.(live := [t] + s.live, handler := s.handler[t := Out])
    case Exit(t) => s.(live := Without(s.live, t))
  }

  ghost predicate Init(s: State) {
    && s.gc.Idle? && !s.barrier && !s.threadsLocked && |s.locks| > 0
    && s.live == [] && s.pending == {} && s.handler == map[]
    && forall g | 0 <= g < |s.locks| :: s.locks[g].Nobody?
  }

  ghost predicate Next(s: State, t: State) { exists st :: Enabled(s, st) && t == After(s, st) }

  ghost predicate StepAt(run: seq<State>, k: nat)
    requires k + 1 < |run|
  {
    Next(run[k], run[k + 1])
  }

  ghost predicate Run(run: seq<State>) {
    run != [] && Init(run[0]) && forall k: nat | k + 1 < |run| :: StepAt(run, k)
  }

  // ---------------------------------------------------------------- the invariant

  function Threads(live: seq<int>): set<int> { set t | t in live }

  /** Live threads already signalled in this cycle. */
  function Signalled(s: State): nat {
    if s.gc.Signalling? then s.gc.k else if s.threadsLocked then |s.live| else 0
  }

  /** The collector owns every free_lock. */
  predicate AllHeld(gc: Pc) {
    gc.Locked? || gc.Signalling? || gc.WaitEntered? || gc.BarrierOn? || gc.Swapped?
  }

  /** From the end of the entered wait to the end of the marking. */
  predicate BarrierPhase(gc: Pc) {
    gc.BarrierOn? || gc.Swapped? || gc.Unlocking? || gc.WaitCopied? || gc.Collecting?
  }

  predicate LocksOk(s: State) {
    forall g | 0 <= g < |s.locks| ::
      s.locks[g].Collector? <==>
        AllHeld(s.gc) || (s.gc.Locking? && g < s.gc.k) || (s.gc.Unlocking? && g >= s.gc.k)
  }

  predicate PhaseOk(s: State) {
    && |s.locks| > 0
    && (s.gc.Locking? || s.gc.Unlocking? ==> s.gc.k <= |s.locks|)
    && (s.gc.Signalling? ==> s.gc.k <= |s.live| && s.toHalt == s.gc.k)
    && (s.threadsLocked <==> !s.gc.Idle? && !s.gc.Locking? && !s.gc.Locked? && !s.gc.Collecting?)
    && (s.barrier <==> BarrierPhase(s.gc))
    && (s.threadsLocked && !s.gc.Signalling? ==> s.toHalt == |s.live|)
    && (AllHeld(s.gc) ==> s.allocations == s.allocationsAtLock)
  }

  /** Where thread t of the live list is in this cycle's handler. */
  predicate ThreadOk(s: State, i: nat)
    requires i < |s.live|
  {
    var t := s.live[i];
    && t in s.handler
    && (s.threadsLocked ==> t in s.saves)
    && (i >= Signalled(s) ==> t !in s.pending && s.handler[t].Out?)
    && (s.threadsLocked && i >= Signalled(s) ==> t !in s.enteredBy && t !in s.copiedBy && s.saves[t] == 0)
    && (s.threadsLocked && i < Signalled(s) ==>
          && t in s.index && s.index[t] == i
          && (t in s.pending <==> t !in s.enteredBy)
          && (t !in s.enteredBy ==> s.handler[t].Out? && t !in s.copiedBy)
          && (t in s.enteredBy ==> (s.handler[t].Out? <==> t in s.copiedBy))
          && s.saves[t] == (if s.handler[t].StackSaved? || t in s.copiedBy then 1 else 0)
          && (s.handler[t].RegistersSaved? || s.handler[t].StackSaved? || t in s.copiedBy ==>
              i in s.registers && s.registers[i] == t)
          && (s.handler[t].StackSaved? || t in s.copiedBy ==> i in s.stacks && s.stacks[i] == t))
  }

  ghost predicate CountsOk(s: State) {
    && (forall i, j | 0 <= i < j < |s.live| :: s.live[i] != s.live[j])
    && s.pending <= Threads(s.live)
    && (forall t | t in s.handler && !s.handler[t].Out? :: t in s.live)
    && (s.threadsLocked ==>
          && s.enteredBy <= Threads(s.live) && s.copiedBy <= Threads(s.live)
          && s.entered == |s.enteredBy| && s.copied == |s.copiedBy|)
  }

  ghost predicate Inv(s: State) {
    PhaseOk(s) && LocksOk(s) && CountsOk(s) && forall i: nat | i < |s.live| :: ThreadOk(s, i)
  }

  lemma InvInit(s: State)
    requires Init(s)
    ensures Inv(s)
  {}

  lemma {:induction false} ThreadsCount(live: seq<int>)
    requires forall i, j | 0 <= i < j < |live| :: live[i] != live[j]
    ensures |Threads(live)| == |live|
  {
    if live != [] {
      ThreadsCount(live[1..]);
      assert Threads(live) == Threads(live[1..]) + {live[0]};
    }
  }

  lemma {:induction false} WithoutMembers(live: seq<int>, t: int)
    requires forall i, j | 0 <= i < j < |live| :: live[i] != live[j]
    ensures forall x :: x in Without(live, t) <==> x in live && x != t
    ensures forall i, j | 0 <= i < j < |Without(live, t)| :: Without(live, t)[i] != Without(live, t)[j]
  {
    if live != [] {
      var rest := live[1..];
      WithoutMembers(rest, t);
      assert live == [live[0]] + rest;
      assert live[0] !in rest;
      var r := Without(live, t);
      if live[0] != t {
        forall i, j | 0 <= i < j < |r| ensures r[i] != r[j] {
          assert r[j] == Without(rest, t)[j - 1] && r[j] in Without(rest, t);
        }
      }
    }
  }

  /** A subset as large as the whole is the whole. */
  lemma FullSubset(a: set<int>, b: set<int>)
    requires a <= b && |a| == |b|
    ensures a == b
  {
    assert b == a + (b - a);
    assert |b| == |a| + |b - a|;
  }

  predicate CollectorStep(st: Step) {
    st.LockFree? || st.AllLocked? || st.ResetAndLockThreads? || st.Signal? || st.AllSignalled? || st.EnableBarrier? ||
    st.Swap? || st.UnlockFree? || st.AllUnlocked? || st.AllCopied? || st.DisableBarrier?
  }

  predicate HandlerStep(st: Step) { st.Enter? || st.SaveRegisters? || st.SaveStack? || st.Return? }

  predicate LockStep(st: Step) {
    st.LockFree? || st.AllLocked? || st.EnableBarrier? || st.Swap? || st.UnlockFree? || st.AllUnlocked? ||
    st.DisableBarrier?
  }

  /** Steps that move the collector or its locks only. */
  lemma InvLocks(s: State, st: Step)
    requires Inv(s) && Enabled(s, st) && LockStep(st)
    ensures Inv(After(s, st))
  {
    var t := After(s, st);
    LocksMove(s, st);
    forall i: nat | i < |t.live| ensures ThreadOk(t, i) { assert ThreadOk(s, i); }
  }

  lemma LocksMove(s: State, st: Step)
    requires PhaseOk(s) && LocksOk(s) && Enabled(s, st) && LockStep(st)
    ensures PhaseOk(After(s, st)) && LocksOk(After(s, st))
  {}

  lemma InvPhases(s: State, st: Step)
    requires Inv(s) && Enabled(s, st) && CollectorStep(st) && !LockStep(st)
    ensures Inv(After(s, st))
  {
    var t := After(s, st);
    forall i: nat | i < |t.live| ensures ThreadOk(t, i) {
      assert ThreadOk(s, i);
      if st.AllCopied? { EverybodySaved(s); }
    }
    if st.Signal? { assert ThreadOk(s, s.gc.k) && s.live[s.gc.k] in Threads(s.live); }
  }

  /** Once the copied count has reached the number of threads, every thread has been through the handler. */
  lemma EverybodySaved(s: State)
    requires Inv(s) && s.gc.WaitCopied? && s.copied == s.toHalt
    ensures s.copiedBy == Threads(s.live) == s.enteredBy
    ensures forall i: nat | i < |s.live| ::
              && s.live[i] in s.copiedBy && s.live[i] !in s.pending
              && s.live[i] in s.index && s.index[s.live[i]] == i
              && s.live[i] in s.saves && s.saves[s.live[i]] == 1
              && i in s.registers && s.registers[i] == s.live[i] && i in s.stacks && s.stacks[i] == s.live[i]
              && s.live[i] in s.handler && s.handler[s.live[i]].Out?
  {
    ThreadsCount(s.live);
    FullSubset(s.copiedBy, Threads(s.live));
    forall i: nat | i < |s.live| ensures s.live[i] in s.copiedBy && ThreadOk(s, i) && s.live[i] in s.enteredBy {
      assert s.live[i] in Threads(s.live) && ThreadOk(s, i);
    }
    forall t | t in Threads(s.live) ensures t in s.enteredBy {
      var i :| 0 <= i < |s.live| && s.live[i] == t;
      assert ThreadOk(s, i);
    }
  }

  /** What a handler step needs to know about its thread. */
  lemma HandlerPlace(s: State, st: Step) returns (i: nat)
    requires Inv(s) && Enabled(s, st) && HandlerStep(st)
    ensures i < |s.live| && s.live[i] == st.t && ThreadOk(s, i) && s.threadsLocked && i < Signalled(s)
    ensures st.t in Threads(s.live)
  {
    i :| 0 <= i < |s.live| && s.live[i] == st.t;
    assert ThreadOk(s, i);
  }

  lemma InvHandler(s: State, st: Step)
    requires Inv(s) && Enabled(s, st) && HandlerStep(st)
    ensures Inv(After(s, st))
  {
    var t := After(s, st);
    var i := HandlerPlace(s, st);
    HandlerCounts(s, st, i);
    forall j: nat | j < |t.live| ensures ThreadOk(t, j) {
      assert ThreadOk(s, j);
      if j == i { HandlerSelf(s, st, i); } else { HandlerOther(s, st, i, j); }
    }
  }

  lemma HandlerCounts(s: State, st: Step, i: nat)
    requires CountsOk(s) && Enabled(s, st) && HandlerStep(st) && i < |s.live| && s.live[i] == st.t && ThreadOk(s, i)
    requires s.threadsLocked && i < Signalled(s) && st.t in Threads(s.live)
    ensures CountsOk(After(s, st))
  {}

  lemma HandlerSelf(s: State, st: Step, i: nat)
    requires Enabled(s, st) && HandlerStep(st) && i < |s.live| && s.live[i] == st.t && ThreadOk(s, i)
    requires s.threadsLocked && i < Signalled(s)
    ensures ThreadOk(After(s, st), i)
  {}

  lemma HandlerOther(s: State, st: Step, i: nat, j: nat)
    requires Enabled(s, st) && HandlerStep(st) && i < |s.live| && s.live[i] == st.t && ThreadOk(s, i)
    requires s.threadsLocked && i < Signalled(s) && j < |s.live| && s.live[j] != st.t && ThreadOk(s, j) && i != j
    ensures ThreadOk(After(s, st), j)
  {}

  lemma InvAllocation(s: State, st: Step)
    requires Inv(s) && Enabled(s, st) && (st.BeginAllocation? || st.Allocate? || st.EndAllocation?)
    ensures Inv(After(s, st))
  {
    var t := After(s, st);
    assert s.locks[st.g] in s.locks;
    forall j: nat | j < |t.live| ensures ThreadOk(t, j) { assert ThreadOk(s, j); }
  }

  lemma InvThreads(s: State, st: Step)
    requires Inv(s) && Enabled(s, st) && (st.Spawn? || st.Exit?)
    ensures Inv(After(s, st))
  {
    var t := After(s, st);
    if st.Exit? { WithoutMembers(s.live, st.t); }
    NobodyPending(s);
    forall j: nat | j < |t.live| ensures ThreadOk(t, j) {
      if t.live[j] in s.live {
        var i :| 0 <= i < |s.live| && s.live[i] == t.live[j];
        assert ThreadOk(s, i);
      }
    }
    forall x | x in t.handler && !t.handler[x].Out? ensures x in t.live {
      if x in s.live {
        var i :| 0 <= i < |s.live| && s.live[i] == x;
        assert ThreadOk(s, i);
      }
    }
  }

  lemma NobodyPending(s: State)
    requires Inv(s) && !s.threadsLocked
    ensures s.pending == {}
  {
    forall t ensures t !in s.pending {
      if t in s.live {
        var i :| 0 <= i < |s.live| && s.live[i] == t;
        assert ThreadOk(s, i);
      }
    }
  }

  lemma InvNext(s: State, st: Step)
    requires Inv(s) && Enabled(s, st)
    ensures Inv(After(s, st))
  {
    hide Inv, Enabled, After;
    if LockStep(st) { InvLocks(s, st); }
    else if CollectorStep(st) { InvPhases(s, st); }
    else if HandlerStep(st) { InvHandler(s, st); }
    else if st.Spawn? || st.Exit? { InvThreads(s, st); }
    else { InvAllocation(s, st); }
  }

  lemma {:induction false} InvRun(run: seq<State>, k: nat)
    requires Run(run) && k < |run|
    ensures Inv(run[k])
  {
    hide Inv, Init, Enabled, After;
    if k == 0 {
      InvInit(run[0]);
    } else {
      InvRun(run, k - 1);
      assert StepAt(run, k - 1);
      var st :| Enabled(run[k - 1], st) && run[k] == After(run[k - 1], st);
      InvNext(run[k - 1], st);
    }
  }

  // ---------------------------------------------------------------- what the handshake promises

  /** When the copied wait ends, every live thread has saved exactly once, into a slot of its own. */
  lemma EveryThreadSavedOnce(run: seq<State>, k: nat)
    requires Run(run) && k < |run| && run[k].gc.WaitCopied? && run[k].copied == run[k].toHalt
    ensures var s := run[k];
            && s.toHalt == |s.live|
            && (forall t | t in s.live :: t in s.saves && s.saves[t] == 1 && t in s.index && s.index[t] < s.toHalt
                  && s.index[t] in s.registers && s.registers[s.index[t]] == t
                  && s.index[t] in s.stacks && s.stacks[s.index[t]] == t)
            && (forall t, u | t in s.live && u in s.live && t != u ::
                  t in s.index && u in s.index && s.index[t] != s.index[u])
  {
    var s := run[k];
    InvRun(run, k);
    EverybodySaved(s);
    forall t | t in s.live ensures t in s.index && 0 <= s.index[t] < |s.live| && s.live[s.index[t]] == t {
      var i :| 0 <= i < |s.live| && s.live[i] == t;
      assert s.index[s.live[i]] == i;
    }
  }

  /** From the moment all free_locks are taken until the colours have been swapped nobody allocates. */
  lemma NoAllocationBeforeTheSwap(run: seq<State>, k: nat)
    requires Run(run) && k < |run| && AllHeld(run[k].gc)
    ensures run[k].allocations == run[k].allocationsAtLock
    ensures forall g, t | 0 <= g < |run[k].locks| :: run[k].locks[g] != Thread(t)
    ensures forall t, g :: !Enabled(run[k], BeginAllocation(t, g)) && !Enabled(run[k], Allocate(t, g))
  {
    InvRun(run, k);
  }

  /** The step from state i to i + 1 is the one with which the collector has all free_locks. */
  predicate TakesAll(run: seq<State>, i: nat)
    requires i + 1 < |run|
  {
    run[i].gc.Locking? && run[i + 1].gc.Locked?
  }

  /** How often the colours have been swapped, if it was n times when the free_locks were taken. */
  predicate SwappedSince(n: nat, s: State) {
    s.swaps == if s.gc.Locked? || s.gc.Signalling? || s.gc.WaitEntered? || s.gc.BarrierOn? then n else n + 1
  }

  /** What a step makes of the count of swaps. */
  predicate SwapsOn(s: State, t: State, n: nat) {
    && (SwappedSince(n, s) && !(s.gc.Locking? && t.gc.Locked?) ==> SwappedSince(n, t))
    && (s.gc.Locking? && t.gc.Locked? ==> SwappedSince(s.swaps, t))
  }

  lemma LocksSwap(s: State, st: Step, n: nat)
    requires Enabled(s, st) && LockStep(st)
    ensures SwapsOn(s, After(s, st), n)
  {}

  lemma PhasesDoNotSwap(s: State, st: Step, n: nat)
    requires Enabled(s, st) && CollectorStep(st) && !LockStep(st)
    ensures SwapsOn(s, After(s, st), n)
  {}

  lemma OthersDoNotSwap(s: State, st: Step)
    requires Enabled(s, st) && !CollectorStep(st)
    ensures After(s, st).gc == s.gc && After(s, st).swaps == s.swaps
  {}

  lemma SwapsStep(s: State, st: Step, n: nat)
    requires Enabled(s, st)
    ensures SwapsOn(s, After(s, st), n)
  {
    if LockStep(st) {
      LocksSwap(s, st, n);
    } else if CollectorStep(st) {
      PhasesDoNotSwap(s, st, n);
    } else {
      OthersDoNotSwap(s, st);
      hide After, Enabled, CollectorStep;
    }
  }

  lemma SwapsNext(s: State, t: State, n: nat)
    requires Next(s, t)
    ensures SwapsOn(s, t, n)
  {
    var st :| Enabled(s, st) && t == After(s, st);
    hide Enabled, After, SwappedSince;
    SwapsStep(s, st, n);
  }

  lemma {:induction false} SwapsSince(run: seq<State>, i: nat, k: nat)
    requires Run(run) && i < k < |run| && TakesAll(run, i) && forall j: nat | i < j < k :: !TakesAll(run, j)
    ensures SwappedSince(run[i].swaps, run[k])
    decreases k
  {
    hide Next, Init, SwappedSince;
    assert StepAt(run, k - 1);
    if k == i + 1 {
      SwapsNext(run[i], run[k], 0);
    } else {
      SwapsSince(run, i, k - 1);
      assert !TakesAll(run, k - 1);
      SwapsNext(run[k - 1], run[k], run[i].swaps);
    }
  }

  /**
   What the handshake does.  After the collector has taken all free_locks in state i, and
   until it does so again: the colours are as they were up to the swap, and have been
   swapped once from then on; the barrier is on from before the swap to the end of the
   marking, and off at all other times.
   */
  lemma BarrierAndSwap(run: seq<State>, i: nat, k: nat)
    requires Run(run) && i < k < |run| && TakesAll(run, i) && forall j: nat | i < j < k :: !TakesAll(run, j)
    ensures var s := run[k];
            && (s.gc.Locked? || s.gc.Signalling? || s.gc.WaitEntered? ==> !s.barrier && s.swaps == run[i].swaps)
            && (s.gc.BarrierOn? ==> s.barrier && s.swaps == run[i].swaps)
            && (s.gc.Swapped? || s.gc.Unlocking? || s.gc.WaitCopied? || s.gc.Collecting? ==>
                  s.barrier && s.swaps == run[i].swaps + 1)
            && (s.gc.Idle? || s.gc.Locking? ==> !s.barrier && s.swaps == run[i].swaps + 1)
  {
    InvRun(run, k);
    SwapsSince(run, i, k);
  }

  /** Thread t lets go of free_lock g in the step from state i to i + 1. */
  ghost predicate LetsGo(run: seq<State>, i: nat, t: int, g: nat) {
    i + 1 < |run| && Enabled(run[i], EndAllocation(t, g)) && run[i + 1] == After(run[i], EndAllocation(t, g))
  }

  predicate Owns(s: State, t: int, g: nat) { g < |s.locks| && s.locks[g] == Thread(t) }

  lemma OwnsNext(s: State, st: Step, t: int, g: nat)
    requires Inv(s) && Enabled(s, st) && Owns(s, t, g)
    ensures Owns(After(s, st), t, g) || (st == EndAllocation(t, g) && After(s, st).locks[g].Nobody?)
  {}

  /**
   A free_lock is a lock.  From the step with which thread t takes it until the step with
   which t lets it go it stays t's, so that no other thread is inside, and the collector
   does not have all free_locks.
   */
  lemma {:induction false} LockIsHeld(run: seq<State>, i: nat, k: nat, t: int, g: nat)
    requires Run(run) && i < k < |run| && Enabled(run[i], BeginAllocation(t, g))
    requires run[i + 1] == After(run[i], BeginAllocation(t, g))
    requires forall j: nat | i < j < k :: !LetsGo(run, j, t, g)
    ensures Owns(run[k], t, g) && !AllHeld(run[k].gc)
    decreases k
  {
    if k > i + 1 {
      var st := StepOf(run, k - 1);
      hide Run, Enabled, After, Inv, Owns, AllHeld;
      LockIsHeld(run, i, k - 1, t, g);
      assert !LetsGo(run, k - 1, t, g);
      OwnsNext(run[k - 1], st, t, g);
    } else {
      TakesLock(run[i], t, g);
    }
    InvRun(run, k);
    OwnedIsNotHeld(run[k], t, g);
  }

  lemma StepOf(run: seq<State>, k: nat) returns (st: Step)
    requires Run(run) && k + 1 < |run|
    ensures Inv(run[k]) && Enabled(run[k], st) && run[k + 1] == After(run[k], st)
  {
    InvRun(run, k);
    assert StepAt(run, k);
    hide Inv, Enabled, After;
    st :| Enabled(run[k], st) && run[k + 1] == After(run[k], st);
  }

  lemma TakesLock(s: State, t: int, g: nat)
    requires Enabled(s, BeginAllocation(t, g))
    ensures Owns(After(s, BeginAllocation(t, g)), t, g)
  {}

  lemma OwnedIsNotHeld(s: State, t: int, g: nat)
    requires Inv(s) && Owns(s, t, g)
    ensures !AllHeld(s.gc)
  {}

  lemma ThreadsWithout(live: seq<int>, t: int)
    requires forall i, j | 0 <= i < j < |live| :: live[i] != live[j]
    ensures Threads(Without(live, t)) == Threads(live) - {t}
  {
    WithoutMembers(live, t);
    forall x ensures x in Threads(Without(live, t)) <==> x in Threads(live) - {t} {
      assert x in Without(live, t) <==> x in live && x != t;
    }
  }

  /** The counter of allocations counts them, and the live list is that of threads started and not ended. */
  lemma CountsAndThreads(s: State, st: Step)
    requires Inv(s) && Enabled(s, st)
    ensures var t := After(s, st);
            && t.allocations == s.allocations + (if st.Allocate? then 1 else 0)
            && Threads(t.live) == (if st.Spawn? then Threads(s.live) + {st.t}
                                   else if st.Exit? then Threads(s.live) - {st.t} else Threads(s.live))
  {
    if st.Exit? {
      ThreadsWithout(s.live, st.t);
    } else if st.Spawn? {
      assert Threads([st.t] + s.live) == Threads(s.live) + {st.t};
    }
  }

  /** The thread runs its handler from start to end. */
  ghost predicate RunsHandler(s: State, t: int, s': State) {
    && Enabled(s, Enter(t))
    && var s1 := After(s, Enter(t));
    && Enabled(s1, SaveRegisters(t))
    && var s2 := After(s1, SaveRegisters(t));
    && Enabled(s2, SaveStack(t))
    && var s3 := After(s2, SaveStack(t));
    && Enabled(s3, Return(t))
    && s' == After(s3, Return(t))
  }

  /**
   The handshake does not stop the world: while the collector still waits for some other
   thread, a signalled thread can go through its whole handler and run on, with the
   barrier off and the colours unswapped.
   */
  lemma HandlerReturnsBeforeTheSwap(s: State, t: int) returns (s': State)
    requires Inv(s) && s.gc.WaitEntered? && t in s.pending
    ensures RunsHandler(s, t, s')
    ensures Running(s', t) && !s'.barrier && s'.swaps == s.swaps && s'.gc == s.gc
    ensures s'.pending == s.pending - {t} && s'.copiedBy == s.copiedBy + {t} && s'.live == s.live
    ensures Enabled(s', EnableBarrier) <==> s.entered + 1 == s.toHalt
  {
    var i :| 0 <= i < |s.live| && s.live[i] == t;
    assert ThreadOk(s, i);
    s' := HandlerRuns(s, t);
  }

  lemma HandlerRuns(s: State, t: int) returns (s': State)
    requires t in s.live && t in s.pending && t in s.handler && s.handler[t].Out? && t in s.index
    ensures RunsHandler(s, t, s')
    ensures s'.handler == s.handler[t := Out] && s'.barrier == s.barrier && s'.swaps == s.swaps && s'.gc == s.gc
    ensures s'.entered == s.entered + 1 && s'.toHalt == s.toHalt && s'.live == s.live
    ensures s'.pending == s.pending - {t} && s'.copiedBy == s.copiedBy + {t}
  {
    HandlerEnters(s, t);
    var s1 := After(s, Enter(t));
    HandlerSaves(s1, t);
    var s2 := After(s1, SaveRegisters(t));
    var s3 := After(s2, SaveStack(t));
    hide Enabled, After;
    s' := After(s3, Return(t));
  }

  lemma HandlerEnters(s: State, t: int)
    requires t in s.pending && t in s.handler && s.handler[t].Out? && t in s.index
    ensures Enabled(s, Enter(t))
    ensures var s1 := After(s, Enter(t));
            && s1.handler == s.handler[t := Entered] && s1.index == s.index && s1.barrier == s.barrier
            && s1.swaps == s.swaps
            && s1.gc == s.gc && s1.entered == s.entered + 1 && s1.toHalt == s.toHalt && s1.live == s.live
            && s1.pending == s.pending - {t} && s1.copiedBy == s.copiedBy
  {}

  lemma HandlerSaves(s: State, t: int)
    requires t in s.handler && s.handler[t].Entered? && t in s.index
    ensures Enabled(s, SaveRegisters(t))
    ensures var s2 := After(s, SaveRegisters(t));
            && Enabled(s2, SaveStack(t))
            && var s3 := After(s2, SaveStack(t));
            && Enabled(s3, Return(t))
            && var s4 := After(s3, Return(t));
            && s4.handler == s.handler[t := Out] && s4.barrier == s.barrier && s4.swaps == s.swaps
            && s4.gc == s.gc && s4.entered == s.entered && s4.toHalt == s.toHalt && s4.live == s.live
            && s4.pending == s.pending && s4.copiedBy == s.copiedBy + {t}
  {
    var s2 := After(s, SaveRegisters(t));
    assert s2.handler == s.handler[t := RegistersSaved];
    var s3 := After(s2, SaveStack(t));
    assert s3.handler == s.handler[t := StackSaved];
  }

  // ---------------------------------------------------------------- a run in which that happens

  /** Some run ends in s. */
  ghost predicate Reached(s: State) { exists run :: Run(run) && run[|run| - 1] == s }

  lemma GrowRun(run: seq<State>, t: State)
    requires Run(run) && Next(run[|run| - 1], t)
    ensures Run(run + [t])
  {
    var q := run + [t];
    hide Next, Init;
    forall k: nat | k + 1 < |q| ensures StepAt(q, k) {
      if k + 1 < |run| { assert StepAt(run, k); }
    }
  }

  lemma Grow(s: State, st: Step, t: State)
    requires Reached(s) && Enabled(s, st) && t == After(s, st)
    ensures Reached(t)
  {
    var run :| Run(run) && run[|run| - 1] == s;
    assert Next(s, t);
    hide Run, Enabled, After, Next;
    GrowRun(run, t);
    assert (run + [t])[|run + [t]| - 1] == t;
  }

  lemma HandlerReached(s: State, t: int, s': State)
    requires Reached(s) && RunsHandler(s, t, s')
    ensures Reached(s')
  {
    hide Reached;
    var s1 := After(s, Enter(t));
    Grow(s, Enter(t), s1);
    var s2 := After(s1, SaveRegisters(t));
    Grow(s1, SaveRegisters(t), s2);
    var s3 := After(s2, SaveStack(t));
    Grow(s2, SaveStack(t), s3);
    Grow(s3, Return(t), s');
  }

  const BOTH: map<int, Handler> := map[0 := Out, 1 := Out]

  /** Threads 0 and 1, one group, before the handlers run. */
  function Two(lock: Owner, gc: Pc, live: seq<int>, toHalt: nat, index: map<int, nat>, pending: set<int>,
               handler: map<int, Handler>, saves: map<int, nat>): State {
    State([lock], gc, gc.Signalling? || gc.WaitEntered?, live, 0, 0, toHalt, false, 0, index, pending, handler,
          map[], map[], {}, {}, saves, 0, 0)
  }

  lemma OneSpawned()
    ensures Reached(Two(Nobody, Idle, [0], 0, map[], {}, map[0 := Out], map[]))
  {
    var s := Two(Nobody, Idle, [], 0, map[], {}, map[], map[]);
    assert Reached(s) by { assert Run([s]) && [s][|[s]| - 1] == s; }
    hide Reached;
    SpawnMore(s, 0, Two(Nobody, Idle, [0], 0, map[], {}, map[0 := Out], map[]));
  }

  lemma SpawnMore(s: State, t: int, u: State)
    requires Reached(s) && !s.threadsLocked && t !in s.live
    requires u == s.(live := [t] + s.live, handler := s.handler[t := Out])
    ensures Reached(u)
  {
    hide Reached;
    Grow(s, Spawn(t), u);
  }

  lemma TwoSpawned()
    ensures Reached(Two(Nobody, Idle, [1, 0], 0, map[], {}, BOTH, map[]))
  {
    OneSpawned();
    hide Reached;
    var t := Two(Nobody, Idle, [0], 0, map[], {}, map[0 := Out], map[]);
    assert t.handler[1 := Out] == BOTH && [1] + t.live == [1, 0];
    SpawnMore(t, 1, Two(Nobody, Idle, [1, 0], 0, map[], {}, BOTH, map[]));
  }

  lemma TwoLocked()
    ensures Reached(Two(Collector, Signalling(0), [1, 0], 0, map[], {}, BOTH, map[0 := 0, 1 := 0]))
  {
    TwoSpawned();
    hide Reached;
    var s := Two(Nobody, Idle, [1, 0], 0, map[], {}, BOTH, map[]);
    var t := s.(locks := [Collector], gc := Locking(1));
    assert After(s, LockFree) == t;
    Grow(s, LockFree, t);
    Grow(t, AllLocked, t.(gc := Locked));
    var u := Two(Collector, Signalling(0), [1, 0], 0, map[], {}, BOTH, map[0 := 0, 1 := 0]);
    assert (map x | x in [1, 0] :: 0) == u.saves;
    Grow(t.(gc := Locked), ResetAndLockThreads, u);
  }

  /** Both threads have been signalled, neither is in its handler. */
  function BothPending(): State {
    Two(Collector, WaitEntered, [1, 0], 2, map[1 := 0, 0 := 1], {0, 1}, BOTH, map[0 := 0, 1 := 0])
  }

  lemma TwoPending()
    ensures Reached(BothPending())
  {
    TwoLocked();
    hide Reached;
    var s := Two(Collector, Signalling(0), [1, 0], 0, map[], {}, BOTH, map[0 := 0, 1 := 0]);
    var t := Two(Collector, Signalling(1), [1, 0], 1, map[1 := 0], {1}, BOTH, s.saves);
    assert After(s, Signal) == t;
    Grow(s, Signal, t);
    var u := Two(Collector, Signalling(2), [1, 0], 2, map[1 := 0, 0 := 1], {0, 1}, BOTH, s.saves);
    assert After(t, Signal) == u;
    Grow(t, Signal, u);
    Grow(u, AllSignalled, BothPending());
  }

  /**
   A run in which thread 0 has saved, has left its handler and runs on, while thread 1 has
   not even entered its own: the barrier is off, and the collector cannot turn it on yet.
   */
  lemma AThreadRunsAheadOfTheSwap() returns (s: State)
    ensures Reached(s) && s.gc.WaitEntered? && s.live == [1, 0]
    ensures Running(s, 0) && 0 in s.copiedBy && s.pending == {1}
    ensures !s.barrier && s.swaps == 0 && !Enabled(s, EnableBarrier)
  {
    TwoPending();
    PendingIsInv();
    hide Reached;
    s := HandlerReturnsBeforeTheSwap(BothPending(), 0);
    HandlerReached(BothPending(), 0, s);
  }

  lemma PendingIsInv()
    ensures Inv(BothPending())
  {
    var s := BothPending();
    forall i: nat | i < |s.live| ensures ThreadOk(s, i) {}
  }
}
