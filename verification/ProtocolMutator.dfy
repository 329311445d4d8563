/**
 What a mutator gets for its steps, whatever the other threads and the collector do in
 between: an assignment stores what was assigned, an allocation yields an object that
 nobody else has, with an empty body.
 */
module ProtocolMutator {
  import opened Colours
  import opened Protocol
  import opened ProtocolInvariant
  import opened ProtocolSafety

  /** Thread m has nothing under way. */
  predicate ReadyAt(r: seq<State>, k: nat, m: Mid)
    requires k < |r|
  {
    MutatorReady(r[k], m)
  }

  /** k is the first state after i in which thread m is ready again. */
  predicate NextReady(r: seq<State>, i: nat, k: nat, m: Mid) {
    i < k < |r| && ReadyAt(r, k, m) && forall j | i < j < k :: !ReadyAt(r, j, m)
  }

  lemma NotYet(r: seq<State>, i: nat, k: nat, j: nat, m: Mid)
    requires NextReady(r, i, k, m) && i < j < k
    ensures !MutatorReady(r[j], m)
  {
    assert !ReadyAt(r, j, m);
  }

  lemma Arrives(r: seq<State>, i: nat, k: nat, m: Mid)
    requires NextReady(r, i, k, m)
    ensures MutatorReady(r[k], m)
  {
    assert ReadyAt(r, k, m);
  }

  /** The step from state i to i + 1 is step st of a mutator. */
  ghost predicate Takes(r: seq<State>, i: nat, st: Step) {
    i + 1 < |r| && CanMutate(r[i], st) && r[i + 1] == AfterMutate(r[i], st)
  }

  // ---------------------------------------------------------------- whose step it is

  /** The thread that takes the step. */
  predicate StepOf(st: Step, n: Mid) {
    match st
    case LoadRef(m, _) => m == n
    case DropRef(m, _) => m == n
    case Enter(m, _, _) => m == n
    case Load(m) => m == n
    case Test(m) => m == n
    case Mark(m) => m == n
    case Store(m) => m == n
    case Alloc(m, _, _) => m == n
    case Clear(m) => m == n
    case Exit(m) => m == n
    case _ => false
  }

  lemma OthersMutate(s: State, st: Step, n: Mid)
    requires CanMutate(s, st) && n in s.mut && !StepOf(st, n)
    ensures n in AfterMutate(s, st).mut && AfterMutate(s, st).mut[n] == s.mut[n]
  {}

  lemma CollectorLeavesThreads(s: State, st: Step)
    requires CanCollect(s, st)
    ensures AfterCollect(s, st).mut == s.mut
  {}

  /** No other thread, and not the collector, changes what a thread holds or where it is. */
  lemma OnlyOwnStepsMove(s: State, st: Step, n: Mid)
    requires Enabled(s, st) && n in s.mut && !StepOf(st, n)
    ensures n in After(s, st).mut && After(s, st).mut[n] == s.mut[n]
  {
    if CanMutate(s, st) { OthersMutate(s, st, n); } else { CollectorLeavesThreads(s, st); }
  }

  // ---------------------------------------------------------------- assignments

  /** The barrier on its way from the test of its flag to the store of rhs in l. */
  predicate Carries(pc: Pc, l: Loc, rhs: Ref) {
    match pc
    case Entered(l', rhs') => l' == l && rhs' == rhs
    case Loaded(l', _, rhs') => l' == l && rhs' == rhs
    case ToMark(l', _, rhs') => l' == l && rhs' == rhs
    case ToStore(l', rhs') => l' == l && rhs' == rhs
    case _ => false
  }

  /** Thread m is inside the barrier and has the words it had. */
  predicate Carrying(s: State, m: Mid, roots: set<Obj>, l: Loc, rhs: Ref) {
    m in s.mut && s.mut[m].roots == roots && Carries(s.mut[m].pc, l, rhs)
  }

  /** rhs is in l, and thread m is ready. */
  predicate Landed(s: State, t: State, m: Mid, roots: set<Obj>, l: Loc, rhs: Ref) {
    && m in t.mut && t.mut[m] == Mutator(roots, Ready)
    && l in s.heap && t.heap == s.heap[l := rhs]
  }

  /** The four steps of thread m in the barrier after the first. */
  predicate BarrierStep(st: Step, m: Mid) { st == Load(m) || st == Test(m) || st == Mark(m) || st == Store(m) }

  lemma OwnCarryOn(s: State, st: Step, m: Mid, roots: set<Obj>, l: Loc, rhs: Ref)
    requires CanMutate(s, st) && Carrying(s, m, roots, l, rhs) && MutatorsOk(s) && BarrierStep(st, m)
    ensures Carrying(AfterMutate(s, st), m, roots, l, rhs) || Landed(s, AfterMutate(s, st), m, roots, l, rhs)
  {
    assert MutatorOk(s, s.mut[m]);
  }

  lemma NotOwnStep(s: State, st: Step, m: Mid)
    requires CanMutate(s, st) && m in s.mut && InBarrier(s.mut[m].pc) && !BarrierStep(st, m)
    ensures !StepOf(st, m)
  {}

  /** Each step of the barrier hands on where to store and what. */
  lemma CarryOn(s: State, t: State, m: Mid, roots: set<Obj>, l: Loc, rhs: Ref)
    requires Next(s, t) && Carrying(s, m, roots, l, rhs) && MutatorsOk(s)
    ensures Carrying(t, m, roots, l, rhs) || (Landed(s, t, m, roots, l, rhs) && MutatorReady(t, m))
  {
    var st :| Enabled(s, st) && t == After(s, st);
    if CanMutate(s, st) {
      if BarrierStep(st, m) {
        OwnCarryOn(s, st, m, roots, l, rhs);
      } else {
        NotOwnStep(s, st, m);
        OthersMutate(s, st, m);
      }
    } else {
      CollectorLeavesThreads(s, st);
    }
  }

  lemma CarriesIsBusy(s: State, m: Mid, roots: set<Obj>, l: Loc, rhs: Ref)
    requires Carrying(s, m, roots, l, rhs)
    ensures !MutatorReady(s, m)
  {}

  lemma {:induction false} CarriesUntil(r: seq<State>, i: nat, k: nat, j: nat, m: Mid, roots: set<Obj>, l: Loc,
                                        rhs: Ref)
    requires Run(r) && NextReady(r, i, k, m) && i < j < k < |r| && Carrying(r[i + 1], m, roots, l, rhs)
    ensures Carrying(r[j], m, roots, l, rhs)
    decreases j
  {
    hide *;
    NotYet(r, i, k, j, m);
    if j > i + 1 {
      CarriesUntil(r, i, k, j - 1, m, roots, l, rhs);
      StepIs(r, j - 1);
      CarryOn(r[j - 1], r[j], m, roots, l, rhs);
    }
  }

  lemma Enters(s: State, m: Mid, l: Loc, rhs: Ref)
    requires CanMutate(s, Enter(m, l, rhs))
    ensures Carrying(AfterMutate(s, Enter(m, l, rhs)), m, s.mut[m].roots, l, rhs)
  {}

  /**
   An assignment.  When thread m starts one in state i and is ready again in state k, with
   the barrier on or off, meanwhile or not, the step into state k has put rhs into l and
   changed no other slot, and the thread has the words it had.
   */
  lemma AssignmentLands(r: seq<State>, i: nat, k: nat, m: Mid, l: Loc, rhs: Ref)
    requires Run(r) && Takes(r, i, Enter(m, l, rhs)) && NextReady(r, i, k, m)
    ensures l in r[k - 1].heap && r[k].heap == r[k - 1].heap[l := rhs]
    ensures r[k].mut[m] == Mutator(r[i].mut[m].roots, Ready)
  {
    var roots := r[i].mut[m].roots;
    Enters(r[i], m, l, rhs);
    Arrives(r, i, k, m);
    assert l in r[k - 1].heap && Landed(r[k - 1], r[k], m, roots, l, rhs) by {
      hide CanMutate, AfterMutate, Inv, Next, Run, MutatorsOk, Carrying, Landed, MutatorReady, NextReady;
      CarriesLand(r, i, k, m, roots, l, rhs);
    }
  }

  lemma CarriesLand(r: seq<State>, i: nat, k: nat, m: Mid, roots: set<Obj>, l: Loc, rhs: Ref)
    requires Run(r) && NextReady(r, i, k, m) && Carrying(r[i + 1], m, roots, l, rhs)
    ensures l in r[k - 1].heap && Landed(r[k - 1], r[k], m, roots, l, rhs)
  {
    Arrives(r, i, k, m);
    CarriesIsBusy(r[i + 1], m, roots, l, rhs);
    assert k > i + 1;
    hide Inv, Next, Run, MutatorsOk, MutatorReady, NextReady;
    CarriesUntil(r, i, k, k - 1, m, roots, l, rhs);
    StepIs(r, k - 1);
    CarryOn(r[k - 1], r[k], m, roots, l, rhs);
    if Carrying(r[k], m, roots, l, rhs) { CarriesIsBusy(r[k], m, roots, l, rhs); }
  }

  lemma StepIs(r: seq<State>, k: nat)
    requires Run(r) && k + 1 < |r|
    ensures Next(r[k], r[k + 1]) && Inv(r[k]) && MutatorsOk(r[k])
  {
    InvRun(r, k);
    assert StepAt(r, k);
  }

  /** A load right after it, by any thread that may load the word, finds exactly that reference. */
  lemma LoadFindsAssignment(r: seq<State>, i: nat, k: nat, m: Mid, l: Loc, rhs: Ref, m2: Mid)
    requires Run(r) && Takes(r, i, Enter(m, l, rhs)) && NextReady(r, i, k, m) && Takes(r, k, LoadRef(m2, l))
    ensures m2 in r[k].mut && m2 in r[k + 1].mut
    ensures r[k + 1].mut[m2].roots == r[k].mut[m2].roots + (if rhs.To? then {rhs.obj} else {})
    ensures r[k + 1].heap == r[k].heap
  {
    AssignmentLands(r, i, k, m, l, rhs);
  }

  // ---------------------------------------------------------------- allocations

  /** Thread m is clearing o, and has the words it had; o has these slots. */
  ghost predicate Making(s: State, m: Mid, roots: set<Obj>, o: Obj, slots: set<nat>) {
    && m in s.mut && s.mut[m] == Mutator(roots, Clearing(o))
    && forall i :: Field(o, i) in s.heap <==> i in slots
  }

  /** Thread m has got o, cleared; nothing else has happened. */
  ghost predicate Delivered(s: State, t: State, m: Mid, roots: set<Obj>, o: Obj, slots: set<nat>) {
    && t.mut == s.mut[m := Mutator(roots + {o}, Ready)] && t.heap.Keys == s.heap.Keys
    && (forall i :: Field(o, i) in t.heap <==> i in slots)
    && forall l | l in s.heap :: l in t.heap && t.heap[l] == if OwnedBy(l, o) then Null else s.heap[l]
  }

  lemma OwnClear(s: State, m: Mid, roots: set<Obj>, o: Obj, slots: set<nat>)
    requires CanMutate(s, Clear(m)) && Making(s, m, roots, o, slots)
    ensures Delivered(s, AfterMutate(s, Clear(m)), m, roots, o, slots)
  {}

  lemma NotOwnClear(s: State, st: Step, m: Mid)
    requires CanMutate(s, st) && m in s.mut && s.mut[m].pc.Clearing? && st != Clear(m)
    ensures !StepOf(st, m)
  {}

  lemma SlotsStay(s: State, st: Step, o: Obj, i: nat)
    requires CanMutate(s, st) && MutatorsOk(s) && Allocated(s, o)
    ensures Field(o, i) in AfterMutate(s, st).heap <==> Field(o, i) in s.heap
  {
    if st.Store? { assert MutatorOk(s, s.mut[st.m]); }
  }

  lemma OthersMake(s: State, st: Step, m: Mid, roots: set<Obj>, o: Obj, slots: set<nat>)
    requires CanMutate(s, st) && Making(s, m, roots, o, slots) && Allocated(s, o) && MutatorsOk(s) && st != Clear(m)
    ensures Making(AfterMutate(s, st), m, roots, o, slots)
  {
    NotOwnClear(s, st, m);
    OthersMutate(s, st, m);
    hide CanMutate, AfterMutate, MutatorsOk;
    forall i ensures Field(o, i) in AfterMutate(s, st).heap <==> i in slots { SlotsStay(s, st, o, i); }
  }

  lemma CollectorMakes(s: State, st: Step, m: Mid, roots: set<Obj>, o: Obj, slots: set<nat>)
    requires CanCollect(s, st) && Making(s, m, roots, o, slots)
    ensures Making(AfterCollect(s, st), m, roots, o, slots)
  {}

  lemma MakeOn(s: State, t: State, m: Mid, roots: set<Obj>, o: Obj, slots: set<nat>)
    requires Next(s, t) && Making(s, m, roots, o, slots) && MutatorsOk(s)
    ensures Making(t, m, roots, o, slots) || (Delivered(s, t, m, roots, o, slots) && MutatorReady(t, m))
  {
    var st :| Enabled(s, st) && t == After(s, st);
    assert MutatorOk(s, s.mut[m]);
    if CanMutate(s, st) {
      if st == Clear(m) {
        OwnClear(s, m, roots, o, slots);
      } else {
        OthersMake(s, st, m, roots, o, slots);
      }
    } else {
      CollectorMakes(s, st, m, roots, o, slots);
    }
  }

  lemma {:induction false} MakesUntil(r: seq<State>, i: nat, k: nat, j: nat, m: Mid, roots: set<Obj>, o: Obj,
                                      slots: set<nat>)
    requires Run(r) && NextReady(r, i, k, m) && i < j < k < |r| && Making(r[i + 1], m, roots, o, slots)
    ensures Making(r[j], m, roots, o, slots)
    decreases j
  {
    hide *;
    NotYet(r, i, k, j, m);
    if j > i + 1 {
      MakesUntil(r, i, k, j - 1, m, roots, o, slots);
      StepIs(r, j - 1);
      MakeOn(r[j - 1], r[j], m, roots, o, slots);
    }
  }

  lemma Allocates(s: State, m: Mid, o: Obj, body: map<nat, Ref>)
    requires CanMutate(s, Alloc(m, o, body))
    ensures Making(AfterMutate(s, Alloc(m, o, body)), m, s.mut[m].roots, o, body.Keys)
  {
    hide Cleared;
    var t := AfterMutate(s, Alloc(m, o, body));
    forall i ensures Field(o, i) in t.heap <==> i in body.Keys { assert OwnedBy(Field(o, i), o); }
  }

  /** Nobody can reach what is still being cleared. */
  lemma ClearingIsPrivate(s: State, m: Mid, o: Obj)
    requires Inv(s) && m in s.mut && s.mut[m].pc == Clearing(o)
    ensures o !in Reach(s) && (forall n | n in s.mut :: o !in Held(s.mut[n])) && o !in s.bits
  {
    assert MutatorOk(s, s.mut[m]);
    ReachIsClosed(s, s.h.keep);
    forall n | n in s.mut ensures o !in Held(s.mut[n]) { assert Held(s.mut[n]) <= s.h.keep; }
  }

  /**
   An allocation.  When thread m is given o in state i and is ready again in state k, nobody
   could reach o in between; the step into state k adds o to the words of m and to nobody
   else's, empties its slots, which are those asked for, and changes no other slot.
   */
  lemma AllocationDelivers(r: seq<State>, i: nat, k: nat, m: Mid, o: Obj, body: map<nat, Ref>)
    requires Run(r) && Takes(r, i, Alloc(m, o, body)) && NextReady(r, i, k, m)
    ensures forall j | i < j < k :: o !in Reach(r[j]) && Allocated(r[j], o)
    ensures Delivered(r[k - 1], r[k], m, r[i].mut[m].roots, o, body.Keys)
    ensures forall n | n in r[k].mut && n != m :: o !in Held(r[k].mut[n])
    ensures Allocated(r[k], o)
  {
    Allocates(r[i], m, o, body);
    hide CanMutate, AfterMutate, Inv, Next, Run, MutatorsOk, Reach, Delivered, Making, NextReady, Held, Allocated;
    MakesDeliver(r, i, k, m, r[i].mut[m].roots, o, body.Keys);
  }

  lemma MakesDeliver(r: seq<State>, i: nat, k: nat, m: Mid, roots: set<Obj>, o: Obj, slots: set<nat>)
    requires Run(r) && NextReady(r, i, k, m) && Making(r[i + 1], m, roots, o, slots)
    ensures forall j | i < j < k :: o !in Reach(r[j]) && Allocated(r[j], o)
    ensures Delivered(r[k - 1], r[k], m, roots, o, slots)
    ensures forall n | n in r[k].mut && n != m :: o !in Held(r[k].mut[n])
    ensures Allocated(r[k], o)
  {
    Arrives(r, i, k, m);
    MakingIsBusy(r[i + 1], m, roots, o, slots);
    assert k > i + 1;
    hide Inv, Next, Run, MutatorsOk, Reach, Delivered, Making, MutatorReady, NextReady, Held, Allocated;
    forall j | i < j < k ensures o !in Reach(r[j]) && Allocated(r[j], o) {
      MadeInPrivate(r, i, k, j, m, roots, o, slots);
    }
    MadeInPrivate(r, i, k, k - 1, m, roots, o, slots);
    StepIs(r, k - 1);
    MakeOn(r[k - 1], r[k], m, roots, o, slots);
    if Making(r[k], m, roots, o, slots) { MakingIsBusy(r[k], m, roots, o, slots); }
    InvRun(r, k);
    OnlyOwner(r[k - 1], r[k], m, roots, o, slots);
  }

  lemma MakingIsBusy(s: State, m: Mid, roots: set<Obj>, o: Obj, slots: set<nat>)
    requires Making(s, m, roots, o, slots)
    ensures !MutatorReady(s, m) && m in s.mut && s.mut[m].pc == Clearing(o)
  {}

  lemma MadeInPrivate(r: seq<State>, i: nat, k: nat, j: nat, m: Mid, roots: set<Obj>, o: Obj, slots: set<nat>)
    requires Run(r) && NextReady(r, i, k, m) && i < j < k < |r| && Making(r[i + 1], m, roots, o, slots)
    ensures Making(r[j], m, roots, o, slots) && o !in Reach(r[j]) && Allocated(r[j], o)
    ensures forall n | n in r[j].mut :: o !in Held(r[j].mut[n])
  {
    hide Inv, Next, Run, MutatorsOk, Reach, Making, NextReady, Held, Allocated;
    MakesUntil(r, i, k, j, m, roots, o, slots);
    InvRun(r, j);
    MakingIsBusy(r[j], m, roots, o, slots);
    ClearingIsPrivate(r[j], m, o);
    ClearingIsAllocated(r[j], m, o);
  }

  lemma ClearingIsAllocated(s: State, m: Mid, o: Obj)
    requires Inv(s) && m in s.mut && s.mut[m].pc == Clearing(o)
    ensures Allocated(s, o)
  {
    assert MutatorOk(s, s.mut[m]);
  }

  lemma OnlyOwner(s: State, t: State, m: Mid, roots: set<Obj>, o: Obj, slots: set<nat>)
    requires Delivered(s, t, m, roots, o, slots) && Inv(t) && forall n | n in s.mut :: o !in Held(s.mut[n])
    ensures forall n | n in t.mut && n != m :: o !in Held(t.mut[n])
    ensures Allocated(t, o)
  {
    assert o in Held(t.mut[m]) && Held(t.mut[m]) <= t.h.keep;
  }

  // ---------------------------------------------------------------- new threads

  /** A new thread starts with the references it is given, and those its own steps bring; its parent keeps its own. */
  lemma SpawnHandsOver(r: seq<State>, i: nat, m: Mid, child: Mid, given: set<Obj>)
    requires Takes(r, i, Spawn(m, child, given)) && m in r[i].mut
    ensures child !in r[i].mut && child in r[i + 1].mut && r[i + 1].mut[child] == Mutator(given, Ready)
    ensures m in r[i + 1].mut && r[i + 1].mut[m] == r[i].mut[m]
    ensures given <= Held(r[i].mut[m])
  {}

  /**
   A ready thread is never held up, wherever the collector is: it may load what it has access
   to, assign what it holds, take any free object, start a thread while there are fewer than
   MAX_THREADS, and end.
   */
  lemma ReadyIsFree(s: State, m: Mid)
    requires MutatorReady(s, m)
    ensures forall l | l in s.heap && Accessible(s.mut[m], l) :: Enabled(s, LoadRef(m, l))
    ensures forall l, rhs | l in s.heap && Accessible(s.mut[m], l) && Holds(s.mut[m], rhs) ::
              Enabled(s, Enter(m, l, rhs))
    ensures forall o, body | o in s.colour && s.colour[o] == Green :: Enabled(s, Alloc(m, o, body))
    ensures forall child, given | child !in s.mut && given <= s.mut[m].roots && |s.mut| < MAX_THREADS ::
              Enabled(s, Spawn(m, child, given))
    ensures Enabled(s, Exit(m))
  {}

  /** The end of a thread takes it, and what it held, off the books, and nothing else. */
  lemma ExitLeaves(r: seq<State>, i: nat, m: Mid)
    requires Takes(r, i, Exit(m))
    ensures m !in r[i + 1].mut && r[i + 1] == r[i].(mut := r[i + 1].mut)
    ensures forall n | n in r[i].mut && n != m :: n in r[i + 1].mut && r[i + 1].mut[n] == r[i].mut[n]
  {}
}
