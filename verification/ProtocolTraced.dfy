/**
 What the collector can come across in a cycle, on top of what it must find: nothing but
 what the words of the cycle and the bits of the flip led to in the heap of the flip.
 */
module ProtocolTraced {
  import opened Colours
  import opened Protocol
  import opened ProtocolInvariant

  /** While marking, the objects the collector may still make gray are in h.traced, and h.traced is closed for it. */
  ghost predicate Bounded(s: State) {
    && (forall o | o in s.h.traced :: Allocated(s, o))
    && (forall o | o in s.h.keep || Raw(s, o) :: White(s, o) ==> o in s.h.traced)
    && (forall o | o in s.colour && s.colour[o] == Gray :: o in s.h.traced)
    && (s.gc.ScanRoots? ==> forall o | o in s.gc.saved :: White(s, o) ==> o in s.h.traced)
    && (s.gc.ScanSlots? && s.gc.reg.To? && White(s, s.gc.reg.obj) ==> s.gc.reg.obj in s.h.traced)
    && (forall o | o in s.strays :: White(s, o) ==> o in s.h.traced)
    && (forall l | l in s.heap && s.heap[l].To? && (l.Global? || l.owner in s.h.traced) ::
          White(s, s.heap[l].obj) ==> s.heap[l].obj in s.h.traced)
  }

  /** Until the cycle ends, only traced objects and those allocated since the flip are other than white. */
  ghost predicate OnlyTraced(s: State) {
    forall o | Allocated(s, o) && !White(s, o) :: o in s.h.traced || o in s.h.keep || Raw(s, o)
  }

  ghost predicate TracedOk(s: State) {
    (Marking(s) ==> Bounded(s)) && (!s.gc.Idle? ==> OnlyTraced(s))
  }

  // ---------------------------------------------------------------- mutator steps

  /** What a mutator writes is a reference in use, nothing, or the old contents of memory it has just been given. */
  ghost predicate HeapMoves(s: State, t: State) {
    forall l | l in t.heap && t.heap[l].To? ::
      || (l in s.heap && s.heap[l] == t.heap[l])
      || t.heap[l].obj in s.h.keep
      || (l.Field? && !Allocated(s, l.owner))
  }

  lemma MutatorsMoveTheHeap(s: State, st: Step)
    requires MutatorsOk(s) && Kept(s) && CanMutate(s, st)
    ensures HeapMoves(s, AfterMutate(s, st))
  {
    if st.Store? { StoreMoves(s, st.m); }
    else if st.Alloc? { AllocMoves(s, st.m, st.o, st.body); }
    else if st.Clear? { ClearMoves(s, st.m); }
    else { NothingMoves(s, st); }
    hide AfterMutate, CanMutate, Kept, MutatorsOk, HeapMoves;
  }

  lemma StoreMoves(s: State, m: Mid)
    requires MutatorsOk(s) && Kept(s) && CanMutate(s, Store(m))
    ensures HeapMoves(s, AfterMutate(s, Store(m)))
  {
    StoredIsKept(s, m);
  }

  lemma AllocMoves(s: State, m: Mid, o: Obj, body: map<nat, Ref>)
    requires CanMutate(s, Alloc(m, o, body))
    ensures HeapMoves(s, AfterMutate(s, Alloc(m, o, body)))
  {}

  lemma ClearMoves(s: State, m: Mid)
    requires CanMutate(s, Clear(m))
    ensures HeapMoves(s, AfterMutate(s, Clear(m)))
  {}

  lemma NothingMoves(s: State, st: Step)
    requires CanMutate(s, st) && !st.Store? && !st.Alloc? && !st.Clear?
    ensures HeapMoves(s, AfterMutate(s, st))
  {
    assert AfterMutate(s, st).heap == s.heap;
  }

  lemma StoredIsKept(s: State, m: Mid)
    requires MutatorsOk(s) && Kept(s) && CanMutate(s, Store(m))
    ensures s.mut[m].pc.rhs.To? ==> s.mut[m].pc.rhs.obj in s.h.keep
  {
    assert MutatorOk(s, s.mut[m]) && Held(s.mut[m]) <= s.h.keep;
  }

  lemma RawMut(s: State, t: State, m: Mid, o: Obj)
    requires MutEffect(s, t, m)
    ensures Raw(s, o) ==> Raw(t, o) || o in t.h.keep
    ensures Raw(t, o) ==> Raw(s, o) || Black(t, o)
    ensures o in t.h.keep ==> o in s.h.keep || Raw(s, o)
  {
    if Raw(s, o) {
      var k :| k in s.mut && s.mut[k].pc == Clearing(o);
      assert k != m ==> k in t.mut && t.mut[k].pc == Clearing(o);
    }
    if Raw(t, o) {
      var k :| k in t.mut && t.mut[k].pc == Clearing(o);
      assert k != m ==> k in s.mut && s.mut[k].pc == Clearing(o);
    }
  }

  lemma TracedMut(s: State, t: State, m: Mid)
    requires Typed(s) && TracedOk(s) && MutEffect(s, t, m) && HeapMoves(s, t)
    ensures TracedOk(t)
  {
    forall o ensures (Raw(s, o) ==> Raw(t, o) || o in t.h.keep) && (Raw(t, o) ==> Raw(s, o) || Black(t, o)) &&
                     (o in t.h.keep ==> o in s.h.keep || Raw(s, o)) { RawMut(s, t, m, o); }
    SafeMut(s, t, m);
    hide Raw;
    if Marking(s) { BoundedMut(s, t, m); }
    if !s.gc.Idle? { OnlyTracedMut(s, t, m); }
  }

  lemma BoundedMut(s: State, t: State, m: Mid)
    requires Typed(s) && Bounded(s) && MutFrame(s, t, m) && HeapMoves(s, t)
    requires forall o | Raw(t, o) :: Raw(s, o) || Black(t, o)
    requires forall o | o in t.h.keep :: o in s.h.keep || Raw(s, o)
    ensures Bounded(t)
  {
    hide Raw;
    SafeMut(s, t, m);
  }

  lemma OnlyTracedMut(s: State, t: State, m: Mid)
    requires Typed(s) && OnlyTraced(s) && MutEffect(s, t, m)
    requires forall o | Raw(s, o) :: Raw(t, o) || o in t.h.keep
    ensures OnlyTraced(t)
  {
    forall o | Allocated(t, o) && !White(t, o) ensures o in t.h.traced || o in t.h.keep || Raw(t, o) {
      if !Allocated(s, o) { assert m in t.mut && t.mut[m].pc == Clearing(o); }
    }
  }

  // ---------------------------------------------------------------- collector steps

  /** What the theorem needs of a collector step while marking; o is the object it may shade. */
  ghost predicate ShadesOne(s: State, t: State, o: Obj) {
    && t.heap == s.heap && t.mut == s.mut && t.h == s.h.(base := t.h.base) && t.unmarked == s.unmarked
    && t.marked == s.marked && t.strays == s.strays
    && t.colour.Keys == s.colour.Keys
    && (forall u | u in s.colour && t.colour[u] != s.colour[u] ::
          (u == o && White(s, u) && t.colour[u] == Gray) || (s.colour[u] == Gray && t.colour[u] == s.marked))
  }

  /** The object a step traces, if any. */
  function Target(s: State, st: Step): Obj {
    if st.TraceRoot? then st.o
    else if st.TraceSlot? && s.gc.ScanSlots? && s.gc.reg.To? then s.gc.reg.obj
    else if st.ShadeHit? && s.gc.Hit? then s.gc.bit
    else 0
  }

  lemma CollectorShadesOne(s: State, st: Step)
    requires Typed(s) && Marking(s) && CanCollect(s, st)
    ensures ShadesOne(s, AfterCollect(s, st), Target(s, st))
  {}

  lemma TargetIsTraced(s: State, st: Step)
    requires Typed(s) && Bounded(s) && s.bits <= s.h.keep && Marking(s) && CanCollect(s, st)
    ensures White(s, Target(s, st)) && (st.TraceRoot? || st.TraceSlot? || st.ShadeHit?) ==> Target(s, st) in s.h.traced
    ensures !(st.TraceRoot? || st.TraceSlot? || st.ShadeHit?) ==>
              forall u | u in s.colour && White(s, u) :: AfterCollect(s, st).colour[u] == s.colour[u]
  {}

  /** Where the collector goes next is traced. */
  lemma RegistersTraced(s: State, st: Step)
    requires Typed(s) && Bounded(s) && Marking(s) && CanCollect(s, st)
    ensures var t := AfterCollect(s, st);
            && (t.gc.ScanRoots? ==> forall o | o in t.gc.saved :: White(s, o) ==> o in s.h.traced)
            && (t.gc.ScanSlots? && t.gc.reg.To? && White(s, t.gc.reg.obj) ==> t.gc.reg.obj in s.h.traced)
  {
    if st.LoadSlot? { assert st.l in SlotsOf(s, s.gc.src); }
  }

  lemma ShadedKeeps(s: State, t: State, o: Obj)
    requires Typed(s) && Bounded(s) && OnlyTraced(s) && ShadesOne(s, t, o)
    requires forall u | White(s, u) && t.colour[u] != s.colour[u] :: u in s.h.traced
    requires t.gc.ScanRoots? ==> forall u | u in t.gc.saved :: White(s, u) ==> u in s.h.traced
    requires t.gc.ScanSlots? && t.gc.reg.To? && White(s, t.gc.reg.obj) ==> t.gc.reg.obj in s.h.traced
    ensures Bounded(t) && OnlyTraced(t)
  {
    forall u ensures Raw(t, u) <==> Raw(s, u) {}
    hide Raw;
  }

  lemma TracedMark(s: State, st: Step)
    requires Inv(s) && TracedOk(s) && Marking(s) && CanCollect(s, st)
    ensures TracedOk(AfterCollect(s, st))
  {
    CollectorShadesOne(s, st);
    TargetIsTraced(s, st);
    RegistersTraced(s, st);
    hide Inv, CanCollect, AfterCollect, Typed, Kept;
    ShadedKeeps(s, AfterCollect(s, st), Target(s, st));
  }

  lemma TracedRecycle(s: State, t: State)
    requires TracedOk(s) && s.gc.Recycle? && RecycleFrame(s, t)
    ensures TracedOk(t)
  {
    forall u ensures Raw(t, u) <==> Raw(s, u) {}
    hide Raw;
  }

  // ---------------------------------------------------------------- the flip

  lemma TracedIsClosed(s: State, roots: set<Obj>)
    ensures TracedClosed(s, roots, Traced(s, roots))
  {
    var T := Traced(s, roots);
    forall o | o in roots && Allocated(s, o) ensures o in T { assert InEveryTracedClosed(s, roots, o); }
    forall l | l in s.heap && s.heap[l].To? && (l.Global? || l.owner in T) && Allocated(s, s.heap[l].obj)
      ensures s.heap[l].obj in T {
      assert InEveryTracedClosed(s, roots, s.heap[l].obj);
    }
  }

  lemma TracedMinimal(s: State, roots: set<Obj>, C: set<Obj>)
    requires TracedClosed(s, roots, C)
    ensures Traced(s, roots) <= C
  {
    forall o | o in Traced(s, roots) ensures o in C { assert InEveryTracedClosed(s, roots, o); }
  }

  /** What is in use is traced, whatever else the words name. */
  lemma LiveIsTraced(s: State, words: Words)
    requires Inv(s) && CanCollect(s, Flip(words))
    ensures Reach(s) <= Traced(s, Roots(s, words))
    ensures forall o | Raw(s, o) :: o in Traced(s, Roots(s, words))
  {
    var roots := Roots(s, words);
    var T := Traced(s, roots);
    TracedIsClosed(s, roots);
    ReachIsClosed(s, s.h.keep);
    FlipSeeds(s, words);
    forall m | m in s.mut ensures Held(s.mut[m]) <= T * Reach(s) {
      forall o | o in Held(s.mut[m]) ensures o in T { assert o in SavedBy(s.mut[m]) && o in s.h.keep; }
    }
    assert Closed(s, T * Reach(s));
    ReachIsClosed(s, T * Reach(s));
  }

  lemma TracedFlip(s: State, words: Words)
    requires Inv(s) && CanCollect(s, Flip(words))
    ensures TracedOk(AfterCollect(s, Flip(words)))
  {
    FlipColours(s, words);
    LiveIsTraced(s, words);
    TracedIsClosed(s, Roots(s, words));
    assert Generation(s.marked);
    hide Inv, Traced, Reach, CanCollect, Typed, Kept, MutatorsOk;
    TracedFromFlip(s, AfterCollect(s, Flip(words)), words);
  }

  lemma TracedFromFlip(s: State, t: State, words: Words)
    requires TracedClosed(s, Roots(s, words), t.h.traced) && forall o | o in t.h.traced :: Allocated(s, o)
    requires t.heap == s.heap && t.mut == s.mut && t.colour == s.colour && t.gc == ScanRoots(Saved(s) + words.saved)
    requires t.strays == words.stray && Generation(t.unmarked) && forall o | Allocated(t, o) :: White(t, o)
    requires forall o | o in t.h.keep || Raw(s, o) :: o in t.h.traced
    ensures TracedOk(t)
  {
    forall o ensures Raw(t, o) <==> Raw(s, o) {}
    hide Raw, Saved;
    forall o | o in t.colour ensures t.colour[o] != Gray { assert Allocated(t, o) ==> White(t, o); }
    forall o | o in t.gc.saved || o in t.strays ensures White(t, o) ==> o in t.h.traced { assert o in Roots(s, words); }
  }

  // ---------------------------------------------------------------- runs

  lemma TracedNext(s: State, t: State)
    requires Inv(s) && TracedOk(s) && Next(s, t)
    ensures TracedOk(t)
  {
    var st :| Enabled(s, st) && t == After(s, st);
    if CanMutate(s, st) {
      MutatorsMoveTheHeap(s, st);
      var m := MutateEffect(s, st, s.h.keep);
      hide CanMutate, AfterMutate;
      TracedMut(s, t, m);
    } else if st.Flip? {
      TracedFlip(s, st.words);
    } else if s.gc.Recycle? {
      RecycleStepFrame(s, st);
      TracedRecycle(s, t);
    } else {
      TracedMark(s, st);
    }
  }

  lemma {:induction false} TracedRun(r: seq<State>, k: nat)
    requires Run(r) && k < |r|
    ensures TracedOk(r[k])
  {
    hide Inv, TracedOk, Init, Next;
    if k == 0 {
      TracedInit(r[0]);
    } else {
      TracedRun(r, k - 1);
      InvRun(r, k - 1);
      assert StepAt(r, k - 1);
      TracedNext(r[k - 1], r[k]);
    }
  }

  lemma TracedInit(s: State)
    requires Init(s)
    ensures TracedOk(s)
  {}
}
