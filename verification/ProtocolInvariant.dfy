/**
 The invariant of the transition system and its preservation by every step.
 */
module ProtocolInvariant {
  import opened Colours
  import opened Protocol

  // ---------------------------------------------------------------- the invariant

  ghost predicate Typed(s: State) {
    && s.marked != s.unmarked && Generation(s.marked) && Generation(s.unmarked)
    && (forall o | o in s.colour :: o < s.bitCount)
    && (s.barrier <==> Marking(s))
    && |s.mut| <= MAX_THREADS
    && (s.gc.Idle? ==> forall o | o in s.colour :: s.colour[o] == s.marked || s.colour[o] == Green)
    && ((s.gc.Recycle? || (s.gc.Sweep? && !s.gc.found)) ==> forall o | o in s.colour :: s.colour[o] != Gray)
    && (s.gc.ScanSlots? && s.gc.src.To? ==> s.gc.src.obj in s.colour && s.colour[s.gc.src.obj] == Gray)
    && (s.gc.ScanSlots? ==> s.gc.todo <= SlotsOf(s, s.gc.src))
    && (s.gc.Sweep? ==> s.gc.at <= s.bitCount)
    && (s.gc.Hit? || s.gc.Unmark? ==> s.gc.bit < s.bitCount)
    && (s.gc.Hit? || s.gc.Unmark? ==> s.gc.bit in s.bits)
    && (s.gc.Unmark? ==> !White(s, s.gc.bit))
  }

  ghost predicate MutatorOk(s: State, mu: Mutator) {
    match mu.pc
    case Ready => true
    case Clearing(o) => Allocated(s, o) && o !in s.h.keep
    case pc => pc.loc in s.heap && Accessible(mu, pc.loc) && Holds(mu, pc.rhs)
  }

  ghost predicate MutatorsOk(s: State) {
    && (forall m | m in s.mut :: MutatorOk(s, s.mut[m]))
    && (forall m, k | m in s.mut && k in s.mut && m != k && s.mut[m].pc.Clearing? :: s.mut[m].pc != s.mut[k].pc)
  }

  /** Everything a mutator can ever reach is in keep, and nothing in keep is free. */
  ghost predicate Kept(s: State) {
    && Closed(s, s.h.keep)
    && forall o | o in s.h.keep :: Allocated(s, o)
  }

  /** r will be found by the collector in this cycle whatever the mutators do. */
  predicate Safe(s: State, r: Ref) {
    r.To? ==> !White(s, r.obj) || r.obj in s.bits
  }

  ghost predicate SnapClosed(h: History, C: set<Obj>) {
    && h.seeds <= C
    && forall l | l in h.snap && h.snap[l].To? && (l.Global? || l.owner in C) :: h.snap[l].obj in C
  }

  ghost predicate SnapTyped(s: State) {
    && s.h.first <= s.h.keep
    && (forall l | l in s.h.snap :: l in s.heap && (l.Field? ==> l.owner in s.h.first))
    && (forall l | l in s.h.snap && s.h.snap[l].To? :: s.h.snap[l].obj in s.h.first)
    && (forall o | o in s.h.seeds :: Allocated(s, o))
    && (forall C | SnapClosed(s.h, C) :: s.h.first <= C)
    && (forall o | o in s.h.keep :: o in s.h.first || o in s.h.seeds || Black(s, o))
    && (forall m | m in s.mut && s.mut[m].pc.Clearing? ::
          s.mut[m].pc.body in s.h.seeds || Black(s, s.mut[m].pc.body))
  }

  /** A snapshot slot still holds its snapshot value, or that value cannot be lost. */
  ghost predicate SnapHeld(s: State) {
    forall l | l in s.h.snap :: l in s.heap && (s.heap[l] == s.h.snap[l] || Safe(s, s.h.snap[l]))
  }

  predicate BarrierOk(s: State, pc: Pc) {
    match pc
    case Loaded(l, seen, _) => l in s.h.snap ==> seen == s.h.snap[l] || Safe(s, s.h.snap[l])
    case ToMark(l, w, _) => l in s.h.snap ==> To(w) == s.h.snap[l] || Safe(s, s.h.snap[l])
    case ToStore(l, _) => l in s.h.snap ==> Safe(s, s.h.snap[l])
    case _ => true
  }

  ghost predicate BarriersOk(s: State) {
    forall m | m in s.mut :: BarrierOk(s, s.mut[m].pc)
  }

  /** The collector has still to trace what the snapshot slot l held. */
  predicate Owed(s: State, l: Loc)
    requires l in s.h.snap
  {
    if l.Global? then
      s.gc.ScanRoots? || (s.gc.ScanSlots? && s.gc.src.Null? && (l in s.gc.todo || s.gc.reg == s.h.snap[l]))
    else
      || White(s, l.owner)
      || (l.owner in s.colour && s.colour[l.owner] == Gray &&
          (s.gc.ScanSlots? && s.gc.src == To(l.owner) ==> l in s.gc.todo || s.gc.reg == s.h.snap[l]))
  }

  /** Weak tricolour invariant over the snapshot. */
  ghost predicate Tricolour(s: State) {
    && (forall l | l in s.h.snap :: Owed(s, l) || Safe(s, s.h.snap[l]))
    && (forall o | o in s.h.seeds :: Safe(s, To(o)) || (s.gc.ScanRoots? && o in s.gc.saved))
  }

  /** While a sweep has found nothing: all that is still unsafe is a bit it has yet to reach. */
  ghost predicate SweepClean(s: State) {
    s.gc.Sweep? && !s.gc.found ==>
      && s.h.base <= s.bits
      && (forall b | b in s.h.base :: s.gc.at <= b)
      && (forall o | o in s.h.seeds :: White(s, o) ==> o in s.h.base)
      && (forall l | l in s.h.snap && s.h.snap[l].To? && (l.Global? || !White(s, l.owner)) ::
            White(s, s.h.snap[l].obj) ==> s.h.snap[l].obj in s.h.base)
  }

  ghost predicate Snap(s: State) {
    Marking(s) ==>
      SnapTyped(s) && SnapHeld(s) && BarriersOk(s) && Tricolour(s) && SweepClean(s)
  }

  /** When recycling starts nothing that may still be used is white. */
  ghost predicate Finished(s: State) {
    s.gc.Recycle? ==>
      && (forall o | o in s.h.keep :: !White(s, o))
      && (forall m | m in s.mut && s.mut[m].pc.Clearing? :: !White(s, s.mut[m].pc.body))
  }

  ghost predicate Inv(s: State) {
    Typed(s) && MutatorsOk(s) && Kept(s) && Snap(s) && Finished(s)
  }

  // ---------------------------------------------------------------- reachability

  lemma ReachIsClosed(s: State, K: set<Obj>)
    requires Closed(s, K) && forall o | o in K :: o in s.colour
    ensures Closed(s, Reach(s)) && Reach(s) <= K
  {
    var R := Reach(s);
    forall o | o in K && InEveryClosed(s, o) ensures o in R {}
    forall m | m in s.mut ensures Held(s.mut[m]) <= R {
      forall o | o in Held(s.mut[m]) ensures o in R {
        assert InEveryClosed(s, o);
      }
    }
    forall o | o in s.bits ensures o in R {
      assert InEveryClosed(s, o);
    }
    forall l | l in s.heap && s.heap[l].To? && (l.Global? || l.owner in R) ensures s.heap[l].obj in R {
      assert InEveryClosed(s, s.heap[l].obj);
    }
  }

  // ---------------------------------------------------------------- mutator steps

  /** What every step of mutator m leaves alone, as the collector sees it. */
  ghost predicate MutFrame(s: State, t: State, m: Mid) {
    && t.gc == s.gc && t.marked == s.marked && t.unmarked == s.unmarked && t.barrier == s.barrier
    && t.bitCount == s.bitCount && t.count == s.count && t.strays == s.strays && |t.mut| <= MAX_THREADS
    && s.bits <= t.bits
    && t.h == s.h.(keep := t.h.keep)
    && (t.h.keep == s.h.keep ||
        (m in s.mut && s.mut[m].pc.Clearing? && t.h.keep == s.h.keep + {s.mut[m].pc.body}))
    && (forall o | o in s.colour :: o in t.colour &&
          (t.colour[o] == s.colour[o] || (s.colour[o] == Green && t.colour[o] == s.marked)))
    && (forall o | o in t.colour :: o in s.colour || (t.colour[o] == Green && o < s.bitCount))
    && (forall l | l in s.heap :: l in t.heap || (l.Field? && l.owner in s.colour && s.colour[l.owner] == Green))
    && (forall k | k in s.mut && k != m :: k in t.mut && t.mut[k] == s.mut[k])
    && (forall k | k in t.mut && k != m :: k in s.mut)
  }

  /** The frame, and what an allocation by m looks like from outside. */
  ghost predicate MutEffect(s: State, t: State, m: Mid) {
    && MutFrame(s, t, m)
    && (forall o | Allocated(t, o) && !Allocated(s, o) :: m in t.mut && t.mut[m].pc == Clearing(o))
    && (forall o | m in t.mut && t.mut[m].pc == Clearing(o) :: (m in s.mut && s.mut[m].pc == Clearing(o)) ||
          (Black(t, o) && o in s.colour && s.colour[o] == Green))
    && (forall o | m in s.mut && s.mut[m].pc == Clearing(o) ::
          o in t.h.keep || (m in t.mut && t.mut[m].pc == Clearing(o)))
  }

  lemma FrameColours(s: State, t: State, m: Mid, o: Obj)
    requires MutFrame(s, t, m) && Typed(s)
    ensures White(t, o) <==> White(s, o)
    ensures o in t.colour && t.colour[o] == Gray ==> o in s.colour && s.colour[o] == Gray
    ensures Allocated(s, o) ==> Allocated(t, o) && t.colour[o] == s.colour[o]
  {}

  lemma TypedMut(s: State, t: State, m: Mid)
    requires Typed(s) && MutFrame(s, t, m)
    ensures Typed(t)
  {
    if s.gc.ScanSlots? {
      forall l | l in s.gc.todo ensures l in SlotsOf(t, s.gc.src) { assert l in SlotsOf(s, s.gc.src); }
    }
  }

  lemma MutatorsOkMut(s: State, t: State, m: Mid)
    requires MutatorsOk(s) && Kept(s) && MutEffect(s, t, m)
    requires m in t.mut ==> MutatorOk(t, t.mut[m])
    ensures MutatorsOk(t)
  {
    forall k | k in t.mut ensures MutatorOk(t, t.mut[k]) {
      if k != m {
        assert MutatorOk(s, s.mut[k]);
        assert Held(s.mut[k]) <= s.h.keep;
      }
    }
    forall k, j | k in t.mut && j in t.mut && k != j && t.mut[k].pc.Clearing? ensures t.mut[k].pc != t.mut[j].pc {
      if j in s.mut { assert MutatorOk(s, s.mut[j]); }
      if k in s.mut { assert MutatorOk(s, s.mut[k]); }
    }
  }

  lemma SnapMut(s: State, t: State, m: Mid)
    requires Typed(s) && Kept(s) && Snap(s) && MutEffect(s, t, m)
    requires forall l | l in s.h.snap && l in s.heap && Marking(s) ::
               l in t.heap && (t.heap[l] == s.heap[l] || Safe(t, s.h.snap[l]))
    requires m in t.mut && Marking(s) ==> BarrierOk(t, t.mut[m].pc)
    ensures Snap(t)
  {
    if Marking(s) {
      SnapTypedMut(s, t, m);
      SnapBarriersMut(s, t, m);
      SnapColoursMut(s, t, m);
    }
  }

  lemma SnapTypedMut(s: State, t: State, m: Mid)
    requires Typed(s) && SnapTyped(s) && MutEffect(s, t, m)
    requires forall l | l in s.h.snap && l in s.heap :: l in t.heap
    ensures SnapTyped(t)
  {
    forall C | SnapClosed(t.h, C) ensures t.h.first <= C { assert SnapClosed(s.h, C); }
  }

  lemma SnapBarriersMut(s: State, t: State, m: Mid)
    requires SnapTyped(s) && Typed(s) && SnapHeld(s) && BarriersOk(s) && MutFrame(s, t, m)
    requires forall l | l in s.h.snap && l in s.heap :: l in t.heap && (t.heap[l] == s.heap[l] || Safe(t, s.h.snap[l]))
    requires m in t.mut ==> BarrierOk(t, t.mut[m].pc)
    ensures SnapHeld(t) && BarriersOk(t)
  {
    SafeMut(s, t, m);
    forall k | k in t.mut ensures BarrierOk(t, t.mut[k].pc) {
      if k != m { assert BarrierOk(s, s.mut[k].pc); }
    }
  }

  lemma SafeMut(s: State, t: State, m: Mid)
    requires Typed(s) && MutFrame(s, t, m)
    ensures forall r {:trigger Safe(t, r)} :: Safe(s, r) ==> Safe(t, r)
    ensures forall o :: White(t, o) <==> White(s, o)
  {}

  lemma SnapColoursMut(s: State, t: State, m: Mid)
    requires Typed(s) && SnapTyped(s) && Tricolour(s) && SweepClean(s) && MutFrame(s, t, m)
    ensures Tricolour(t) && SweepClean(t)
  {
    SafeMut(s, t, m);
    forall l | l in t.h.snap ensures Owed(t, l) || Safe(t, t.h.snap[l]) {
      assert Owed(s, l) || Safe(s, s.h.snap[l]);
    }
  }

  lemma FinishedMut(s: State, t: State, m: Mid)
    requires Typed(s) && MutatorsOk(s) && Finished(s) && MutEffect(s, t, m)
    ensures Finished(t)
  {
    SafeMut(s, t, m);
    forall k | k in s.mut && s.mut[k].pc.Clearing? ensures Allocated(s, s.mut[k].pc.body) {
      assert MutatorOk(s, s.mut[k]);
    }
  }

  /** All pieces at once, from what a step of m promises. */
  lemma InvMut(s: State, t: State, m: Mid)
    requires Inv(s) && MutEffect(s, t, m) && Closed(t, t.h.keep)
    requires m in t.mut ==> MutatorOk(t, t.mut[m]) && (Marking(s) ==> BarrierOk(t, t.mut[m].pc))
    requires forall l | l in s.h.snap && l in s.heap && Marking(s) ::
               l in t.heap && (t.heap[l] == s.heap[l] || Safe(t, s.h.snap[l]))
    ensures Inv(t)
  {
    TypedMut(s, t, m);
    MutatorsOkMut(s, t, m);
    SnapMut(s, t, m);
    FinishedMut(s, t, m);
    forall o | o in t.h.keep ensures Allocated(t, o) {
      if o in s.h.keep { FrameColours(s, t, m, o); } else { assert MutatorOk(s, s.mut[m]); }
    }
  }

  lemma SetMutFrame(s: State, m: Mid, mu: Mutator)
    requires |s.mut| <= MAX_THREADS && (m !in s.mut ==> |s.mut| < MAX_THREADS)
    ensures MutFrame(s, SetMut(s, m, mu), m)
  {
    var t := SetMut(s, m, mu);
    if m in s.mut { assert t.mut.Keys == s.mut.Keys; } else { assert t.mut.Keys == s.mut.Keys + {m}; }
  }

  lemma ClosedSetMut(s: State, m: Mid, mu: Mutator, C: set<Obj>)
    requires Closed(s, C) && Held(mu) <= C
    ensures Closed(SetMut(s, m, mu), C)
  {}

  lemma SetMutEffect(s: State, m: Mid, mu: Mutator, C: set<Obj>)
    requires |s.mut| <= MAX_THREADS && (m !in s.mut ==> |s.mut| < MAX_THREADS)
    requires !mu.pc.Clearing? && (m in s.mut ==> !s.mut[m].pc.Clearing?)
    requires Closed(s, C) && Held(mu) <= C
    ensures MutEffect(s, SetMut(s, m, mu), m) && Closed(SetMut(s, m, mu), C)
  {
    SetMutFrame(s, m, mu);
    ClosedSetMut(s, m, mu, C);
  }

  /** Steps that change one mutator's words or program counter only. */
  predicate Local(st: Step) {
    st.LoadRef? || st.DropRef? || st.Enter? || st.Load? || st.Test? || st.Spawn?
  }

  function Actor(st: Step): Mid
    requires Local(st)
  {
    if st.Spawn? then st.child else st.m
  }

  lemma LocalEffect(s: State, st: Step, C: set<Obj>)
    requires CanMutate(s, st) && Local(st) && |s.mut| <= MAX_THREADS
    requires Closed(s, C) && MutatorsOk(s)
    ensures AfterMutate(s, st) == s || Actor(st) in AfterMutate(s, st).mut
    ensures AfterMutate(s, st) == s || AfterMutate(s, st) == SetMut(s, Actor(st), AfterMutate(s, st).mut[Actor(st)])
    ensures MutEffect(s, AfterMutate(s, st), Actor(st)) && Closed(AfterMutate(s, st), C)
  {
    var t := AfterMutate(s, st);
    if t == s {
      var mu := s.mut[st.m];
      assert t == SetMut(s, st.m, mu);
    } else {
      assert Held(s.mut[st.m]) <= C && MutatorOk(s, s.mut[st.m]);
      SetMutEffect(s, Actor(st), t.mut[Actor(st)], C);
    }
  }

  lemma LocalOk(s: State, st: Step)
    requires Typed(s) && MutatorsOk(s) && CanMutate(s, st) && Local(st)
    requires Marking(s) ==> SnapHeld(s) && BarriersOk(s)
    ensures var m := Actor(st);
            var t := AfterMutate(s, st);
            m in t.mut ==> MutatorOk(t, t.mut[m]) && (Marking(s) ==> BarrierOk(t, t.mut[m].pc))
  {
    assert MutatorOk(s, s.mut[st.m]);
    assert Marking(s) ==> BarrierOk(s, s.mut[st.m].pc);
  }

  lemma InvLocal(s: State, st: Step)
    requires Inv(s) && CanMutate(s, st) && Local(st)
    ensures Inv(AfterMutate(s, st))
  {
    LocalEffect(s, st, s.h.keep);
    LocalOk(s, st);
    InvMut(s, AfterMutate(s, st), Actor(st));
  }

  lemma ExitEffect(s: State, m: Mid, C: set<Obj>)
    requires CanMutate(s, Exit(m)) && |s.mut| <= MAX_THREADS && Closed(s, C)
    ensures MutEffect(s, AfterMutate(s, Exit(m)), m) && Closed(AfterMutate(s, Exit(m)), C)
  {
    ExitClosed(s, m, C);
    hide Closed, MutEffect;
    ExitGone(s, s.(mut := s.mut - {m}), m);
  }

  lemma ExitGone(s: State, t: State, m: Mid)
    requires m in s.mut && s.mut[m].pc.Ready? && |s.mut| <= MAX_THREADS && t == s.(mut := s.mut - {m})
    ensures MutEffect(s, t, m)
  {
    assert t.mut.Keys == s.mut.Keys - {m};
    assert |t.mut| == |t.mut.Keys| && |s.mut| == |s.mut.Keys|;
  }

  lemma ExitClosed(s: State, m: Mid, C: set<Obj>)
    requires CanMutate(s, Exit(m)) && Closed(s, C)
    ensures Closed(AfterMutate(s, Exit(m)), C)
  {}

  lemma InvExit(s: State, m: Mid)
    requires Inv(s) && CanMutate(s, Exit(m))
    ensures Inv(AfterMutate(s, Exit(m)))
  {
    ExitEffect(s, m, s.h.keep);
    InvMut(s, AfterMutate(s, Exit(m)), m);
  }

  lemma MarkEffect(s: State, m: Mid, C: set<Obj>)
    requires CanMutate(s, Mark(m)) && |s.mut| <= MAX_THREADS && Closed(s, C)
    ensures MutEffect(s, AfterMutate(s, Mark(m)), m) && Closed(AfterMutate(s, Mark(m)), C)
  {
    var pc := s.mut[m].pc;
    assert pc.white in Held(s.mut[m]) && Held(s.mut[m]) <= C;
    MarkedOne(s, m, s.mut[m].(pc := ToStore(pc.loc, pc.rhs)), pc.white, C);
  }

  lemma MarkedOne(s: State, m: Mid, mu: Mutator, o: Obj, C: set<Obj>)
    requires m in s.mut && s.mut[m].pc.ToMark? && mu.pc.ToStore? && |s.mut| <= MAX_THREADS
    requires Closed(s, C) && Held(mu) <= C && o in C
    ensures MutEffect(s, SetMut(s, m, mu).(bits := s.bits + {o}), m)
    ensures Closed(SetMut(s, m, mu).(bits := s.bits + {o}), C)
  {
    SetMutFrame(s, m, mu);
    ClosedSetMut(s, m, mu, C);
  }

  /** Marking the vector: the bit makes the overwritten snapshot value safe. */
  lemma InvMark(s: State, m: Mid)
    requires Inv(s) && CanMutate(s, Mark(m))
    ensures Inv(AfterMutate(s, Mark(m)))
  {
    MarkOk(s, m);
    hide Inv, AfterMutate, CanMutate, MutEffect, Closed, MutatorOk, BarrierOk;
    MarkEffect(s, m, s.h.keep);
    InvMut(s, AfterMutate(s, Mark(m)), m);
  }

  lemma MarkOk(s: State, m: Mid)
    requires CanMutate(s, Mark(m)) && Inv(s)
    ensures |s.mut| <= MAX_THREADS && Closed(s, s.h.keep)
    ensures var t := AfterMutate(s, Mark(m));
            && t.heap == s.heap && t.h == s.h && m in t.mut && MutatorOk(t, t.mut[m])
            && (Marking(s) ==> BarrierOk(t, t.mut[m].pc))
  {
    assert MutatorOk(s, s.mut[m]) && (Marking(s) ==> BarrierOk(s, s.mut[m].pc));
  }

  lemma StoreEffect(s: State, m: Mid, C: set<Obj>)
    requires CanMutate(s, Store(m)) && |s.mut| <= MAX_THREADS && Closed(s, C) && Holds(s.mut[m], s.mut[m].pc.rhs)
    ensures MutEffect(s, AfterMutate(s, Store(m)), m) && Closed(AfterMutate(s, Store(m)), C)
  {
    assert Held(s.mut[m]) <= C;
    SetMutFrame(s, m, s.mut[m].(pc := Ready));
    ClosedSetMut(s, m, s.mut[m].(pc := Ready), C);
  }

  lemma InvStore(s: State, m: Mid)
    requires Inv(s) && CanMutate(s, Store(m))
    ensures Inv(AfterMutate(s, Store(m)))
  {
    assert MutatorOk(s, s.mut[m]) && (Marking(s) ==> BarrierOk(s, s.mut[m].pc));
    StoreEffect(s, m, s.h.keep);
    InvMut(s, AfterMutate(s, Store(m)), m);
  }

  lemma ClosedAlloc(s: State, m: Mid, o: Obj, body: map<nat, Ref>, C: set<Obj>)
    requires CanMutate(s, Alloc(m, o, body)) && Closed(s, C) && o !in C
    ensures Closed(AfterMutate(s, Alloc(m, o, body)), C)
  {
    var t := AfterMutate(s, Alloc(m, o, body));
    assert t.heap == Refit(s.heap, o, body) && t.bits == s.bits;
    assert t.mut == s.mut[m := s.mut[m].(pc := Clearing(o))] && Held(t.mut[m]) == Held(s.mut[m]);
    hide AfterMutate, CanMutate, Held;
    forall k | k in t.mut ensures Held(t.mut[k]) <= C { assert Held(s.mut[k]) <= C; }
  }

  lemma AllocFrame(s: State, m: Mid, o: Obj, body: map<nat, Ref>)
    requires CanMutate(s, Alloc(m, o, body)) && |s.mut| <= MAX_THREADS
    ensures MutFrame(s, AfterMutate(s, Alloc(m, o, body)), m)
  {
    assert AfterMutate(s, Alloc(m, o, body)).mut.Keys == s.mut.Keys;
  }

  lemma AllocEffect(s: State, m: Mid, o: Obj, body: map<nat, Ref>, C: set<Obj>)
    requires CanMutate(s, Alloc(m, o, body)) && |s.mut| <= MAX_THREADS && s.marked != Green && Closed(s, C) && o !in C
    ensures MutEffect(s, AfterMutate(s, Alloc(m, o, body)), m)
    ensures Closed(AfterMutate(s, Alloc(m, o, body)), C)
  {
    hide MutFrame, Closed;
    AllocFrame(s, m, o, body);
    ClosedAlloc(s, m, o, body, C);
  }

  lemma InvAlloc(s: State, m: Mid, o: Obj, body: map<nat, Ref>)
    requires Inv(s) && CanMutate(s, Alloc(m, o, body))
    ensures Inv(AfterMutate(s, Alloc(m, o, body)))
  {
    var t := AfterMutate(s, Alloc(m, o, body));
    AllocEffect(s, m, o, body, s.h.keep);
    assert t.mut[m].pc == Clearing(o);
    AllocKeepsSnap(s, m, o, body);
    InvMut(s, t, m);
  }

  lemma AllocKeepsSnap(s: State, m: Mid, o: Obj, body: map<nat, Ref>)
    requires Kept(s) && CanMutate(s, Alloc(m, o, body)) && (Marking(s) ==> SnapTyped(s))
    ensures forall l | l in s.h.snap && l in s.heap && Marking(s) ::
              l in AfterMutate(s, Alloc(m, o, body)).heap && AfterMutate(s, Alloc(m, o, body)).heap[l] == s.heap[l]
  {}

  lemma ClearFrame(s: State, m: Mid)
    requires CanMutate(s, Clear(m)) && |s.mut| <= MAX_THREADS
    ensures MutFrame(s, AfterMutate(s, Clear(m)), m)
  {
    assert AfterMutate(s, Clear(m)).mut.Keys == s.mut.Keys;
  }

  lemma ClearEffect(s: State, m: Mid, C: set<Obj>)
    requires CanMutate(s, Clear(m)) && |s.mut| <= MAX_THREADS && Closed(s, C)
    ensures Closed(AfterMutate(s, Clear(m)), C + {s.mut[m].pc.body})
    ensures MutEffect(s, AfterMutate(s, Clear(m)), m)
  {
    hide MutFrame;
    ClearFrame(s, m);
  }

  lemma InvClear(s: State, m: Mid)
    requires Inv(s) && CanMutate(s, Clear(m))
    ensures Inv(AfterMutate(s, Clear(m)))
  {
    assert MutatorOk(s, s.mut[m]);
    ClearEffect(s, m, s.h.keep);
    InvMut(s, AfterMutate(s, Clear(m)), m);
  }

  lemma PublishEffect(s: State, objs: set<Obj>, C: set<Obj>)
    requires CanMutate(s, Publish(objs)) && |s.mut| <= MAX_THREADS && Closed(s, C)
    ensures MutEffect(s, AfterMutate(s, Publish(objs)), 0) && Closed(AfterMutate(s, Publish(objs)), C)
  {
    PublishClosed(s, objs, C);
    hide Closed, MutEffect;
    NewPages(s, AfterMutate(s, Publish(objs)), objs);
  }

  lemma NewPages(s: State, t: State, objs: set<Obj>)
    requires |s.mut| <= MAX_THREADS && t == s.(colour := t.colour) && t.colour.Keys == s.colour.Keys + objs
    requires forall o | o in objs :: o !in s.colour && o < s.bitCount && t.colour[o] == Green
    requires forall o | o in s.colour :: t.colour[o] == s.colour[o]
    ensures MutEffect(s, t, 0)
  {}

  lemma PublishClosed(s: State, objs: set<Obj>, C: set<Obj>)
    requires CanMutate(s, Publish(objs)) && Closed(s, C)
    ensures Closed(AfterMutate(s, Publish(objs)), C)
  {}

  lemma InvPublish(s: State, objs: set<Obj>)
    requires Inv(s) && CanMutate(s, Publish(objs))
    ensures Inv(AfterMutate(s, Publish(objs)))
  {
    if 0 in s.mut { assert MutatorOk(s, s.mut[0]); }
    PublishEffect(s, objs, s.h.keep);
    InvMut(s, AfterMutate(s, Publish(objs)), 0);
  }

  /** Every mutator step, seen from outside. */
  lemma MutateEffect(s: State, st: Step, C: set<Obj>) returns (m: Mid)
    requires Typed(s) && MutatorsOk(s) && CanMutate(s, st)
    requires Closed(s, C) && forall o | o in C :: Allocated(s, o)
    ensures MutEffect(s, AfterMutate(s, st), m)
    ensures Closed(AfterMutate(s, st), C + (if st.Clear? then {s.mut[st.m].pc.body} else {}))
  {
    hide MutFrame, MutEffect, AfterMutate, Closed;
    if Local(st) {
      LocalEffect(s, st, C);
      assert C + {} == C;
      return Actor(st);
    }
    match st {
      case Exit(k) => ExitEffect(s, k, C); m := k;
      case Mark(k) => MarkEffect(s, k, C); m := k;
      case Store(k) => assert MutatorOk(s, s.mut[k]); StoreEffect(s, k, C); m := k;
      case Alloc(k, o, body) => AllocEffect(s, k, o, body, C); m := k;
      case Clear(k) => ClearEffect(s, k, C); m := k;
      case Publish(objs) => PublishEffect(s, objs, C); m := 0;
    }
    assert C + {} == C;
  }

  lemma InvMutate(s: State, st: Step)
    requires Inv(s) && CanMutate(s, st)
    ensures Inv(AfterMutate(s, st))
  {
    if Local(st) {
      InvLocal(s, st);
    } else {
      match st {
        case Exit(m) => InvExit(s, m);
        case Mark(m) => InvMark(s, m);
        case Store(m) => InvStore(s, m);
        case Alloc(m, o, body) => InvAlloc(s, m, o, body);
        case Clear(m) => InvClear(s, m);
        case Publish(objs) => InvPublish(s, objs);
      }
    }
  }

  /**
   Whatever a mutator does, even inside its barrier, no object turns gray or white, and
   none is freed or changes colour.
   */
  lemma MutatorsMakeNoGray(s: State, st: Step, o: Obj)
    requires Inv(s) && CanMutate(s, st)
    ensures var t := AfterMutate(s, st);
            && (White(t, o) <==> White(s, o))
            && (o in t.colour && t.colour[o] == Gray <==> o in s.colour && s.colour[o] == Gray)
            && (Allocated(s, o) ==> Allocated(t, o) && t.colour[o] == s.colour[o])
            && (Allocated(t, o) && !Allocated(s, o) ==> Black(t, o))
  {
    hide CanMutate, AfterMutate;
    var m := MutateEffect(s, st, s.h.keep);
    FrameColours(s, AfterMutate(s, st), m, o);
  }

  // ---------------------------------------------------------------- collector steps while marking

  /** What a collector step that stays in the mark phase leaves alone. */
  ghost predicate MarkFrame(s: State, t: State) {
    && Marking(s) && Marking(t)
    && t.heap == s.heap && t.mut == s.mut && t.marked == s.marked && t.unmarked == s.unmarked
    && t.bitCount == s.bitCount && t.barrier == s.barrier && t.h == s.h.(base := t.h.base)
    && t.colour.Keys == s.colour.Keys
    && (forall o | o in s.colour :: s.colour[o] == Green <==> t.colour[o] == Green)
    && (forall o :: White(t, o) ==> White(s, o))
    && (forall o :: Black(s, o) ==> Black(t, o))
    && t.bits <= s.bits
    && (forall b | b in s.bits && b !in t.bits :: !White(t, b))
  }

  lemma MarkKeeps(s: State, t: State)
    requires MarkFrame(s, t) && MutatorsOk(s) && Kept(s) && SnapTyped(s) && SnapHeld(s) && BarriersOk(s)
    ensures MutatorsOk(t) && Kept(t)
    ensures SnapTyped(t) && SnapHeld(t) && BarriersOk(t)
  {
    MarkKeepsMutators(s, t);
    MarkKeepsSnap(s, t);
  }

  lemma MarkKeepsMutators(s: State, t: State)
    requires MarkFrame(s, t) && MutatorsOk(s) && Kept(s)
    ensures MutatorsOk(t) && Kept(t)
  {
    forall m | m in t.mut ensures MutatorOk(t, t.mut[m]) { assert MutatorOk(s, s.mut[m]); }
  }

  lemma MarkSafe(s: State, t: State)
    requires MarkFrame(s, t)
    ensures forall r {:trigger Safe(t, r)} :: Safe(s, r) ==> Safe(t, r)
  {}

  lemma MarkKeepsSnap(s: State, t: State)
    requires MarkFrame(s, t) && SnapTyped(s) && SnapHeld(s) && BarriersOk(s)
    ensures SnapTyped(t) && SnapHeld(t) && BarriersOk(t)
  {
    MarkSafe(s, t);
    forall C | SnapClosed(t.h, C) ensures t.h.first <= C { assert SnapClosed(s.h, C); }
    forall m | m in t.mut ensures BarrierOk(t, t.mut[m].pc) { assert BarrierOk(s, s.mut[m].pc); }
  }

  /** A shaded or blackened header keeps the frame. */
  lemma ShadeFrame(s: State, o: Obj, gc: Collector)
    requires Marking(s) && Typed(s) && !gc.Idle? && !gc.Recycle?
    ensures MarkFrame(s, s.(colour := Shade(s.colour, s.unmarked, o), gc := gc))
    ensures !White(s.(colour := Shade(s.colour, s.unmarked, o), gc := gc), o)
  {}

  /** The parts of the invariant that depend on where the collector is. */
  ghost predicate Position(s: State) {
    Typed(s) && Tricolour(s) && SweepClean(s)
  }

  lemma InvMarkPhase(s: State, t: State)
    requires Inv(s) && MarkFrame(s, t) && Position(t)
    ensures Inv(t)
  {
    MarkKeeps(s, t);
  }

  lemma PosTraceRoot(s: State, o: Obj)
    requires Position(s) && SnapTyped(s) && Marking(s) && CanCollect(s, TraceRoot(o))
    ensures MarkFrame(s, AfterCollect(s, TraceRoot(o))) && Position(AfterCollect(s, TraceRoot(o)))
  {
    var t := AfterCollect(s, TraceRoot(o));
    ShadeFrame(s, o, t.gc);
    MarkSafe(s, t);
  }

  lemma PosRootsDone(s: State)
    requires Position(s) && SnapTyped(s) && Marking(s) && CanCollect(s, RootsDone)
    ensures MarkFrame(s, AfterCollect(s, RootsDone)) && Position(AfterCollect(s, RootsDone))
  {
    var t := AfterCollect(s, RootsDone);
    MarkSafe(s, t);
    forall l | l in t.h.snap ensures Owed(t, l) || Safe(t, t.h.snap[l]) {
      assert Owed(s, l) || Safe(s, s.h.snap[l]);
      assert l.Global? ==> l in SlotsOf(s, Null);
    }
  }

  lemma PosLoadSlot(s: State, l: Loc)
    requires Position(s) && SnapTyped(s) && SnapHeld(s) && Closed(s, s.h.keep) && Marking(s)
    requires CanCollect(s, LoadSlot(l))
    ensures MarkFrame(s, AfterCollect(s, LoadSlot(l))) && Position(AfterCollect(s, LoadSlot(l)))
  {
    var t := AfterCollect(s, LoadSlot(l));
    MarkSafe(s, t);
    forall k | k in t.h.snap ensures Owed(t, k) || Safe(t, t.h.snap[k]) {
      assert Owed(s, k) || Safe(s, s.h.snap[k]);
    }
  }

  lemma PosLoadStray(s: State, o: Obj)
    requires Position(s) && SnapTyped(s) && Marking(s) && CanCollect(s, LoadStray(o))
    ensures MarkFrame(s, AfterCollect(s, LoadStray(o))) && Position(AfterCollect(s, LoadStray(o)))
  {
    var t := AfterCollect(s, LoadStray(o));
    MarkSafe(s, t);
    forall k | k in t.h.snap ensures Owed(t, k) || Safe(t, t.h.snap[k]) {
      assert Owed(s, k) || Safe(s, s.h.snap[k]);
    }
  }

  lemma PosTraceSlot(s: State)
    requires Position(s) && SnapTyped(s) && Marking(s) && CanCollect(s, TraceSlot)
    ensures MarkFrame(s, AfterCollect(s, TraceSlot)) && Position(AfterCollect(s, TraceSlot))
  {
    var t := AfterCollect(s, TraceSlot);
    ShadeFrame(s, s.gc.reg.obj, t.gc);
    MarkSafe(s, t);
    forall k | k in t.h.snap ensures Owed(t, k) || Safe(t, t.h.snap[k]) {
      assert Owed(s, k) || Safe(s, s.h.snap[k]);
    }
  }

  lemma PosSlotsDone(s: State)
    requires Position(s) && SnapTyped(s) && Marking(s) && CanCollect(s, SlotsDone)
    ensures MarkFrame(s, AfterCollect(s, SlotsDone)) && Position(AfterCollect(s, SlotsDone))
  {
    var t := AfterCollect(s, SlotsDone);
    MarkSafe(s, t);
    forall k | k in t.h.snap ensures Owed(t, k) || Safe(t, t.h.snap[k]) {
      assert Owed(s, k) || Safe(s, s.h.snap[k]);
    }
  }

  lemma PosPick(s: State, o: Obj)
    requires Position(s) && SnapTyped(s) && Marking(s) && CanCollect(s, Pick(o))
    ensures MarkFrame(s, AfterCollect(s, Pick(o))) && Position(AfterCollect(s, Pick(o)))
  {
    var t := AfterCollect(s, Pick(o));
    MarkSafe(s, t);
    forall k | k in t.h.snap ensures Owed(t, k) || Safe(t, t.h.snap[k]) {
      assert Owed(s, k) || Safe(s, s.h.snap[k]);
      assert OwnedBy(k, o) ==> k in SlotsOf(s, To(o));
    }
  }

  lemma PosBeginSweep(s: State)
    requires Position(s) && SnapTyped(s) && Marking(s) && CanCollect(s, BeginSweep)
    ensures MarkFrame(s, AfterCollect(s, BeginSweep)) && Position(AfterCollect(s, BeginSweep))
  {
    var t := AfterCollect(s, BeginSweep);
    MarkSafe(s, t);
    forall o | o in s.colour ensures s.colour[o] != Gray { assert s.colour[o] in s.colour.Values; }
    forall k | k in t.h.snap ensures Owed(t, k) || Safe(t, t.h.snap[k]) {
      assert Owed(s, k) || Safe(s, s.h.snap[k]);
    }
  }

  lemma PosSkip(s: State, j: nat)
    requires Position(s) && SnapTyped(s) && Marking(s) && CanCollect(s, Skip(j))
    ensures MarkFrame(s, AfterCollect(s, Skip(j))) && Position(AfterCollect(s, Skip(j)))
  {
    var t := AfterCollect(s, Skip(j));
    MarkSafe(s, t);
    forall k | k in t.h.snap ensures Owed(t, k) || Safe(t, t.h.snap[k]) {
      assert Owed(s, k) || Safe(s, s.h.snap[k]);
    }
  }

  lemma PosSee(s: State)
    requires Position(s) && SnapTyped(s) && Marking(s) && CanCollect(s, See)
    ensures MarkFrame(s, AfterCollect(s, See)) && Position(AfterCollect(s, See))
  {
    var t := AfterCollect(s, See);
    MarkSafe(s, t);
    forall k | k in t.h.snap ensures Owed(t, k) || Safe(t, t.h.snap[k]) {
      assert Owed(s, k) || Safe(s, s.h.snap[k]);
    }
  }

  lemma PosShadeHit(s: State)
    requires Position(s) && SnapTyped(s) && s.bits <= s.h.keep && Marking(s) && CanCollect(s, ShadeHit)
    ensures MarkFrame(s, AfterCollect(s, ShadeHit)) && Position(AfterCollect(s, ShadeHit))
  {
    var t := AfterCollect(s, ShadeHit);
    ShadeFrame(s, s.gc.bit, t.gc);
    MarkSafe(s, t);
    forall k | k in t.h.snap ensures Owed(t, k) || Safe(t, t.h.snap[k]) {
      assert Owed(s, k) || Safe(s, s.h.snap[k]);
    }
  }

  lemma PosClearHit(s: State)
    requires Position(s) && SnapTyped(s) && Marking(s) && CanCollect(s, ClearHit)
    ensures MarkFrame(s, AfterCollect(s, ClearHit)) && Position(AfterCollect(s, ClearHit))
  {
    var t := AfterCollect(s, ClearHit);
    MarkSafe(s, t);
    forall k | k in t.h.snap ensures Owed(t, k) || Safe(t, t.h.snap[k]) {
      assert Owed(s, k) || Safe(s, s.h.snap[k]);
    }
  }

  lemma PosEndSweep(s: State)
    requires Position(s) && SnapTyped(s) && Marking(s) && CanCollect(s, EndSweep) && s.gc.found
    ensures MarkFrame(s, AfterCollect(s, EndSweep)) && Position(AfterCollect(s, EndSweep))
  {
    var t := AfterCollect(s, EndSweep);
    MarkSafe(s, t);
    forall k | k in t.h.snap ensures Owed(t, k) || Safe(t, t.h.snap[k]) {
      assert Owed(s, k) || Safe(s, s.h.snap[k]);
    }
  }

  // ---------------------------------------------------------------- the two ends of the mark phase

  /** With no bit set when the sweep began, nothing that may still be used is white. */
  lemma EmptyBaseFinishes(s: State)
    requires Typed(s) && SnapTyped(s) && SweepClean(s) && forall o | o in s.h.keep :: Allocated(s, o)
    requires s.gc.Sweep? && !s.gc.found && s.h.base == {}
    ensures forall o | o in s.h.keep :: !White(s, o)
    ensures forall m | m in s.mut && s.mut[m].pc.Clearing? :: !White(s, s.mut[m].pc.body)
  {
    var C := set o | o in s.colour && !White(s, o);
    forall l | l in s.h.snap && s.h.snap[l].To? && (l.Global? || l.owner in C) ensures s.h.snap[l].obj in C {
      assert Allocated(s, s.h.snap[l].obj);
    }
    assert SnapClosed(s.h, C);
  }

  /** A sweep that found nothing proves that the vector was empty when the gray set became empty. */
  lemma CleanSweepBase(s: State)
    requires Typed(s) && SweepClean(s) && Kept(s) && s.gc.Sweep? && !s.gc.found && s.gc.at == s.bitCount
    ensures s.h.base == {}
  {
    forall b | b in s.bits ensures b < s.bitCount { assert Allocated(s, b); }
  }

  /**
   At the end of a sweep that has found nothing, though bits may be set by now, nothing
   that may still be used is white.
   */
  lemma CleanSweepFinishes(s: State)
    requires Inv(s) && CanCollect(s, EndSweep) && !s.gc.found
    ensures forall o | o in s.h.keep :: !White(s, o)
    ensures forall m | m in s.mut && s.mut[m].pc.Clearing? :: !White(s, s.mut[m].pc.body)
  {
    CleanSweepBase(s);
    EmptyBaseFinishes(s);
  }

  lemma InvFinish(s: State)
    requires Inv(s) && CanCollect(s, EndSweep) && !s.gc.found
    ensures Inv(AfterCollect(s, EndSweep))
  {
    CleanSweepFinishes(s);
    FinishKeeps(s);
    hide Typed, MutatorsOk, Kept, SnapTyped;
    assert AfterCollect(s, EndSweep) == s.(barrier := false, gc := Recycle);
  }

  lemma FinishKeeps(s: State)
    requires Typed(s) && MutatorsOk(s) && Kept(s) && s.gc.Sweep? && !s.gc.found
    ensures var t := s.(barrier := false, gc := Recycle);
            Typed(t) && MutatorsOk(t) && Kept(t)
  {
    var t := s.(barrier := false, gc := Recycle);
    forall m | m in t.mut ensures MutatorOk(t, t.mut[m]) { assert MutatorOk(s, s.mut[m]); }
    assert Closed(t, t.h.keep);
  }

  /** The snapshot slots lead from the seeds to everything reachable at the flip. */
  lemma SnapshotReaches(s: State, words: Words, C: set<Obj>)
    requires CanCollect(s, Flip(words)) && Closed(s, s.h.keep) && forall o | o in s.h.keep :: o in s.colour
    requires SnapClosed(AfterCollect(s, Flip(words)).h, C)
    ensures Reach(s) <= C
  {
    var R := Reach(s);
    var h := AfterCollect(s, Flip(words)).h;
    ReachIsClosed(s, s.h.keep);
    forall m | m in s.mut ensures Held(s.mut[m]) <= C * R {
      forall o | o in Held(s.mut[m]) ensures o in C {
        assert o in SavedBy(s.mut[m]);
        assert o in h.seeds;
      }
    }
    assert s.bits <= h.seeds;
    forall l | l in s.heap && s.heap[l].To? && (l.Global? || l.owner in C * R) ensures s.heap[l].obj in C * R {
      assert l in h.snap;
    }
    assert Closed(s, C * R);
    ReachIsClosed(s, C * R);
  }

  lemma FlipColours(s: State, words: Words)
    requires Inv(s) && CanCollect(s, Flip(words))
    ensures var t := AfterCollect(s, Flip(words));
      && Typed(t) && Kept(t) && MutatorsOk(t) && t.h.keep <= s.h.keep
      && forall o | Allocated(t, o) :: White(t, o)
  {
    var t := AfterCollect(s, Flip(words));
    ReachIsClosed(s, s.h.keep);
    assert Closed(t, t.h.keep);
    forall m | m in t.mut ensures MutatorOk(t, t.mut[m]) { assert MutatorOk(s, s.mut[m]); }
  }

  lemma FlipSeeds(s: State, words: Words)
    requires CanCollect(s, Flip(words)) && MutatorsOk(s) && Kept(s)
    ensures forall o | o in AfterCollect(s, Flip(words)).h.seeds :: Allocated(s, o)
    ensures forall m | m in s.mut && s.mut[m].pc.Clearing? :: s.mut[m].pc.body in AfterCollect(s, Flip(words)).h.seeds
  {
    var h := AfterCollect(s, Flip(words)).h;
    ReachIsClosed(s, s.h.keep);
    forall m, o | m in s.mut && o in SavedBy(s.mut[m]) ensures Allocated(s, o) {
      assert MutatorOk(s, s.mut[m]);
      if o in s.mut[m].roots { assert o in Held(s.mut[m]) && Held(s.mut[m]) <= s.h.keep; }
    }
    forall m | m in s.mut && s.mut[m].pc.Clearing? ensures s.mut[m].pc.body in h.seeds {
      assert s.mut[m].pc.body in SavedBy(s.mut[m]);
    }
  }

  lemma FlipSnap(s: State, words: Words)
    requires CanCollect(s, Flip(words)) && MutatorsOk(s) && Kept(s)
    requires forall o | Allocated(s, o) :: White(AfterCollect(s, Flip(words)), o)
    ensures Snap(AfterCollect(s, Flip(words)))
  {
    var t := AfterCollect(s, Flip(words));
    ReachIsClosed(s, s.h.keep);
    FlipSeeds(s, words);
    forall C | SnapClosed(t.h, C) ensures t.h.first <= C { SnapshotReaches(s, words, C); }
    assert SnapTyped(t);
    assert SnapHeld(t) && BarriersOk(t);
    forall l | l in t.h.snap ensures Owed(t, l) {
      if l.Field? { assert Allocated(s, l.owner); }
    }
    forall o | o in t.h.seeds ensures Safe(t, To(o)) || o in t.gc.saved {}
  }

  lemma InvFlip(s: State, words: Words)
    requires Inv(s) && CanCollect(s, Flip(words))
    ensures Inv(AfterCollect(s, Flip(words)))
  {
    var t := AfterCollect(s, Flip(words));
    FlipColours(s, words);
    FlipSnap(s, words);
  }

  /** Recycling frees white objects, unpublishing removes free ones: neither touches what is in use. */
  ghost predicate RecycleFrame(s: State, t: State) {
    && t.heap == s.heap && t.bits == s.bits && t.mut == s.mut && t.h == s.h && (t.gc.Recycle? || t.gc.Idle?)
    && t.marked == s.marked
    && (forall o | Allocated(t, o) || White(t, o) :: Allocated(s, o) && t.colour[o] == s.colour[o])
    && (forall o | Allocated(s, o) && !White(s, o) :: Allocated(t, o))
    && (forall o | White(t, o) :: White(s, o))
    && (forall o | Allocated(t, o) && White(s, o) :: White(t, o))
  }

  lemma RecycleOneFrame(s: State, o: Obj)
    requires Typed(s) && s.gc.Recycle? && White(s, o)
    ensures Typed(s.(colour := s.colour[o := Green])) && RecycleFrame(s, s.(colour := s.colour[o := Green]))
  {}

  lemma UnpublishFrame(s: State, objs: set<Obj>)
    requires Typed(s) && s.gc.Recycle? && forall o | o in objs :: o in s.colour && s.colour[o] == Green
    ensures Typed(s.(colour := s.colour - objs)) && RecycleFrame(s, s.(colour := s.colour - objs))
  {}

  lemma EndCycleFrame(s: State)
    requires Typed(s) && s.gc.Recycle? && forall o | o in s.colour :: !White(s, o)
    ensures Typed(s.(gc := Idle, count := s.count + 1)) && RecycleFrame(s, s.(gc := Idle, count := s.count + 1))
  {}

  lemma RecycleStepFrame(s: State, st: Step)
    requires Typed(s) && CanCollect(s, st) && s.gc.Recycle?
    ensures Typed(AfterCollect(s, st)) && RecycleFrame(s, AfterCollect(s, st))
  {
    if st.RecycleOne? { RecycleOneFrame(s, st.o); }
    else if st.Unpublish? { UnpublishFrame(s, st.objs); }
    else { EndCycleFrame(s); }
  }

  lemma InvRecycle(s: State, st: Step)
    requires Inv(s) && CanCollect(s, st) && s.gc.Recycle?
    ensures Inv(AfterCollect(s, st))
  {
    RecycleStepFrame(s, st);
    hide Inv, Typed, RecycleFrame;
    RecycleKeeps(s, AfterCollect(s, st));
  }

  lemma RecycleKeeps(s: State, t: State)
    requires Inv(s) && s.gc.Recycle? && Typed(t) && RecycleFrame(s, t)
    ensures Inv(t)
  {
    forall m | m in t.mut ensures MutatorOk(t, t.mut[m]) { assert MutatorOk(s, s.mut[m]); }
    assert Closed(t, t.h.keep);
  }

  lemma InvCollect(s: State, st: Step)
    requires Inv(s) && CanCollect(s, st)
    ensures Inv(AfterCollect(s, st))
  {
    if st.Flip? {
      InvFlip(s, st.words);
    } else if s.gc.Recycle? {
      InvRecycle(s, st);
    } else if st.EndSweep? && !s.gc.found {
      InvFinish(s);
    } else {
      PosCollect(s, st);
      InvMarkPhase(s, AfterCollect(s, st));
    }
  }

  lemma PosCollect(s: State, st: Step)
    requires Position(s) && SnapTyped(s) && SnapHeld(s) && Kept(s) && Marking(s)
    requires CanCollect(s, st) && (st.EndSweep? ==> s.gc.found)
    ensures MarkFrame(s, AfterCollect(s, st)) && Position(AfterCollect(s, st))
  {
    match st {
      case TraceRoot(o) => PosTraceRoot(s, o);
      case RootsDone => PosRootsDone(s);
      case LoadSlot(l) => PosLoadSlot(s, l);
      case LoadStray(o) => PosLoadStray(s, o);
      case TraceSlot => PosTraceSlot(s);
      case SlotsDone => PosSlotsDone(s);
      case Pick(o) => PosPick(s, o);
      case BeginSweep => PosBeginSweep(s);
      case Skip(j) => PosSkip(s, j);
      case See => PosSee(s);
      case ShadeHit => PosShadeHit(s);
      case ClearHit => PosClearHit(s);
      case EndSweep => PosEndSweep(s);
    }
  }

  lemma InvInit(s: State)
    requires Init(s)
    ensures Inv(s)
  {}

  lemma InvNext(s: State, s': State)
    requires Inv(s) && Next(s, s')
    ensures Inv(s')
  {
    var st :| Enabled(s, st) && s' == After(s, st);
    if CanMutate(s, st) { InvMutate(s, st); } else { InvCollect(s, st); }
  }

  lemma {:induction false} InvRun(r: seq<State>, i: nat)
    requires Run(r) && i < |r|
    ensures Inv(r[i])
  {
    hide Inv, Init, Next;
    if i == 0 { InvInit(r[0]); } else { InvRun(r, i - 1); assert StepAt(r, i - 1); InvNext(r[i - 1], r[i]); }
  }
}
