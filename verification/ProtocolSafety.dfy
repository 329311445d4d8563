/**
 Whole-run theorems: nothing in use is ever free, the vector never names a free
 header, and a cycle recycles exactly what was unreachable at its flip.
 */
module ProtocolSafety {
  import opened Colours
  import opened Protocol
  import opened ProtocolInvariant
  import opened ProtocolTraced

  // ---------------------------------------------------------------- reachability by paths

  ghost predicate Root(s: State, o: Obj) {
    || (exists m :: m in s.mut && o in Held(s.mut[m]))
    || o in s.bits
    || exists l :: l in s.heap && l.Global? && s.heap[l] == To(o)
  }

  ghost predicate Edge(s: State, a: Obj, b: Obj) {
    exists l :: l in s.heap && OwnedBy(l, a) && s.heap[l] == To(b)
  }

  ghost predicate EdgeAt(s: State, p: seq<Obj>, i: nat)
    requires i + 1 < |p|
  {
    Edge(s, p[i], p[i + 1])
  }

  ghost predicate Path(s: State, p: seq<Obj>) {
    p != [] && Root(s, p[0]) && forall i: nat | i + 1 < |p| :: EdgeAt(s, p, i)
  }

  ghost predicate PathTo(s: State, o: Obj) {
    exists p :: Path(s, p) && p[|p| - 1] == o
  }

  lemma {:induction false} PathStaysIn(s: State, p: seq<Obj>, C: set<Obj>)
    requires Path(s, p) && Closed(s, C)
    ensures p[|p| - 1] in C
  {
    if |p| > 1 {
      var q := p[..|p| - 1];
      forall i: nat | i + 1 < |q| ensures EdgeAt(s, q, i) { assert EdgeAt(s, p, i); }
      PathStaysIn(s, q, C);
      assert EdgeAt(s, p, |p| - 2);
    }
  }

  /** Reach is reachability: a member is exactly the end of a path of slots from a root. */
  lemma ReachIffPath(s: State, o: Obj)
    requires Inv(s)
    ensures o in Reach(s) <==> PathTo(s, o)
  {
    ReachIsClosed(s, s.h.keep);
    if PathTo(s, o) {
      var p :| Path(s, p) && p[|p| - 1] == o;
      PathStaysIn(s, p, Reach(s));
    }
    if o in Reach(s) {
      PathsAreClosed(s);
    }
  }

  lemma PathGrows(s: State, l: Loc)
    requires l in s.heap && s.heap[l].To? && l.Field? && PathTo(s, l.owner)
    ensures PathTo(s, s.heap[l].obj)
  {
    var p :| Path(s, p) && p[|p| - 1] == l.owner;
    var q := p + [s.heap[l].obj];
    forall i: nat | i + 1 < |q| ensures EdgeAt(s, q, i) {
      if i + 1 < |p| { assert EdgeAt(s, p, i); } else { assert OwnedBy(l, l.owner); }
    }
    assert Path(s, q) && q[|q| - 1] == s.heap[l].obj;
  }

  lemma PathsAreClosed(s: State)
    requires Closed(s, Reach(s))
    ensures forall o | o in Reach(s) :: PathTo(s, o)
  {
    var C := set o | o in Reach(s) && PathTo(s, o);
    forall o | o in Reach(s) && Root(s, o) ensures o in C {
      assert Path(s, [o]) && [o][|[o]| - 1] == o;
    }
    forall l | l in s.heap && s.heap[l].To? && l.Field? && l.owner in C ensures s.heap[l].obj in C {
      PathGrows(s, l);
    }
    assert Closed(s, C);
    ReachMinimal(s, C);
  }

  lemma ReachMinimal(s: State, C: set<Obj>)
    requires Closed(s, C)
    ensures Reach(s) <= C
  {
    forall o | o in Reach(s) ensures o in C { assert InEveryClosed(s, o); }
  }

  // ---------------------------------------------------------------- one step, seen from a run

  predicate IsFlip(s: State, s': State) { s.gc.Idle? && s'.gc.ScanRoots? }

  predicate IsEndOfCycle(s: State, s': State) { s.gc.Recycle? && s'.gc.Idle? }

  /** In use at s: reachable, or handed out by an allocation that has still to clear it. */
  ghost predicate Live(s: State, o: Obj) { o in Reach(s) || Raw(s, o) }

  /** In use at the flip of this cycle, or allocated since. */
  ghost predicate Retained(s: State, o: Obj) { o in s.h.keep || Raw(s, o) }

  /**
   All that the cycle which flips from s to t starts from: the words saved, the stray words,
   and the bits already set.
   */
  function FlipRoots(s: State, t: State): set<Obj>
    requires t.gc.ScanRoots?
  {
    t.gc.saved + t.strays + s.bits
  }

  /** What the invariant says about single objects. */
  ghost predicate Sound(s: State) {
    && (forall o | Live(s, o) :: Retained(s, o))
    && (forall o | Retained(s, o) :: Allocated(s, o))
    && (forall o | o in s.bits :: Allocated(s, o))
    && (!s.gc.Idle? ==> forall o | Allocated(s, o) && !Retained(s, o) && o !in s.h.traced :: White(s, o))
  }

  /** What a step can do to the fate of single objects. */
  ghost predicate Evolves(s: State, s': State) {
    && (forall o | o in Reach(s') :: Live(s, o))
    && (forall o | Raw(s', o) && Allocated(s, o) :: Raw(s, o))
    && s'.count == s.count + (if IsEndOfCycle(s, s') then 1 else 0)
    && (s.gc.Idle? && !s'.gc.Idle? ==> IsFlip(s, s'))
    && (IsEndOfCycle(s, s') ==> forall o :: !White(s, o))
    && (if IsFlip(s, s') then
          && (forall o :: Retained(s', o) <==> Live(s, o))
          && (forall o :: Allocated(s', o) <==> Allocated(s, o))
          && s'.h.traced == Traced(s, FlipRoots(s, s')) && (forall o | Live(s, o) :: o in s'.h.traced)
        else
          && (forall o | Retained(s, o) :: Retained(s', o))
          && (forall o | Allocated(s, o) && Retained(s', o) :: Retained(s, o))
          && (forall o | !Allocated(s, o) && Allocated(s', o) :: Retained(s', o))
          && s'.h.traced == s.h.traced)
  }

  lemma InvSound(s: State)
    requires Inv(s) && TracedOk(s)
    ensures Sound(s)
  {
    ReachIsClosed(s, s.h.keep);
    forall o | Raw(s, o) ensures Allocated(s, o) {
      var k :| k in s.mut && s.mut[k].pc == Clearing(o);
      assert MutatorOk(s, s.mut[k]);
    }
  }

  lemma MutateEvolves(s: State, st: Step)
    requires Inv(s) && CanMutate(s, st)
    ensures Evolves(s, AfterMutate(s, st))
  {
    ReachIsClosed(s, s.h.keep);
    var m := MutateEffect(s, st, Reach(s));
    var born := if st.Clear? then {s.mut[st.m].pc.body} else {};
    forall o | o in born ensures Raw(s, o) { assert s.mut[st.m].pc == Clearing(o); }
    hide Inv, MutEffect, Evolves, AfterMutate, Closed;
    EffectEvolves(s, AfterMutate(s, st), m, born);
  }

  lemma EffectEvolves(s: State, t: State, m: Mid, born: set<Obj>)
    requires MutEffect(s, t, m) && Closed(t, Reach(s) + born) && forall o | o in born :: Raw(s, o)
    ensures Evolves(s, t)
  {
    ReachMinimal(t, Reach(s) + born);
    EffectRaw(s, t, m);
  }

  lemma EffectRaw(s: State, t: State, m: Mid)
    requires MutEffect(s, t, m)
    ensures forall o | Raw(t, o) && Allocated(s, o) :: Raw(s, o)
    ensures forall o | Retained(s, o) :: Retained(t, o)
    ensures forall o | Allocated(s, o) && Retained(t, o) :: Retained(s, o)
    ensures forall o | !Allocated(s, o) && Allocated(t, o) :: Retained(t, o)
    ensures t.h.traced == s.h.traced
  {
    forall o | Raw(t, o) && Allocated(s, o) ensures Raw(s, o) {
      var k :| k in t.mut && t.mut[k].pc == Clearing(o);
      assert k in s.mut && s.mut[k].pc == Clearing(o);
    }
    forall o | Raw(s, o) ensures Retained(t, o) {
      var k :| k in s.mut && s.mut[k].pc == Clearing(o);
      assert (k in t.mut && t.mut[k].pc == Clearing(o)) || o in t.h.keep;
    }
  }

  lemma CollectEvolves(s: State, st: Step)
    requires Inv(s) && CanCollect(s, st)
    ensures Evolves(s, AfterCollect(s, st))
  {
    var t := AfterCollect(s, st);
    ReachIsClosed(s, s.h.keep);
    CollectFrame(s, st);
    CollectFrees(s, st);
    FlipFrame(s, st);
    if st.Flip? {
      FlipEffect(s, st.words);
      LiveIsTraced(s, st.words);
    }
    hide Inv, AfterCollect, CanCollect, Traced;
    assert Closed(t, Reach(s));
    ReachMinimal(t, Reach(s));
    forall o ensures Raw(t, o) == Raw(s, o) { RawSame(s, t, o); }
    hide Raw, Reach, Closed;
  }

  lemma RawSame(s: State, t: State, o: Obj)
    requires s.mut == t.mut
    ensures Raw(t, o) == Raw(s, o)
  {}

  /** A collector step writes no slot, sets no bit and allocates nothing. */
  lemma CollectFrame(s: State, st: Step)
    requires CanCollect(s, st)
    ensures var t := AfterCollect(s, st);
      && t.heap == s.heap && t.mut == s.mut && t.bits <= s.bits
      && t.count == s.count + (if IsEndOfCycle(s, t) then 1 else 0)
      && (IsEndOfCycle(s, t) ==> forall o :: !White(s, o))
  {}

  lemma CollectFrees(s: State, st: Step)
    requires CanCollect(s, st) && Typed(s)
    ensures forall o | Allocated(AfterCollect(s, st), o) :: Allocated(s, o)
  {}

  lemma FlipFrame(s: State, st: Step)
    requires CanCollect(s, st)
    ensures var t := AfterCollect(s, st);
      && (s.gc.Idle? ==> st.Flip?) && (st.Flip? <==> IsFlip(s, t))
      && (!st.Flip? ==> t.h == s.h.(base := t.h.base))
  {}

  lemma FlipEffect(s: State, words: Words)
    requires CanCollect(s, Flip(words))
    ensures var t := AfterCollect(s, Flip(words));
      && t.h.keep == Reach(s) && t.colour == s.colour && t.gc == ScanRoots(Saved(s) + words.saved)
      && t.strays == words.stray && t.h.traced == Traced(s, t.gc.saved + t.strays + s.bits)
  {}

  lemma NextEvolves(s: State, s': State)
    requires Inv(s) && Next(s, s')
    ensures Evolves(s, s')
  {
    var st :| Enabled(s, st) && s' == After(s, st);
    if CanMutate(s, st) { MutateEvolves(s, st); } else { CollectEvolves(s, st); }
  }

  /** All that the theorems below use of a run. */
  lemma StepOfRun(r: seq<State>, k: nat)
    requires Run(r) && k < |r|
    ensures Sound(r[k]) && (k + 1 < |r| ==> Evolves(r[k], r[k + 1]))
  {
    InvRun(r, k);
    TracedRun(r, k);
    InvSound(r[k]);
    if k + 1 < |r| {
      assert StepAt(r, k);
      NextEvolves(r[k], r[k + 1]);
    }
  }

  // ---------------------------------------------------------------- safety over whole runs

  /** No object in use is free, and no bit of the vector names a free header, in any reachable state. */
  lemma NothingLiveIsFree(r: seq<State>, k: nat, o: Obj)
    requires Run(r) && k < |r|
    ensures Live(r[k], o) ==> Allocated(r[k], o)
    ensures o in r[k].bits || r[k].gc == Hit(o) ==> Allocated(r[k], o)
  {
    StepOfRun(r, k);
    InvRun(r, k);
  }

  predicate FlipAt(r: seq<State>, k: nat)
    requires k + 1 < |r|
  {
    IsFlip(r[k], r[k + 1])
  }

  predicate AllocatedAt(r: seq<State>, k: nat, o: Obj)
    requires k + 1 < |r|
  {
    !Allocated(r[k], o) && Allocated(r[k + 1], o)
  }

  /** No step from state i to state j is a flip. */
  ghost predicate NoFlip(r: seq<State>, i: nat, j: nat)
    requires j < |r|
  {
    forall k: nat | i <= k < j :: !FlipAt(r, k)
  }

  lemma {:induction false} RetainedUntilNextFlip(r: seq<State>, i: nat, j: nat, o: Obj)
    requires Run(r) && i <= j < |r| && NoFlip(r, i, j) && Retained(r[i], o)
    ensures Retained(r[j], o)
  {
    if i < j {
      RetainedUntilNextFlip(r, i, j - 1, o);
      StepOfRun(r, j - 1);
      assert !FlipAt(r, j - 1);
    }
  }

  /**
   Snapshot safety.  The flip leads from state i to i + 1.  Whatever was in use at the
   flip, and whatever was allocated since, is not free before the next flip, so this
   cycle recycles none of it.
   */
  lemma SnapshotSafety(r: seq<State>, i: nat, j: nat, o: Obj)
    requires Run(r) && i < j < |r| && FlipAt(r, i) && NoFlip(r, i + 1, j)
    requires Live(r[i], o) || exists k: nat :: i < k < j && AllocatedAt(r, k, o)
    ensures Allocated(r[j], o)
  {
    if Live(r[i], o) {
      StepOfRun(r, i);
      RetainedUntilNextFlip(r, i + 1, j, o);
    } else {
      var k: nat :| i < k < j && AllocatedAt(r, k, o);
      StepOfRun(r, k);
      assert !FlipAt(r, k);
      RetainedUntilNextFlip(r, k + 1, j, o);
    }
    StepOfRun(r, j);
  }

  // ---------------------------------------------------------------- exactness

  ghost predicate FreedWithin(r: seq<State>, i: nat, j: nat, o: Obj)
    requires j < |r|
  {
    exists k {:trigger r[k]} :: i < k <= j && !Allocated(r[k], o)
  }

  lemma {:induction false} GarbageStaysWhite(r: seq<State>, i: nat, j: nat, o: Obj)
    requires Run(r) && i <= j < |r| && NoFlip(r, i, j) && !FreedWithin(r, i, j, o)
    requires Allocated(r[i], o) && !Retained(r[i], o) && o !in r[i].h.traced
    ensures Allocated(r[j], o) && !Retained(r[j], o) && o !in r[j].h.traced
    ensures !r[j].gc.Idle? ==> White(r[j], o)
  {
    if i < j {
      GarbageStaysWhite(r, i, j - 1, o);
      StepOfRun(r, j - 1);
      assert !FlipAt(r, j - 1);
    }
    StepOfRun(r, j);
  }

  /** The cycle that flips from state i to i + 1 and ends at state j. */
  predicate Cycle(r: seq<State>, i: nat, j: nat) {
    i + 1 < j < |r| && FlipAt(r, i) && IsEndOfCycle(r[j - 1], r[j])
  }

  /** What the collector could come across in the cycle that flips from state i to i + 1. */
  ghost function TracedFrom(r: seq<State>, i: nat): set<Obj>
    requires i + 1 < |r| && FlipAt(r, i)
  {
    Traced(r[i], FlipRoots(r[i], r[i + 1]))
  }

  /** Half of exactness: what words and bits of the cycle did not lead to at its flip is freed by its end. */
  lemma UntracedIsFreed(r: seq<State>, i: nat, j: nat, o: Obj)
    requires Run(r) && Cycle(r, i, j) && NoFlip(r, i + 1, j) && Allocated(r[i], o) && o !in TracedFrom(r, i)
    ensures FreedWithin(r, i, j, o)
  {
    hide Run, Reach, Raw, Traced;
    if !FreedWithin(r, i, j, o) {
      StepOfRun(r, i);
      StepOfRun(r, i + 1);
      GarbageStaysWhite(r, i + 1, j - 1, o);
      StepOfRun(r, j - 1);
    }
  }

  /** The other half: what is in use at the flip is not freed in the cycle. */
  lemma LiveIsNotFreed(r: seq<State>, i: nat, j: nat, o: Obj)
    requires Run(r) && Cycle(r, i, j) && NoFlip(r, i + 1, j) && Live(r[i], o)
    ensures !FreedWithin(r, i, j, o)
  {
    forall k | i < k <= j ensures Allocated(r[k], o) { SnapshotSafety(r, i, k, o); }
  }

  /** The words and bits of the cycle lead to nothing that is not in use at its flip. */
  ghost predicate TracesOnlyLive(r: seq<State>, i: nat)
    requires i + 1 < |r| && FlipAt(r, i)
  {
    forall o | o in TracedFrom(r, i) :: Live(r[i], o)
  }

  /**
   Exactness.  If words and bits of the cycle lead to nothing but what is in use at its flip,
   the cycle frees exactly what was allocated at the flip and not in use.
   */
  lemma CycleIsExact(r: seq<State>, i: nat, j: nat, o: Obj)
    requires Run(r) && Cycle(r, i, j) && NoFlip(r, i + 1, j) && Allocated(r[i], o) && TracesOnlyLive(r, i)
    ensures FreedWithin(r, i, j, o) <==> !Live(r[i], o)
  {
    if Live(r[i], o) { LiveIsNotFreed(r, i, j, o); } else { UntracedIsFreed(r, i, j, o); }
  }

  /** What the mutators can use, leaving out the bits an earlier cycle's barrier set late. */
  ghost function Usable(s: State): set<Obj> { Reach(s.(bits := {})) }

  /** Late bits are the only difference between reachable and usable. */
  lemma ReachIsUsableIff(s: State)
    requires Inv(s)
    ensures Usable(s) <= Reach(s)
    ensures Reach(s) == Usable(s) <==> s.bits <= Usable(s)
  {
    var u := s.(bits := {});
    ReachIsClosed(s, s.h.keep);
    ReachIsClosed(u, s.h.keep);
    assert Closed(u, Reach(s));
    ReachMinimal(u, Reach(s));
    if s.bits <= Usable(s) {
      assert Closed(s, Usable(s));
      ReachMinimal(s, Usable(s));
    }
  }

  // ---------------------------------------------------------------- two cycles are enough

  /** A whole cycle, from the flip at k to the end at e, between states i and j. */
  ghost predicate WholeCycle(r: seq<State>, i: nat, j: nat, k: nat, e: nat)
    requires j < |r|
  {
    i <= k && e <= j && Cycle(r, k, e) && NoFlip(r, k + 1, e)
  }

  /** Where gc_count reaches c: at the end of a cycle. */
  lemma {:induction false} CountReaches(r: seq<State>, a: nat, j: nat, c: nat) returns (e: nat)
    requires Run(r) && a <= j < |r| && r[a].count < c <= r[j].count
    ensures a < e <= j && IsEndOfCycle(r[e - 1], r[e]) && r[e].count == c
  {
    if a == j { assert false; }
    StepOfRun(r, j - 1);
    hide Sound;
    if r[j - 1].count < c { e := j; } else { e := CountReaches(r, a, j - 1, c); }
  }

  /** The flip of the cycle under way in state e. */
  lemma {:induction false} FlipBefore(r: seq<State>, a: nat, e: nat) returns (k: nat)
    requires Run(r) && a <= e < |r| && r[a].gc.Idle? && !r[e].gc.Idle?
    ensures a <= k < e && FlipAt(r, k) && NoFlip(r, k + 1, e)
  {
    StepOfRun(r, e - 1);
    hide Sound;
    if r[e - 1].gc.Idle? { k := e - 1; } else { k := FlipBefore(r, a, e - 1); }
  }

  /** A wait in which gc_count advances by 2 holds a whole cycle, wherever the collector was when it began. */
  lemma TwoCyclesHoldAWholeOne(r: seq<State>, i: nat, j: nat) returns (k: nat, e: nat)
    requires Run(r) && i <= j < |r| && r[j].count >= r[i].count + 2
    ensures WholeCycle(r, i, j, k, e)
  {
    var a := CountReaches(r, i, j, r[i].count + 1);
    e := CountReaches(r, a, j, r[i].count + 2);
    k := FlipBefore(r, a, e - 1);
    assert !FlipAt(r, e - 1);
  }

  /** Some whole cycle between states i and j starts from words and bits that do not lead to o. */
  ghost predicate MissedOnce(r: seq<State>, i: nat, j: nat, o: Obj)
    requires j < |r|
  {
    exists k: nat, e: nat :: WholeCycle(r, i, j, k, e) && o !in TracedFrom(r, k)
  }

  /** One whole cycle that does not come across an object is enough. */
  lemma OneMissFrees(r: seq<State>, i: nat, j: nat, o: Obj)
    requires Run(r) && i <= j < |r| && Allocated(r[i], o) && MissedOnce(r, i, j, o)
    ensures FreedWithin(r, i, j, o)
  {
    var k: nat, e: nat :| WholeCycle(r, i, j, k, e) && o !in TracedFrom(r, k);
    if Allocated(r[k], o) { UntracedIsFreed(r, k, e, o); }
  }

  /**
   The wait of an allocation that found no memory.  Once gc_count has advanced by 2 a whole
   cycle has passed, and an object that some whole cycle of the wait did not come across
   has been freed.
   */
  lemma TwoCyclesFreeAllGarbage(r: seq<State>, i: nat, j: nat, o: Obj)
    requires Run(r) && i <= j < |r| && r[j].count >= r[i].count + 2 && Allocated(r[i], o)
    ensures exists k: nat, e: nat :: WholeCycle(r, i, j, k, e)
    ensures (exists k: nat, e: nat :: WholeCycle(r, i, j, k, e) && o !in TracedFrom(r, k)) ==> FreedWithin(r, i, j, o)
  {
    var k, e := TwoCyclesHoldAWholeOne(r, i, j);
    if MissedOnce(r, i, j, o) { OneMissFrees(r, i, j, o); }
  }
}
