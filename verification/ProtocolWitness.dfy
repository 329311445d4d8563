/**
 Runs in which a cycle keeps what no mutator can use: the conditions of the exactness
 theorems cannot be left out.
 */
module ProtocolWitness {
  import opened Colours
  import opened Protocol
  import opened ProtocolInvariant
  import opened ProtocolTraced
  import opened ProtocolSafety
  import opened ProtocolBounds
  import opened ProtocolLone
  import opened ProtocolExact

  // ---------------------------------------------------------------- writing runs down

  /** Some run ends in s. */
  ghost predicate Reached(s: State) {
    exists r :: Run(r) && r[|r| - 1] == s
  }

  lemma Begin(s: State)
    requires Init(s)
    ensures Reached(s)
  {
    assert Run([s]);
  }

  lemma GrowRun(r: seq<State>, t: State)
    requires Run(r) && Next(r[|r| - 1], t)
    ensures Run(r + [t])
  {
    var q := r + [t];
    hide Next, Init;
    forall k: nat | k + 1 < |q| ensures StepAt(q, k) {
      if k + 1 < |r| { assert StepAt(r, k); }
    }
  }

  lemma Grow(s: State, st: Step, t: State)
    requires Reached(s) && Enabled(s, st) && t == After(s, st)
    ensures Reached(t)
  {
    var r :| Run(r) && r[|r| - 1] == s;
    hide Run, Enabled, After;
    GrowRun(r, t);
    assert (r + [t])[|r + [t]| - 1] == t;
  }

  lemma Take(s: State, m: Mid, o: Obj, body: map<nat, Ref>, t: State)
    requires Reached(s) && MutatorReady(s, m) && o in s.colour && s.colour[o] == Green
    requires t == s.(colour := s.colour[o := s.marked], heap := Refit(s.heap, o, body),
                     mut := s.mut[m := Mutator(s.mut[m].roots, Clearing(o))])
    ensures Reached(t)
  {
    hide Reached, Refit;
    assert CanMutate(s, Alloc(m, o, body)) && t == AfterMutate(s, Alloc(m, o, body));
    hide CanMutate, AfterMutate, CanCollect, AfterCollect;
    Grow(s, Alloc(m, o, body), t);
  }

  lemma Wipe(s: State, m: Mid, o: Obj, t: State)
    requires Reached(s) && m in s.mut && s.mut[m].pc == Clearing(o)
    requires t == s.(heap := Cleared(s.heap, o), mut := s.mut[m := Mutator(s.mut[m].roots + {o}, Ready)],
                     h := s.h.(keep := s.h.keep + {o}))
    ensures Reached(t)
  {
    hide Reached;
    Grow(s, Clear(m), t);
  }

  /** Before the first flip. */
  function Early(n: nat, colour: map<Obj, Colour>, heap: map<Loc, Ref>, mut: map<Mid, Mutator>, keep: set<Obj>): State {
    State(n, colour, Gen0, Gen1, heap, {}, false, mut, Idle, 0, {}, History(keep, {}, {}, map[], {}, {}))
  }

  /** An allocation of o with these slots, when it has been cleared. */
  ghost predicate Wiped(heap: map<Loc, Ref>, o: Obj, slots: set<nat>, heap': map<Loc, Ref>) {
    && (forall l :: l in heap' <==> if OwnedBy(l, o) then l.slot in slots else l in heap)
    && (forall l | l in heap' :: heap'[l] == if OwnedBy(l, o) then Null else heap[l])
  }

  lemma WipedHeap(heap: map<Loc, Ref>, o: Obj, slots: set<nat>, heap': map<Loc, Ref>)
    requires Wiped(heap, o, slots, heap')
    ensures heap' == Cleared(Refit(heap, o, map i | i in slots :: Null), o)
  {}

  /** An allocation, both halves: nothing of the body is left. */
  lemma New(n: nat, colour: map<Obj, Colour>, heap: map<Loc, Ref>, mut: map<Mid, Mutator>, keep: set<Obj>,
            m: Mid, o: Obj, slots: set<nat>, heap': map<Loc, Ref>)
    requires Reached(Early(n, colour, heap, mut, keep)) && m in mut && mut[m].pc.Ready?
    requires o in colour && colour[o] == Green && Wiped(heap, o, slots, heap')
    ensures Reached(Early(n, colour[o := Gen0], heap', mut[m := Mutator(mut[m].roots + {o}, Ready)], keep + {o}))
  {
    WipedHeap(heap, o, slots, heap');
    hide Reached, Wiped, Cleared, Refit;
    var body := map i | i in slots :: Null;
    NewFor(n, colour, heap, mut, keep, m, o, body);
  }

  lemma NewFor(n: nat, colour: map<Obj, Colour>, heap: map<Loc, Ref>, mut: map<Mid, Mutator>, keep: set<Obj>,
               m: Mid, o: Obj, body: map<nat, Ref>)
    requires Reached(Early(n, colour, heap, mut, keep)) && m in mut && mut[m].pc.Ready?
    requires o in colour && colour[o] == Green
    ensures Reached(Early(n, colour[o := Gen0], Cleared(Refit(heap, o, body), o),
                          mut[m := Mutator(mut[m].roots + {o}, Ready)], keep + {o}))
  {
    hide Reached, Cleared, Refit;
    var taken := mut[m := Mutator(mut[m].roots, Clearing(o))];
    var s := Early(n, colour[o := Gen0], Refit(heap, o, body), taken, keep);
    Take(Early(n, colour, heap, mut, keep), m, o, body, s);
    var mut' := mut[m := Mutator(mut[m].roots + {o}, Ready)];
    assert taken[m := Mutator(mut[m].roots + {o}, Ready)] == mut';
    Wipe(s, m, o, Early(n, colour[o := Gen0], Cleared(s.heap, o), mut', keep + {o}));
  }

  /** An assignment while the barrier is off. */
  lemma Assign(n: nat, colour: map<Obj, Colour>, heap: map<Loc, Ref>, mut: map<Mid, Mutator>, keep: set<Obj>,
               m: Mid, l: Loc, rhs: Ref)
    requires Reached(Early(n, colour, heap, mut, keep)) && m in mut && mut[m].pc.Ready?
    requires l in heap && Accessible(mut[m], l) && Holds(mut[m], rhs)
    ensures Reached(Early(n, colour, heap[l := rhs], mut, keep))
  {
    hide Reached;
    var s := Early(n, colour, heap, mut, keep);
    var t := AfterMutate(s, Enter(m, l, rhs));
    Grow(s, Enter(m, l, rhs), t);
    assert t.mut[m := mut[m]] == mut && mut[m] == Mutator(mut[m].roots, Ready);
    Grow(t, Store(m), Early(n, colour, heap[l := rhs], mut, keep));
  }

  lemma Forget(s: State, m: Mid, o: Obj, t: State)
    requires Reached(s) && MutatorReady(s, m)
    requires t == s.(mut := s.mut[m := Mutator(s.mut[m].roots - {o}, Ready)])
    ensures Reached(t)
  {
    Grow(s, DropRef(m, o), t);
  }

  /** What a cycle no mutator disturbs leads to. */
  ghost predicate QuietAfter(s: State, t: State) {
    && t.gc.Idle? && !t.barrier && t.bits == {} && t.marked == s.unmarked && t.unmarked == s.marked
    && t.heap == s.heap && t.mut == s.mut && t.bitCount == s.bitCount && t.count == s.count + 1
    && t.colour == map o | o in s.colour :: if o in Traced(s, Roots(s, NO_WORDS)) then s.unmarked else Green
  }

  /** From state i to state j, the last, a cycle passes that no mutator disturbs. */
  ghost predicate QuietRun(r: seq<State>, i: nat, j: nat) {
    && Run(r) && Cycle(r, i, j) && NoFlip(r, i + 1, j) && j == |r| - 1 && QuietAfter(r[i], r[j])
    && TracedFrom(r, i) == Traced(r[i], Roots(r[i], NO_WORDS))
    && forall o | o in TracedFrom(r, i) :: Allocated(r[i], o) && !FreedWithin(r, i, j, o)
  }

  lemma QuietStart(p: seq<State>) returns (q: seq<State>)
    requires Run(p) && CanCollect(p[|p| - 1], Flip(NO_WORDS))
    ensures q == p + [AfterCollect(p[|p| - 1], Flip(NO_WORDS))] && Run(q) && FlipAt(q, |p| - 1)
    ensures var s := p[|p| - 1];
            && TracedFrom(q, |p| - 1) == Found(q[|p|]) == Traced(s, Roots(s, NO_WORDS))
            && forall o | o in TracedFrom(q, |p| - 1) :: Allocated(s, o)
  {
    q := Flips(p, NO_WORDS);
    hide Run, Traced, AfterCollect, CanCollect, Roots, Found, Started;
    FlipStarts(q, |p| - 1);
  }

  /** A run goes on with such a cycle. */
  lemma Quietly(p: seq<State>) returns (r: seq<State>, j: nat)
    requires Run(p) && CanCollect(p[|p| - 1], Flip(NO_WORDS))
    ensures p <= r && |r| > 0 && QuietRun(r, |p| - 1, j)
  {
    var i := |p| - 1;
    var q := QuietStart(p);
    hide Run, Traced, AfterCollect, CanCollect, Roots, Found, FreedWithin, NoFlip, Live, EndsAlone, QuietAfter, Cycle;
    r, j := TracedCanStay(q, i);
    hide FlipAt;
    SameStart(p, q, i, r);
    QuietlyAfter(p[i], q[i + 1], r[j]);
  }

  lemma SameStart(p: seq<State>, q: seq<State>, i: nat, r: seq<State>)
    requires GoesOn(q, i, r) && |q| == |p| + 1 == i + 2 && p <= q
    ensures p <= r && r[i] == q[i] && r[i + 1] == q[i + 1]
  {
    assert p == r[..i + 2][..|p|];
    assert r[i + 1] == r[..i + 2][i + 1] && r[i] == r[..i + 2][i];
  }

  lemma QuietlyAfter(s: State, a: State, t: State)
    requires CanCollect(s, Flip(NO_WORDS)) && a == AfterCollect(s, Flip(NO_WORDS))
    requires Found(a) == Traced(s, Roots(s, NO_WORDS)) && EndsAlone(a, t)
    ensures QuietAfter(s, t)
  {
    FlipKeeps(s);
    hide Found, Traced, Roots, AfterCollect, CanCollect;
  }

  lemma QuietCycle(s: State) returns (t: State)
    requires Reached(s) && CanCollect(s, Flip(NO_WORDS))
    ensures Reached(t) && QuietAfter(s, t)
  {
    var p :| Run(p) && p[|p| - 1] == s;
    hide Run, CanCollect, QuietAfter, NoFlip, Cycle, FreedWithin, Traced;
    var r, j := Quietly(p);
    t := r[j];
  }

  lemma FlipKeeps(s: State)
    requires CanCollect(s, Flip(NO_WORDS))
    ensures var t := AfterCollect(s, Flip(NO_WORDS));
            t.heap == s.heap && t.mut == s.mut && t.bitCount == s.bitCount && t.colour == s.colour
            && t.marked == s.unmarked && t.unmarked == s.marked && t.count == s.count
  {}

  lemma Flips(r: seq<State>, words: Words) returns (q: seq<State>)
    requires Run(r) && CanCollect(r[|r| - 1], Flip(words))
    ensures q == r + [AfterCollect(r[|r| - 1], Flip(words))] && Run(q) && FlipAt(q, |r| - 1)
    ensures TracedFrom(q, |r| - 1) == Traced(r[|r| - 1], Roots(r[|r| - 1], words))
  {
    var s := r[|r| - 1];
    var t := AfterCollect(s, Flip(words));
    assert t == After(s, Flip(words));
    q := r + [t];
    hide Run, AfterCollect, CanCollect;
    GrowRun(r, t);
    FlipEffect(s, words);
  }

  // ---------------------------------------------------------------- a stale word of a body not cleared yet

  lemma NothingYet()
    ensures Reached(Early(2, map[0 := Green, 1 := Green], map[], map[0 := Mutator({}, Ready)], {}))
  {
    Begin(Early(2, map[0 := Green, 1 := Green], map[], map[0 := Mutator({}, Ready)], {}));
  }

  lemma OneObject()
    ensures Reached(Early(2, map[0 := Gen0, 1 := Green], map[Field(0, 0) := Null], map[0 := Mutator({0}, Ready)], {0}))
  {
    NothingYet();
    hide Reached, Early;
    var colour, mut: map<Mid, Mutator> := map[0 := Green, 1 := Green], map[0 := Mutator({}, Ready)];
    New(2, colour, map[], mut, {}, 0, 0, {0}, map[Field(0, 0) := Null]);
    assert colour[0 := Gen0] == map[0 := Gen0, 1 := Green];
    assert {} + {0} == {0};
    assert mut[0 := Mutator({0}, Ready)] == map[0 := Mutator({0}, Ready)];
  }

  /** Objects 0 and 1, the first with one empty slot, both held by thread 0. */
  lemma TwoObjects()
    ensures Reached(Early(2, map[0 := Gen0, 1 := Gen0], map[Field(0, 0) := Null], map[0 := Mutator({0, 1}, Ready)],
                          {0, 1}))
  {
    OneObject();
    hide Reached, Early;
    var colour, mut: map<Mid, Mutator> := map[0 := Gen0, 1 := Green], map[0 := Mutator({0}, Ready)];
    New(2, colour, map[Field(0, 0) := Null], mut, {0}, 0, 1, {}, map[Field(0, 0) := Null]);
    assert colour[1 := Gen0] == map[0 := Gen0, 1 := Gen0];
    assert {0} + {1} == {0, 1};
    assert mut[0 := Mutator({0, 1}, Ready)] == map[0 := Mutator({0, 1}, Ready)];
  }

  /** Object 0 refers to object 1, and only object 1 is held. */
  lemma Linked()
    ensures Reached(Early(2, map[0 := Gen0, 1 := Gen0], map[Field(0, 0) := To(1)], map[0 := Mutator({1}, Ready)],
                          {0, 1}))
  {
    TwoObjects();
    var colour, mut: map<Mid, Mutator> := map[0 := Gen0, 1 := Gen0], map[0 := Mutator({0, 1}, Ready)];
    var heap: map<Loc, Ref> := map[Field(0, 0) := Null];
    hide Reached;
    Assign(2, colour, heap, mut, {0, 1}, 0, Field(0, 0), To(1));
    assert heap[Field(0, 0) := To(1)] == map[Field(0, 0) := To(1)];
    assert {0, 1} - {0} == {1};
    assert mut[0 := Mutator({1}, Ready)] == map[0 := Mutator({1}, Ready)];
    Forget(Early(2, colour, map[Field(0, 0) := To(1)], mut, {0, 1}), 0, 0,
           Early(2, colour, map[Field(0, 0) := To(1)], map[0 := Mutator({1}, Ready)], {0, 1}));
  }

  /** One cycle frees object 0, whose memory still names object 1. */
  lemma Dropped() returns (s: State)
    ensures Reached(s) && s.gc.Idle? && !s.barrier && s.bits == {} && s.marked == Gen1 && s.unmarked == Gen0
    ensures s.heap == map[Field(0, 0) := To(1)] && s.mut == map[0 := Mutator({1}, Ready)] && s.bitCount == 2
    ensures s.colour == map[0 := Green, 1 := Gen1]
  {
    Linked();
    var a := Early(2, map[0 := Gen0, 1 := Gen0], map[Field(0, 0) := To(1)], map[0 := Mutator({1}, Ready)], {0, 1});
    OneIsTraced(a);
    hide Reached, Traced;
    s := QuietCycle(a);
    assert s.colour == map[0 := Green, 1 := Gen1];
  }

  lemma OneIsTraced(a: State)
    requires a.colour == map[0 := Gen0, 1 := Gen0] && a.heap == map[Field(0, 0) := To(1)] && a.bits == {}
    requires a.mut == map[0 := Mutator({1}, Ready)]
    ensures 0 !in Traced(a, Roots(a, NO_WORDS)) && 1 in Traced(a, Roots(a, NO_WORDS))
  {
    assert SavedBy(a.mut[0]) == {1};
    assert Saved(a) == {1};
    TracedMinimal(a, Roots(a, NO_WORDS), {1});
    assert InEveryTracedClosed(a, Roots(a, NO_WORDS), 1);
  }

  /** Object 0 is being allocated again, its body not cleared yet; nobody can use object 1. */
  lemma HalfAllocated() returns (s: State)
    ensures Reached(s) && s.gc.Idle? && s.bits == {} && s.marked == Gen1 && s.unmarked == Gen0
    ensures s.heap == map[Field(0, 0) := To(1)] && s.mut == map[0 := Mutator({}, Clearing(0))]
    ensures s.colour == map[0 := Gen1, 1 := Gen1]
  {
    var d := Dropped();
    hide Reached, Refit;
    var mut: map<Mid, Mutator> := map[0 := Mutator({}, Ready)];
    assert {1} - {1} == {};
    assert map[0 := Mutator({1}, Ready)][0 := Mutator({}, Ready)] == mut;
    var e := d.(mut := mut);
    Forget(d, 0, 1, e);
    var body: map<nat, Ref> := map[0 := To(1)];
    s := e.(colour := map[0 := Gen1, 1 := Gen1], mut := map[0 := Mutator({}, Clearing(0))]);
    assert map[0 := Green, 1 := Gen1][0 := Gen1] == s.colour;
    assert mut[0 := Mutator({}, Clearing(0))] == s.mut;
    assert Refit(e.heap, 0, body) == e.heap;
    Take(e, 0, 0, body, s);
  }

  /** The thread has still not cleared object 0, whichever code is the marked one by now. */
  ghost predicate Stale(s: State) {
    && s.gc.Idle? && s.bits == {} && Generation(s.marked) && Generation(s.unmarked)
    && s.heap == map[Field(0, 0) := To(1)] && s.mut == map[0 := Mutator({}, Clearing(0))]
    && s.colour == map[0 := s.marked, 1 := s.marked]
  }

  lemma StaleIsTraced(s: State)
    requires Stale(s)
    ensures 0 in Traced(s, Roots(s, NO_WORDS)) && 1 in Traced(s, Roots(s, NO_WORDS))
  {
    assert SavedBy(s.mut[0]) == {0};
    assert 0 in Saved(s);
    hide Roots, Saved;
    assert 0 in Roots(s, NO_WORDS) by { StaleRoot(s); }
    assert InEveryTracedClosed(s, Roots(s, NO_WORDS), 0);
    assert InEveryTracedClosed(s, Roots(s, NO_WORDS), 1);
  }

  lemma StaleRoot(s: State)
    requires 0 in Saved(s)
    ensures 0 in Roots(s, NO_WORDS)
  {}

  lemma StaleIsGarbage(s: State)
    requires Stale(s)
    ensures !Live(s, 1) && Allocated(s, 1) && CanCollect(s, Flip(NO_WORDS))
  {
    assert Closed(s, {});
    ReachMinimal(s, {});
  }

  lemma StaleRun() returns (r: seq<State>)
    ensures Run(r) && Stale(r[|r| - 1])
  {
    var s := HalfAllocated();
    r :| Run(r) && r[|r| - 1] == s;
  }

  /**
   A stale word.  Memory freed in one cycle is allocated again and not cleared yet when the
   next cycle flips; a word left in it names object 1, which nobody can use, and the whole
   cycle passes without freeing object 1.
   */
  lemma StaleWordKeepsGarbage() returns (r: seq<State>, i: nat, j: nat)
    ensures Run(r) && Cycle(r, i, j) && NoFlip(r, i + 1, j)
    ensures Allocated(r[i], 1) && !Live(r[i], 1) && !FreedWithin(r, i, j, 1)
  {
    var p := StaleRun();
    i := |p| - 1;
    StaleIsGarbage(p[i]);
    StaleIsTraced(p[i]);
    hide Run, Stale, FreedWithin, Live, NoFlip, Traced, Roots, CanCollect, Cycle, QuietAfter, Allocated;
    r, j := Quietly(p);
    assert r[i] == p[i];
  }

  /** A cycle no mutator disturbs leaves the stale word as it is, and object 1 allocated. */
  lemma StaleCycle(s: State, t: State)
    requires Stale(s) && QuietAfter(s, t)
    ensures Stale(t)
  {
    StaleIsTraced(s);
    hide Traced, Roots;
    assert t.colour == map[0 := t.marked, 1 := t.marked];
  }

  lemma FreedJoins(r: seq<State>, i: nat, k: nat, r': seq<State>, j: nat, o: Obj)
    requires i <= k == |r| - 1 && k <= j < |r'| && r <= r'
    requires !FreedWithin(r, i, k, o) && !FreedWithin(r', k, j, o)
    ensures !FreedWithin(r', i, j, o)
  {
    forall n | i < n <= j ensures Allocated(r'[n], o) {
      if n <= k { assert r'[n] == r[n]; }
    }
  }

  /**
   Any number of cycles.  For every n there is a run in which object 1 cannot be used by
   anyone in state i, n cycles pass, and it has not been freed.
   */
  lemma {:induction false} StaleWordKeepsGarbageForever(n: nat) returns (r: seq<State>, i: nat, j: nat)
    ensures Run(r) && i <= j == |r| - 1 && r[j].count == r[i].count + n && Stale(r[j])
    ensures Allocated(r[i], 1) && !Live(r[i], 1) && !FreedWithin(r, i, j, 1)
  {
    if n == 0 {
      r := StaleRun();
      i, j := |r| - 1, |r| - 1;
      StaleIsGarbage(r[i]);
    } else {
      hide Run, Stale, FreedWithin, Live;
      var q, k;
      q, i, k := StaleWordKeepsGarbageForever(n - 1);
      r, j := OneMoreStale(q, i);
    }
  }

  lemma OneMoreStale(q: seq<State>, i: nat) returns (r: seq<State>, j: nat)
    requires Run(q) && i < |q| && Stale(q[|q| - 1]) && !FreedWithin(q, i, |q| - 1, 1)
    ensures Run(r) && i <= j == |r| - 1 && r[i] == q[i] && r[j].count == q[|q| - 1].count + 1 && Stale(r[j])
    ensures !FreedWithin(r, i, j, 1)
  {
    StaleIsGarbage(q[|q| - 1]);
    StaleIsTraced(q[|q| - 1]);
    hide Run, Stale, FreedWithin, Live, NoFlip, Traced, Roots, CanCollect, Cycle;
    r, j := Quietly(q);
    assert r[|q| - 1] == q[|q| - 1] && r[i] == q[i];
    StaleCycle(r[|q| - 1], r[j]);
    FreedJoins(q, i, |q| - 1, r, j, 1);
  }

  // ---------------------------------------------------------------- a bit set after its cycle's last sweep

  lemma NothingRooted()
    ensures Reached(Early(1, map[0 := Green], map[Global(0) := Null], map[0 := Mutator({}, Ready)], {}))
    ensures Wiped(map[Global(0) := Null], 0, {}, map[Global(0) := Null])
  {
    Begin(Early(1, map[0 := Green], map[Global(0) := Null], map[0 := Mutator({}, Ready)], {}));
  }

  lemma Unrooted()
    ensures Reached(Early(1, map[0 := Gen0], map[Global(0) := Null], map[0 := Mutator({0}, Ready)], {0}))
  {
    NothingRooted();
    hide Reached, Early, Wiped;
    var colour: map<Obj, Colour>, mut: map<Mid, Mutator> := map[0 := Green], map[0 := Mutator({}, Ready)];
    New(1, colour, map[Global(0) := Null], mut, {}, 0, 0, {}, map[Global(0) := Null]);
    assert colour[0 := Gen0] == map[0 := Gen0] && {} + {0} == {0};
    assert mut[0 := Mutator({0}, Ready)] == map[0 := Mutator({0}, Ready)];
  }

  /** Object 0 is held by thread 0 and named by a global. */
  lemma Rooted()
    ensures Reached(Early(1, map[0 := Gen0], map[Global(0) := To(0)], map[0 := Mutator({0}, Ready)], {0}))
  {
    Unrooted();
    hide Reached, Early;
    var heap: map<Loc, Ref> := map[Global(0) := Null];
    Assign(1, map[0 := Gen0], heap, map[0 := Mutator({0}, Ready)], {0}, 0, Global(0), To(0));
    assert heap[Global(0) := To(0)] == map[Global(0) := To(0)];
  }

  lemma FlipReached(s: State) returns (t: State)
    requires Reached(s) && CanCollect(s, Flip(NO_WORDS))
    ensures Reached(t) && Started(t) && t == AfterCollect(s, Flip(NO_WORDS)) && t.barrier
    ensures t.gc == ScanRoots(Saved(s) + {})
  {
    t := AfterCollect(s, Flip(NO_WORDS));
    var r :| Run(r) && r[|r| - 1] == s;
    var q := Flips(r, NO_WORDS);
    FlipStarts(q, |r| - 1);
    assert q[|q| - 1] == t;
  }

  /** A step of thread m on its program counter alone. */
  lemma Tick(s: State, st: Step, m: Mid, pc: Pc, t: State)
    requires Reached(s) && CanMutate(s, st) && m in s.mut && AfterMutate(s, st) == SetPc(s, m, pc)
    requires t == s.(mut := map[m := Mutator(s.mut[m].roots, pc)]) && s.mut.Keys == {m}
    ensures Reached(t)
  {
    hide Reached, AfterMutate, CanMutate, AfterCollect, CanCollect;
    assert s.mut[m := s.mut[m].(pc := pc)] == map[m := Mutator(s.mut[m].roots, pc)];
    Grow(s, st, t);
  }

  lemma FlippedRooted() returns (f: State)
    ensures Reached(f) && Started(f) && f.unmarked == Gen0 && f.marked == Gen1 && f.bits == {} && f.gc == ScanRoots({0})
    ensures f.colour == map[0 := Gen0] && f.heap == map[Global(0) := To(0)] && f.bitCount == 1 && f.barrier
    ensures f.mut == map[0 := Mutator({0}, Ready)]
  {
    Rooted();
    var a := Early(1, map[0 := Gen0], map[Global(0) := To(0)], map[0 := Mutator({0}, Ready)], {0});
    assert SavedBy(a.mut[0]) == {0};
    assert Saved(a) + {} == {0};
    hide Reached, Started;
    f := FlipReached(a);
    FlipKeeps(a);
  }

  /** Thread 0 is about to set the bit of object 0, the cycle has not traced anything yet. */
  lemma AboutToMark() returns (s: State)
    ensures Reached(s) && Started(s) && s.unmarked == Gen0 && s.marked == Gen1 && s.bits == {} && s.gc == ScanRoots({0})
    ensures s.colour == map[0 := Gen0] && s.heap == map[Global(0) := To(0)] && s.bitCount == 1
    ensures s.mut == map[0 := Mutator({0}, ToMark(Global(0), 0, Null))]
  {
    hide Reached, Started;
    var f := FlippedRooted();
    var f1 := f.(mut := map[0 := Mutator({0}, Entered(Global(0), Null))]);
    Tick(f, Enter(0, Global(0), Null), 0, Entered(Global(0), Null), f1);
    Tests(f1);
    s := f.(mut := map[0 := Mutator({0}, ToMark(Global(0), 0, Null))]);
    SameStarted(f, s);
  }

  lemma Tests(f: State)
    requires Reached(f) && f.mut == map[0 := Mutator({0}, Entered(Global(0), Null))]
    requires f.heap == map[Global(0) := To(0)]
    requires f.colour == map[0 := f.unmarked]
    ensures Reached(f.(mut := map[0 := Mutator({0}, ToMark(Global(0), 0, Null))]))
  {
    hide Reached;
    var g := f.(mut := map[0 := Mutator({0}, Loaded(Global(0), To(0), Null))]);
    Tick(f, Load(0), 0, Loaded(Global(0), To(0), Null), g);
    Tick(g, Test(0), 0, ToMark(Global(0), 0, Null), g.(mut := map[0 := Mutator({0}, ToMark(Global(0), 0, Null))]));
  }

  lemma SameStarted(f: State, s: State)
    requires Started(f) && s == f.(mut := s.mut) && |s.mut| <= MAX_THREADS
    ensures Started(s)
  {}

  /** The rest of a cycle, no mutator taking a step. */
  lemma QuietRest(s: State) returns (t: State)
    requires Reached(s) && Started(s)
    ensures Reached(t) && s.gc.ScanRoots?
    ensures t == s.(colour := Collected(s), bits := {}, barrier := false, gc := Idle, count := s.count + 1, h := t.h)
  {
    var r :| Run(r) && r[|r| - 1] == s;
    var p;
    p, t := LoneCycle(s);
    hide Run, Leads, Collected;
    LoneExtends(r, p, t);
  }

  /** The cycle is over; then the bit is set, and the two references to object 0 are dropped. */
  lemma LateBit() returns (s: State)
    ensures Reached(s) && s.gc.Idle? && s.bits == {0} && s.colour == map[0 := Gen1]
    ensures s.heap == map[Global(0) := Null] && s.mut == map[0 := Mutator({}, Ready)]
  {
    var a := AboutToMark();
    ZeroIsFound(a);
    hide Reached, Started, Found;
    var b := QuietRest(a);
    assert b.colour == map[0 := Gen1];
    s := MarkedLate(b);
  }

  lemma ZeroIsFound(a: State)
    requires a.colour == map[0 := Gen0] && a.gc == ScanRoots({0})
    ensures 0 in Found(a)
  {
    assert InEveryTracedClosed(a, Sources(a), 0);
  }

  lemma MarkedLate(b: State) returns (s: State)
    requires Reached(b) && b.gc.Idle? && b.bits == {} && b.colour == map[0 := Gen1] && b.heap == map[Global(0) := To(0)]
    requires b.mut == map[0 := Mutator({0}, ToMark(Global(0), 0, Null))]
    ensures Reached(s) && s.gc.Idle? && s.bits == {0} && s.colour == map[0 := Gen1]
    ensures s.heap == map[Global(0) := Null] && s.mut == map[0 := Mutator({}, Ready)]
  {
    hide Reached;
    var c := b.(bits := {0}, mut := map[0 := Mutator({0}, ToStore(Global(0), Null))]);
    assert b.mut[0 := Mutator({0}, ToStore(Global(0), Null))] == c.mut && {} + {0} == {0};
    Grow(b, Mark(0), c);
    s := StoredAndDropped(c);
  }

  lemma StoredAndDropped(c: State) returns (s: State)
    requires Reached(c) && c.mut == map[0 := Mutator({0}, ToStore(Global(0), Null))]
    requires c.heap == map[Global(0) := To(0)]
    ensures Reached(s) && s == c.(heap := map[Global(0) := Null], mut := map[0 := Mutator({}, Ready)])
  {
    hide Reached;
    var d := c.(heap := map[Global(0) := Null], mut := map[0 := Mutator({0}, Ready)]);
    assert c.mut[0 := Mutator({0}, Ready)] == d.mut && c.heap[Global(0) := Null] == d.heap;
    Grow(c, Store(0), d);
    s := d.(mut := map[0 := Mutator({}, Ready)]);
    assert {0} - {0} == {};
    assert d.mut[0 := Mutator({}, Ready)] == s.mut;
    Forget(d, 0, 0, s);
  }

  lemma OnlyTheBit(s: State)
    requires s.bits == {0} && s.colour == map[0 := Gen1] && s.heap == map[Global(0) := Null]
    requires s.mut == map[0 := Mutator({}, Ready)]
    ensures 0 in Traced(s, Roots(s, NO_WORDS)) && 0 in Reach(s) && 0 !in Usable(s) && !Raw(s, 0)
    ensures forall o | o in Traced(s, Roots(s, NO_WORDS)) :: o == 0
  {
    assert InEveryTracedClosed(s, Roots(s, NO_WORDS), 0);
    assert InEveryClosed(s, 0);
    ReachMinimal(s.(bits := {}), {});
  }

  lemma LateBitRun() returns (p: seq<State>)
    ensures Run(p)
    ensures var s := p[|p| - 1];
            && CanCollect(s, Flip(NO_WORDS)) && 0 in Reach(s) && 0 !in Usable(s) && !Raw(s, 0)
            && 0 in Traced(s, Roots(s, NO_WORDS)) && forall o | o in Traced(s, Roots(s, NO_WORDS)) :: o == 0
  {
    var s := LateBit();
    OnlyTheBit(s);
    assert CanCollect(s, Flip(NO_WORDS));
    hide CanCollect, Reach, Usable, Raw, Traced, Run, Roots;
    p :| Run(p) && p[|p| - 1] == s;
  }

  /**
   A late bit.  A thread finds object 0 white, and sets its bit only when that cycle is
   over; nobody can use object 0 any more when the next cycle flips, all that the flip
   finds leads to what the bit makes live, and the whole cycle passes without freeing it.
   */
  lemma LateBitKeepsGarbage() returns (r: seq<State>, i: nat, j: nat)
    ensures Run(r) && Cycle(r, i, j) && NoFlip(r, i + 1, j) && TracesOnlyLive(r, i)
    ensures Allocated(r[i], 0) && 0 !in Usable(r[i]) && !Raw(r[i], 0) && !FreedWithin(r, i, j, 0)
  {
    var p := LateBitRun();
    i := |p| - 1;
    hide Run, Traced, FreedWithin, NoFlip, Reach, Raw, Usable, QuietAfter, Roots, CanCollect, Cycle, TracedFrom;
    hide Allocated;
    r, j := Quietly(p);
    assert r[i] == p[i];
  }
}
