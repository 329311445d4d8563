/**
 Why the flip must find no thread inside the write barrier.  In the system whose flip has
 no such guard there is a run, from the initial state on, in which the collector frees an
 object that a thread still holds.
 */
module ProtocolHypothesis {
  import opened Colours
  import opened Protocol
  import opened ProtocolInvariant
  import opened ProtocolTraced
  import opened ProtocolSafety
  import opened ProtocolLone
  import opened ProtocolExact
  import opened ProtocolWitness

  /** What the step Flip does, guard or no guard. */
  ghost function Flipped(s: State, words: Words): State {
    s.(marked := s.unmarked, unmarked := s.marked, barrier := true, gc := ScanRoots(Saved(s) + words.saved),
       strays := words.stray,
       h := History(Reach(s), Reach(s), Saved(s) + s.bits, Snapshot(s, Reach(s)), {},
                    Traced(s, Roots(s, words))))
  }

  /** The system without the guard: the flip waits for nobody. */
  ghost predicate UnguardedNext(s: State, t: State) {
    Next(s, t) || (s.gc.Idle? && exists words :: t == Flipped(s, words))
  }

  ghost predicate UnguardedAt(r: seq<State>, k: nat)
    requires k + 1 < |r|
  {
    UnguardedNext(r[k], r[k + 1])
  }

  ghost predicate UnguardedRun(r: seq<State>) {
    r != [] && Init(r[0]) && forall k: nat | k + 1 < |r| :: UnguardedAt(r, k)
  }

  predicate NobodyInBarrier(s: State) { forall m | m in s.mut :: !InBarrier(s.mut[m].pc) }

  /** The two systems differ in the guard and in nothing else. */
  lemma OnlyTheGuardDiffers(s: State, t: State)
    ensures Next(s, t) ==> UnguardedNext(s, t)
    ensures UnguardedNext(s, t) && NobodyInBarrier(s) ==> Next(s, t)
  {
    if UnguardedNext(s, t) && NobodyInBarrier(s) && !Next(s, t) {
      var words :| t == Flipped(s, words);
      assert CanCollect(s, Flip(words)) && After(s, Flip(words)) == Flipped(s, words);
      assert Enabled(s, Flip(words));
    }
  }

  // ---------------------------------------------------------------- up to the flip

  /** Threads 0 and 1, objects 0 and 1, one global. */
  lemma TwoThreads()
    ensures Reached(Early(2, map[0 := Green, 1 := Green], map[Global(0) := Null],
                          map[0 := Mutator({}, Ready), 1 := Mutator({}, Ready)], {}))
  {
    var mut := map[0 := Mutator({}, Ready), 1 := Mutator({}, Ready)];
    assert mut.Keys == {0, 1};
    Begin(Early(2, map[0 := Green, 1 := Green], map[Global(0) := Null], mut, {}));
  }

  lemma BodiesWiped()
    ensures Wiped(map[Global(0) := Null], 0, {0}, map[Global(0) := Null, Field(0, 0) := Null])
    ensures Wiped(map[Global(0) := Null, Field(0, 0) := Null], 1, {}, map[Global(0) := Null, Field(0, 0) := Null])
  {}

  lemma BothAllocated()
    ensures Reached(Early(2, map[0 := Gen0, 1 := Gen0], map[Global(0) := Null, Field(0, 0) := Null],
                          map[0 := Mutator({0, 1}, Ready), 1 := Mutator({}, Ready)], {0, 1}))
  {
    TwoThreads();
    BodiesWiped();
    hide Reached, Early, Wiped;
    var colour, mut := map[0 := Green, 1 := Green], map[0 := Mutator({}, Ready), 1 := Mutator({}, Ready)];
    var heap: map<Loc, Ref> := map[Global(0) := Null, Field(0, 0) := Null];
    New(2, colour, map[Global(0) := Null], mut, {}, 0, 0, {0}, heap);
    assert {} + {0} == {0} && {0} + {1} == {0, 1};
    New(2, colour[0 := Gen0], heap, mut[0 := Mutator({0}, Ready)], {0}, 0, 1, {}, heap);
    assert colour[0 := Gen0][1 := Gen0] == map[0 := Gen0, 1 := Gen0];
    assert mut[0 := Mutator({0}, Ready)][0 := Mutator({0, 1}, Ready)] ==
             map[0 := Mutator({0, 1}, Ready), 1 := Mutator({}, Ready)];
  }

  /** Object 0 names object 1, and the global names object 0. */
  lemma Wired()
    ensures Reached(Early(2, map[0 := Gen0, 1 := Gen0], map[Global(0) := To(0), Field(0, 0) := To(1)],
                          map[0 := Mutator({0, 1}, Ready), 1 := Mutator({}, Ready)], {0, 1}))
  {
    BothAllocated();
    hide Reached, Early;
    var colour, mut := map[0 := Gen0, 1 := Gen0], map[0 := Mutator({0, 1}, Ready), 1 := Mutator({}, Ready)];
    var heap: map<Loc, Ref> := map[Global(0) := Null, Field(0, 0) := Null];
    Assign(2, colour, heap, mut, {0, 1}, 0, Field(0, 0), To(1));
    Assign(2, colour, heap[Field(0, 0) := To(1)], mut, {0, 1}, 0, Global(0), To(0));
    assert heap[Field(0, 0) := To(1)][Global(0) := To(0)] == map[Global(0) := To(0), Field(0, 0) := To(1)];
  }

  /** Thread 0 saw the barrier off and is about to overwrite the only reference to object 1; thread 1 knows object 0. */
  function Overtaken(): State {
    Early(2, map[0 := Gen0, 1 := Gen0], map[Global(0) := To(0), Field(0, 0) := To(1)],
          map[0 := Mutator({0}, ToStore(Field(0, 0), Null)), 1 := Mutator({0}, Ready)], {0, 1})
  }

  lemma OvertakenIsReached()
    ensures Reached(Overtaken())
  {
    Wired();
    hide Reached;
    var a := Early(2, map[0 := Gen0, 1 := Gen0], map[Global(0) := To(0), Field(0, 0) := To(1)],
                   map[0 := Mutator({0, 1}, Ready), 1 := Mutator({}, Ready)], {0, 1});
    var b := a.(mut := map[0 := Mutator({0, 1}, Ready), 1 := Mutator({0}, Ready)]);
    assert {} + {0} == {0} && a.mut[1 := Mutator({0}, Ready)] == b.mut;
    Grow(a, LoadRef(1, Global(0)), b);
    Barred(b);
  }

  lemma Barred(b: State)
    requires Reached(b) && b == Overtaken().(mut := map[0 := Mutator({0, 1}, Ready), 1 := Mutator({0}, Ready)])
    ensures Reached(Overtaken())
  {
    hide Reached;
    var c := b.(mut := map[0 := Mutator({0}, Ready), 1 := Mutator({0}, Ready)]);
    assert {0, 1} - {1} == {0} && b.mut[0 := Mutator({0}, Ready)] == c.mut;
    Forget(b, 0, 1, c);
    assert c.mut[0 := Mutator({0}, ToStore(Field(0, 0), Null))] == Overtaken().mut;
    Grow(c, Enter(0, Field(0, 0), Null), Overtaken());
  }

  // ---------------------------------------------------------------- from the flip on

  lemma FlippedIsTyped(f: State)
    requires f == Flipped(Overtaken(), NO_WORDS)
    ensures f.gc == ScanRoots({0}) && Started(f)
  {
    OvertakenSaves();
    FlipLeaves(Overtaken());
    hide Flipped, Saved;
    StartsWhite(f);
  }

  lemma StartsWhite(f: State)
    requires f.mut == Overtaken().mut && f.colour == Overtaken().colour && f.bits == f.strays == {}
    requires f.gc == ScanRoots({0})
    requires f.bitCount == 2 && f.marked == Gen1 && f.unmarked == Gen0 && f.barrier
    ensures Started(f)
  {
    assert f.mut.Keys == {0, 1};
  }

  lemma OvertakenSaves()
    ensures Saved(Overtaken()) + {} == {0}
  {
    var s := Overtaken();
    assert SavedBy(s.mut[0]) == {0} && SavedBy(s.mut[1]) == {0};
  }

  /** After the load and the store. */
  function Overwritten(f: State): State {
    f.(mut := map[0 := Mutator({0}, Ready), 1 := Mutator({0, 1}, Ready)],
       heap := map[Global(0) := To(0), Field(0, 0) := Null])
  }

  lemma OverwrittenStarted(f: State)
    requires Started(f)
    ensures Started(Overwritten(f))
  {
    assert Overwritten(f).mut.Keys == {0, 1};
  }

  /** Thread 1 loads the reference, then thread 0 overwrites it without a mark. */
  lemma LoadAndStore(f: State) returns (g: State)
    requires f.mut == Overtaken().mut && f.heap == Overtaken().heap
    ensures Next(f, g) && Next(g, Overwritten(f))
  {
    g := f.(mut := f.mut[1 := Mutator({0, 1}, Ready)]);
    assert {0} + {1} == {0, 1};
    assert After(f, LoadRef(1, Field(0, 0))) == g;
    assert Enabled(f, LoadRef(1, Field(0, 0)));
    Stored(f, g);
  }

  lemma Stored(f: State, g: State)
    requires f.mut == Overtaken().mut && f.heap == Overtaken().heap
    requires g == f.(mut := f.mut[1 := Mutator({0, 1}, Ready)])
    ensures Next(g, Overwritten(f))
  {
    var h := Overwritten(f);
    assert g.mut[0 := Mutator({0}, Ready)] == h.mut && g.heap[Field(0, 0) := Null] == h.heap;
    assert Enabled(g, Store(0)) && After(g, Store(0)) == h;
  }

  lemma OneIsLost(h: State)
    requires h.gc == ScanRoots({0}) && h.bits == h.strays == {}
    requires h.heap == map[Global(0) := To(0), Field(0, 0) := Null]
    ensures 1 !in Found(h)
  {
    TracedMinimal(h, Sources(h), {0});
  }

  lemma LoneIsRun(p: seq<State>, s: State, t: State)
    requires Leads(s, p, t)
    ensures forall k: nat | k + 1 < |p| :: StepAt(p, k)
  {
    forall k: nat | k + 1 < |p| ensures StepAt(p, k) { assert LoneAt(p, k); LoneIsNext(p[k], p[k + 1]); }
  }

  /** Every step but the one from state i to i + 1 is a step of the guarded system. */
  ghost predicate StepsBut(r: seq<State>, i: nat) { forall k: nat | k + 1 < |r| && k != i :: StepAt(r, k) }

  lemma Splice(p: seq<State>, f: State, g: State, h: State, q: seq<State>, t: State)
    requires Run(p) && Next(f, g) && Next(g, h) && Leads(h, q, t)
    ensures var r := p + [f, g] + q;
            && |r| > |p| && Init(r[0]) && r[|p| - 1] == p[|p| - 1] && r[|p|] == f && r[|r| - 1] == t
            && StepsBut(r, |p| - 1)
  {
    LoneIsRun(q, h, t);
    hide Next, Init, LoneStep, LoneAt;
    SpliceSteps(p, f, g, h, q);
  }

  lemma SpliceSteps(p: seq<State>, f: State, g: State, h: State, q: seq<State>)
    requires p != [] && (forall k: nat | k + 1 < |p| :: StepAt(p, k)) && Next(f, g) && Next(g, h)
    requires q != [] && q[0] == h && forall k: nat | k + 1 < |q| :: StepAt(q, k)
    ensures StepsBut(p + [f, g] + q, |p| - 1)
  {
    var r := p + [f, g] + q;
    hide Next;
    forall k: nat | k + 1 < |r| && k != |p| - 1 ensures StepAt(r, k) {
      if k + 1 < |p| {
        assert StepAt(p, k);
      } else if k >= |p| + 2 {
        assert StepAt(q, k - |p| - 2);
      }
    }
  }

  /** Object 1 is on a free list, and thread 1 holds it. */
  predicate Lost(t: State) {
    1 in t.mut && 1 in t.mut[1].roots && t.gc.Idle? && 1 in t.colour && t.colour[1] == Green
  }

  /**
   In the system without the guard: thread 0 tests the barrier while it is off, the flip
   overtakes it, thread 1 loads the reference that thread 0 then overwrites without a
   mark, and at the end of the cycle object 1 is free while thread 1 still holds it.
   Every other step of the run is one of the guarded system.
   */
  lemma FlipInsideABarrierLosesAnObject() returns (r: seq<State>, i: nat)
    ensures i + 1 < |r| && UnguardedRun(r) && StepsBut(r, i)
    ensures r[i].gc.Idle? && 0 in r[i].mut && InBarrier(r[i].mut[0].pc) && r[i + 1] == Flipped(r[i], NO_WORDS)
    ensures Lost(r[|r| - 1])
  {
    var p, f := UpToTheFlip();
    OvertakenThread();
    hide Run, Started, Flipped, Next, StepsBut, UnguardedRun, Overtaken, Early, Init, Lost;
    r := LostRun(p, f);
    i := |p| - 1;
    Unguarded(r, i);
  }

  lemma UpToTheFlip() returns (p: seq<State>, f: State)
    ensures Run(p) && p[|p| - 1] == Overtaken() && f == Flipped(Overtaken(), NO_WORDS)
    ensures Started(f) && f.gc == ScanRoots({0}) && f.bits == f.strays == {} && f.mut == Overtaken().mut
    ensures f.heap == Overtaken().heap && f.colour == Overtaken().colour
  {
    OvertakenIsReached();
    p :| Run(p) && p[|p| - 1] == Overtaken();
    f := Flipped(Overtaken(), NO_WORDS);
    FlippedIsTyped(f);
    FlipLeaves(Overtaken());
    hide Run, Started, Flipped;
  }

  lemma OvertakenThread()
    ensures 0 in Overtaken().mut && InBarrier(Overtaken().mut[0].pc) && Overtaken().gc.Idle? && Overtaken().bits == {}
  {}

  lemma FlipLeaves(s: State)
    ensures var f := Flipped(s, NO_WORDS);
            f.bits == s.bits && f.mut == s.mut && f.heap == s.heap && f.colour == s.colour && f.bitCount == s.bitCount
            && f.marked == s.unmarked && f.unmarked == s.marked && f.barrier && f.strays == {}
            && f.gc == ScanRoots(Saved(s) + {})
  {}

  lemma LostRun(p: seq<State>, f: State) returns (r: seq<State>)
    requires Run(p) && Started(f) && f.gc == ScanRoots({0}) && f.bits == f.strays == {} && f.mut == Overtaken().mut
    requires f.heap == Overtaken().heap && f.colour == Overtaken().colour
    ensures |r| > |p| > 0 && Init(r[0]) && r[|p| - 1] == p[|p| - 1] && r[|p|] == f && StepsBut(r, |p| - 1)
    ensures Lost(r[|r| - 1])
  {
    var g := LoadAndStore(f);
    hide Started, Next, StepsBut, Leads, Lost, Overwritten;
    var q, t := LostCycle(f);
    hide Overtaken, Early, Init;
    Splice(p, f, g, Overwritten(f), q, t);
    r := p + [f, g] + q;
  }

  lemma LostCycle(f: State) returns (q: seq<State>, t: State)
    requires Started(f) && f.gc == ScanRoots({0}) && f.bits == f.strays == {} && 1 in f.colour
    ensures Leads(Overwritten(f), q, t) && Lost(t)
  {
    OverwrittenStarted(f);
    var h := Overwritten(f);
    OneIsLost(h);
    hide Started, Leads, Found;
    q, t := LoneCycle(h);
    assert Collected(h)[1] == Green;
  }

  lemma Unguarded(r: seq<State>, i: nat)
    requires i + 1 < |r| && Init(r[0]) && StepsBut(r, i) && r[i].gc.Idle? && r[i + 1] == Flipped(r[i], NO_WORDS)
    ensures UnguardedRun(r)
  {
    hide Next, Init;
    forall k: nat | k + 1 < |r| ensures UnguardedAt(r, k) { assert k != i ==> StepAt(r, k); }
  }
}
