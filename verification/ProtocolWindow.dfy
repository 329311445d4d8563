/**
 Why the flip is one step.  Here it is taken apart as the signal handlers take it apart:
 each thread saves its roots at a moment of its own and runs on, and only when all have
 saved does the collector turn the barrier on and swap the colours.  The swap is a flip of
 the other system exactly when what the threads hold by then has been saved; and there is a
 run in which it has not, and an object that a thread holds is freed.
 */
module ProtocolWindow {
  import opened Colours
  import opened Protocol
  import opened ProtocolInvariant
  import opened ProtocolTraced
  import opened ProtocolLone
  import opened ProtocolWitness
  import opened ProtocolHypothesis

  /** A state, the threads that have saved their roots since the last swap, and what they have saved. */
  datatype Split = Split(s: State, done: set<Mid>, saved: set<Obj>)

  /** Every thread has saved, and none is in the barrier now. */
  predicate CanSwap(x: Split) { x.s.gc.Idle? && x.s.mut.Keys <= x.done && NobodyInBarrier(x.s) }

  /** The flip, with what has been saved for what is held. */
  ghost function Swapped(x: Split, words: Words): State {
    Flipped(x.s, Words(x.saved + words.saved, words.stray)).(gc := ScanRoots(x.saved + words.saved))
  }

  ghost predicate PlainStep(x: Split, y: Split) {
    exists st: Step :: !st.Flip? && Enabled(x.s, st) && y == x.(s := After(x.s, st))
  }

  /** The handler of thread m, between two cycles. */
  ghost predicate SaveStep(x: Split, y: Split) {
    x.s.gc.Idle? && exists m ::
      m in x.s.mut && m !in x.done && y == Split(x.s, x.done + {m}, x.saved + SavedBy(x.s.mut[m]))
  }

  ghost predicate SwapStep(x: Split, y: Split) {
    CanSwap(x) && exists words :: y == Split(Swapped(x, words), {}, {})
  }

  ghost predicate SplitNext(x: Split, y: Split) { PlainStep(x, y) || SaveStep(x, y) || SwapStep(x, y) }

  ghost predicate SplitAt(r: seq<Split>, k: nat)
    requires k + 1 < |r|
  {
    SplitNext(r[k], r[k + 1])
  }

  ghost predicate SplitRun(r: seq<Split>) {
    && r != [] && Init(r[0].s) && r[0].done == {} && r[0].saved == {}
    && forall k: nat | k + 1 < |r| :: SplitAt(r, k)
  }

  // ---------------------------------------------------------------- when the swap is a flip

  lemma MutatorsLeaveTheCollector(s: State, st: Step)
    requires CanMutate(s, st)
    ensures AfterMutate(s, st).gc == s.gc
  {}

  lemma OnlyFlipStarts(s: State, st: Step)
    requires s.gc.Idle? && Enabled(s, st) && After(s, st).gc.ScanRoots?
    ensures st.Flip? && After(s, st).gc == ScanRoots(Saved(s) + st.words.saved)
  {
    if CanMutate(s, st) { MutatorsLeaveTheCollector(s, st); }
  }

  /** The swap is a flip, for some words, if and only if all that the threads hold at the swap has been saved. */
  lemma SwapIsAFlip(x: Split, words: Words)
    requires CanSwap(x)
    ensures Next(x.s, Swapped(x, words)) <==> Saved(x.s) <= x.saved + words.saved
  {
    var t := Swapped(x, words);
    if Saved(x.s) <= x.saved + words.saved {
      var all := Words(x.saved + words.saved, words.stray);
      assert Saved(x.s) + all.saved == all.saved;
      assert CanCollect(x.s, Flip(all)) && After(x.s, Flip(all)) == t;
      assert Enabled(x.s, Flip(all));
    }
    if Next(x.s, t) {
      var st :| Enabled(x.s, st) && t == After(x.s, st);
      OnlyFlipStarts(x.s, st);
    }
  }

  /** If the step is a swap, it starts from all that the threads hold. */
  ghost predicate HeldIsSaved(r: seq<Split>, k: nat)
    requires k + 1 < |r|
  {
    r[k].s.gc.Idle? && r[k + 1].s.gc.ScanRoots? ==> Saved(r[k].s) <= r[k + 1].s.gc.saved
  }

  /** Then the run is one of the other system, in which saving is no step: its theorems hold of it. */
  lemma {:induction false} SplitRunIsRun(r: seq<Split>) returns (q: seq<State>)
    requires SplitRun(r) && forall k: nat | k + 1 < |r| :: HeldIsSaved(r, k)
    ensures Run(q) && q[|q| - 1] == r[|r| - 1].s
    decreases |r|
  {
    var n := |r| - 1;
    if n == 0 {
      q := [r[0].s];
    } else {
      forall k: nat | k + 1 < n ensures SplitAt(r[..n], k) && HeldIsSaved(r[..n], k) {
        assert SplitAt(r, k) && HeldIsSaved(r, k);
      }
      q := SplitRunIsRun(r[..n]);
      assert SplitAt(r, n - 1) && HeldIsSaved(r, n - 1);
      hide SplitRun, SplitAt, Run;
      if !SaveStep(r[n - 1], r[n]) {
        SplitIsNext(r[n - 1], r[n]);
        GrowRun(q, r[n].s);
        q := q + [r[n].s];
      }
    }
  }

  lemma SplitIsNext(x: Split, y: Split)
    requires SplitNext(x, y) && !SaveStep(x, y)
    requires x.s.gc.Idle? && y.s.gc.ScanRoots? ==> Saved(x.s) <= y.s.gc.saved
    ensures Next(x.s, y.s)
  {
    if SwapStep(x, y) {
      var words :| y == Split(Swapped(x, words), {}, {});
      SwapIsAFlip(x, words);
    } else {
      var st: Step :| !st.Flip? && Enabled(x.s, st) && y == x.(s := After(x.s, st));
    }
  }

  // ---------------------------------------------------------------- writing such runs down

  ghost predicate SplitReached(x: Split) { exists r :: SplitRun(r) && r[|r| - 1] == x }

  lemma GrowSplitRun(r: seq<Split>, y: Split)
    requires SplitRun(r) && SplitNext(r[|r| - 1], y)
    ensures SplitRun(r + [y])
  {
    var q := r + [y];
    hide SplitNext, Init;
    forall k: nat | k + 1 < |q| ensures SplitAt(q, k) {
      if k + 1 < |r| { assert SplitAt(r, k); }
    }
  }

  lemma GrowSplit(x: Split, y: Split)
    requires SplitReached(x) && SplitNext(x, y)
    ensures SplitReached(y)
  {
    var r :| SplitRun(r) && r[|r| - 1] == x;
    hide SplitRun, SplitNext;
    GrowSplitRun(r, y);
    assert (r + [y])[|r + [y]| - 1] == y;
  }

  lemma Go(x: Split, st: Step, t: State)
    requires SplitReached(x) && !st.Flip? && Enabled(x.s, st) && t == After(x.s, st)
    ensures SplitReached(x.(s := t))
  {
    assert PlainStep(x, x.(s := t));
    hide SplitReached, PlainStep;
    GrowSplit(x, x.(s := t));
  }

  // ---------------------------------------------------------------- the run

  /** One thread, one object, one global, before the first flip. */
  function One(colour: Colour, word: Ref, roots: set<Obj>, pc: Pc, keep: set<Obj>): State {
    Early(1, map[0 := colour], map[Global(0) := word], map[0 := Mutator(roots, pc)], keep)
  }

  lemma Unborn()
    ensures SplitReached(Split(One(Green, Null, {}, Ready, {}), {}, {}))
  {
    var x := Split(One(Green, Null, {}, Ready, {}), {}, {});
    assert SplitRun([x]);
    assert [x][|[x]| - 1] == x;
  }

  lemma NoBody()
    ensures Refit(map[Global(0) := Null], 0, map[]) == map[Global(0) := Null]
  {
    var heap: map<Loc, Ref> := map[Global(0) := Null];
    assert forall l :: l in Refit(heap, 0, map[]) <==> l in heap;
  }

  lemma Taken()
    ensures SplitReached(Split(One(Gen0, Null, {}, Clearing(0), {}), {}, {}))
  {
    Unborn();
    NoBody();
    hide SplitReached, Refit;
    var x := Split(One(Green, Null, {}, Ready, {}), {}, {});
    var t := One(Gen0, Null, {}, Clearing(0), {});
    assert x.s.mut[0 := Mutator({}, Clearing(0))] == t.mut && x.s.colour[0 := Gen0] == t.colour;
    assert AfterMutate(x.s, Alloc(0, 0, map[])) == t;
    Go(x, Alloc(0, 0, map[]), t);
  }

  /** An object is allocated and cleared. */
  lemma Born()
    ensures SplitReached(Split(One(Gen0, Null, {0}, Ready, {0}), {}, {}))
  {
    Taken();
    hide SplitReached;
    var x := Split(One(Gen0, Null, {}, Clearing(0), {}), {}, {});
    var t := One(Gen0, Null, {0}, Ready, {0});
    assert Cleared(x.s.heap, 0) == x.s.heap && x.s.mut[0 := Mutator({0}, Ready)] == t.mut;
    assert x.s.mut[0].roots + {0} == {0} && x.s.h.keep + {0} == {0};
    hide Cleared;
    Go(x, Clear(0), t);
  }

  /** An assignment to the global while the barrier is off. */
  lemma Set(done: set<Mid>, saved: set<Obj>, word: Ref, rhs: Ref, roots: set<Obj>)
    requires SplitReached(Split(One(Gen0, word, roots, Ready, {0}), done, saved)) && (rhs.To? ==> rhs.obj in roots)
    ensures SplitReached(Split(One(Gen0, rhs, roots, Ready, {0}), done, saved))
  {
    hide SplitReached;
    var x := Split(One(Gen0, word, roots, Ready, {0}), done, saved);
    var t, u := One(Gen0, word, roots, ToStore(Global(0), rhs), {0}), One(Gen0, rhs, roots, Ready, {0});
    assert x.s.mut[0 := Mutator(roots, ToStore(Global(0), rhs))] == t.mut;
    Go(x, Enter(0, Global(0), rhs), t);
    assert t.mut[0 := Mutator(roots, Ready)] == u.mut && t.heap[Global(0) := rhs] == u.heap;
    Go(x.(s := t), Store(0), u);
  }

  /** The global names the object, the thread does not hold it, and saves. */
  lemma SavedEarly()
    ensures SplitReached(Split(One(Gen0, To(0), {}, Ready, {0}), {0}, {}))
  {
    Born();
    hide SplitReached;
    Set({}, {}, Null, To(0), {0});
    var x := Split(One(Gen0, To(0), {0}, Ready, {0}), {}, {});
    var y := Split(One(Gen0, To(0), {}, Ready, {0}), {}, {});
    assert x.s.mut[0].roots - {0} == {} && x.s.mut[0 := Mutator({}, Ready)] == y.s.mut;
    Go(x, DropRef(0, 0), y.s);
    assert {} + {0} == {0};
    assert SaveStep(y, Split(y.s, {0}, {}));
    GrowSplit(y, Split(y.s, {0}, {}));
  }

  /** In the window it loads the reference, and overwrites the global. */
  function InTheWindow(): Split { Split(One(Gen0, Null, {0}, Ready, {0}), {0}, {}) }

  lemma WindowIsReached()
    ensures SplitReached(InTheWindow())
  {
    SavedEarly();
    hide SplitReached;
    var x := Split(One(Gen0, To(0), {}, Ready, {0}), {0}, {});
    var t := One(Gen0, To(0), {0}, Ready, {0});
    assert {} + {0} == {0} && x.s.mut[0 := Mutator({0}, Ready)] == t.mut;
    Go(x, LoadRef(0, Global(0)), t);
    Set({0}, {}, To(0), Null, {0});
  }

  lemma WindowCloses() returns (f: State)
    ensures f == Swapped(InTheWindow(), NO_WORDS) && CanSwap(InTheWindow())
    ensures Started(f) && f.gc == ScanRoots({}) && 0 !in Found(f)
    ensures f.mut == InTheWindow().s.mut && 0 in f.colour
    ensures !(Saved(InTheWindow().s) <= InTheWindow().saved + NO_WORDS.saved)
  {
    f := Swapped(InTheWindow(), NO_WORDS);
    SwapLeaves(InTheWindow());
    hide Swapped, Saved, Started, Found;
    OneStarts(f);
    NothingFound(f);
    HeldNotSaved();
  }

  lemma OneStarts(f: State)
    requires f.mut == InTheWindow().s.mut && f.colour == map[0 := Gen0] && f.bits == {} && f.gc == ScanRoots({})
    requires f.bitCount == 1 && f.marked == Gen1 && f.unmarked == Gen0 && f.barrier
    ensures Started(f)
  {
    assert f.mut.Keys == {0};
  }

  lemma SwapLeaves(x: Split)
    requires x.saved == {}
    ensures var f := Swapped(x, NO_WORDS);
            f.bits == x.s.bits && f.mut == x.s.mut && f.heap == x.s.heap && f.colour == x.s.colour
            && f.bitCount == x.s.bitCount && f.marked == x.s.unmarked && f.unmarked == x.s.marked && f.barrier
            && f.strays == {} && f.gc == ScanRoots({})
  {
    assert x.saved + NO_WORDS.saved == {};
  }

  lemma HeldNotSaved()
    ensures CanSwap(InTheWindow()) && !(Saved(InTheWindow().s) <= InTheWindow().saved + NO_WORDS.saved)
  {
    assert 0 in SavedBy(InTheWindow().s.mut[0]) && 0 in Saved(InTheWindow().s);
  }

  lemma NothingFound(f: State)
    requires f.gc == ScanRoots({}) && f.bits == f.strays == {} && f.heap == map[Global(0) := Null]
    ensures 0 !in Found(f)
  {
    TracedMinimal(f, Sources(f), {});
  }

  /** The lone cycle, step by step, in the system whose flip is in two parts. */
  lemma {:induction false} LoneIsSplit(q: seq<State>, s: State, t: State)
    requires Leads(s, q, t) && SplitReached(Split(s, {}, {}))
    ensures SplitReached(Split(t, {}, {}))
    decreases |q|
  {
    var n := |q| - 1;
    if n > 0 {
      forall k: nat | k + 1 < n ensures LoneAt(q[..n], k) { assert LoneAt(q, k); }
      LoneIsSplit(q[..n], s, q[n - 1]);
      assert LoneAt(q, n - 1);
      hide SplitReached, Leads, LoneAt;
      LoneGoes(q[n - 1], t);
    }
  }

  lemma LoneGoes(s: State, t: State)
    requires LoneStep(s, t) && SplitReached(Split(s, {}, {}))
    ensures SplitReached(Split(t, {}, {}))
  {
    hide SplitReached;
    var st :| CanCollect(s, st) && Alone(st) && t == AfterCollect(s, st);
    Go(Split(s, {}, {}), st, t);
  }

  /** Object 0 is on a free list, and thread 0 holds it. */
  predicate Gone(t: State) { 0 in t.mut && 0 in t.mut[0].roots && t.gc.Idle? && 0 in t.colour && t.colour[0] == Green }

  /**
   The thread saves its roots, then loads the reference the global holds and overwrites it,
   with the barrier still off; the swap comes later, with nobody in the barrier, and its
   cycle frees the object.
   */
  lemma WindowLosesAnObject() returns (x: Split, words: Words, y: Split)
    ensures SplitReached(x) && SwapStep(x, Split(Swapped(x, words), {}, {}))
    ensures !(Saved(x.s) <= x.saved + words.saved)
    ensures SplitReached(Split(Swapped(x, words), {}, {})) && SplitReached(y) && Gone(y.s)
  {
    x, words := InTheWindow(), NO_WORDS;
    WindowIsReached();
    var f := WindowCloses();
    assert SwapStep(x, Split(f, {}, {}));
    hide SplitReached, SwapStep, Swapped, Started, Leads, Found;
    GrowSplit(x, Split(f, {}, {}));
    var q, t := LoneCycle(f);
    assert Collected(f)[0] == Green;
    LoneIsSplit(q, f, t);
    y := Split(t, {}, {});
  }
}
