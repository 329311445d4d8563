/**
 When a cycle is exact.  It recycles exactly what was not in use at its flip, whatever the
 mutators do, if and only if the words and bits of the cycle lead to nothing else.  In use
 counts set bits as roots; a cycle recycles exactly what no mutator can use if and only if
 they lead to nothing but what some mutator can use, or an allocation is still clearing.
 */
module ProtocolExact {
  import opened Colours
  import opened Protocol
  import opened ProtocolInvariant
  import opened ProtocolSafety
  import opened ProtocolBounds
  import opened ProtocolLone

  predicate Quiescent(s: State) { s.gc.Idle? || s.gc.Recycle? }

  predicate CleanFromStart(s: State) { s.gc.Sweep? && !s.gc.found && s.h.base == {} }

  /** Without late marks the vector is empty from the last sweep of a cycle to the next flip. */
  predicate BitsGone(s: State) { Quiescent(s) || CleanFromStart(s) ==> s.bits == {} }

  lemma NothingToMark(s: State, o: Obj)
    requires Inv(s) && (Quiescent(s) || CleanFromStart(s)) && o in s.h.keep
    ensures !White(s, o)
  {
    if CleanFromStart(s) { EmptyBaseFinishes(s); }
  }

  lemma BitsGoneMutate(s: State, st: Step)
    requires Inv(s) && BitsGone(s) && CanMutate(s, st) && !LateMark(s, AfterMutate(s, st))
    ensures BitsGone(AfterMutate(s, st))
  {
    var t := AfterMutate(s, st);
    hide AfterMutate, CanMutate;
    var m := MutateEffect(s, st, s.h.keep);
    InvMutate(s, st);
    SafeMut(s, t, m);
    if Quiescent(t) || CleanFromStart(t) {
      forall o | o in t.bits ensures !White(s, o) { NothingToMark(t, o); }
      assert t.bits <= s.bits;
    }
  }

  lemma BitsGoneCollect(s: State, st: Step)
    requires Inv(s) && BitsGone(s) && CanCollect(s, st)
    ensures BitsGone(AfterCollect(s, st))
  {
    if st.EndSweep? && !s.gc.found { CleanSweepBase(s); }
  }

  lemma BitsGoneNext(s: State, t: State)
    requires Inv(s) && BitsGone(s) && Next(s, t) && !LateMark(s, t)
    ensures BitsGone(t)
  {
    var st :| Enabled(s, st) && t == After(s, st);
    if CanMutate(s, st) { BitsGoneMutate(s, st); } else { BitsGoneCollect(s, st); }
  }

  ghost predicate NeverLate(r: seq<State>) {
    forall k: nat | k + 1 < |r| :: !LateAt(r, k)
  }

  ghost predicate LateAt(r: seq<State>, k: nat)
    requires k + 1 < |r|
  {
    LateMark(r[k], r[k + 1])
  }

  lemma BitsGoneInit(s: State)
    requires Init(s)
    ensures BitsGone(s)
  {}

  lemma {:induction false} BitsGoneRun(r: seq<State>, k: nat)
    requires Run(r) && k < |r| && NeverLate(r)
    ensures BitsGone(r[k])
  {
    hide Inv, Init, Next, LateMark, BitsGone;
    if k == 0 {
      BitsGoneInit(r[0]);
    } else {
      BitsGoneRun(r, k - 1);
      InvRun(r, k - 1);
      assert StepAt(r, k - 1) && !LateAt(r, k - 1);
      BitsGoneNext(r[k - 1], r[k]);
    }
  }

  // ---------------------------------------------------------------- what the mutators can still use

  /** Some mutator can use o, or an allocation is still clearing it. */
  ghost predicate Needed(s: State, o: Obj) { o in Usable(s) || Raw(s, o) }

  /** The words and bits of the cycle lead to nothing but what is needed. */
  ghost predicate TracesOnlyNeeded(r: seq<State>, i: nat)
    requires i + 1 < |r| && FlipAt(r, i)
  {
    forall o | o in TracedFrom(r, i) :: Needed(r[i], o)
  }

  lemma NeededIsTraced(r: seq<State>, i: nat, o: Obj)
    requires Run(r) && i + 1 < |r| && FlipAt(r, i) && Needed(r[i], o)
    ensures Live(r[i], o) && o in TracedFrom(r, i)
  {
    InvRun(r, i);
    ReachIsUsableIff(r[i]);
    StepOfRun(r, i);
  }

  /** The bits found at the flip are all that can come between use and need. */
  lemma OnlyBitsMatter(r: seq<State>, i: nat)
    requires Run(r) && i + 1 < |r| && FlipAt(r, i)
    ensures TracesOnlyNeeded(r, i) <==> TracesOnlyLive(r, i) && r[i].bits <= Usable(r[i])
  {
    InvRun(r, i);
    ReachIsUsableIff(r[i]);
    if TracesOnlyNeeded(r, i) {
      forall o | o in TracedFrom(r, i) ensures Live(r[i], o) { NeededIsTraced(r, i, o); }
      forall o | o in r[i].bits ensures o in Usable(r[i]) { BitIsTraced(r, i, o); }
    }
  }

  lemma BitIsTraced(r: seq<State>, i: nat, o: Obj)
    requires Run(r) && i + 1 < |r| && FlipAt(r, i) && o in r[i].bits
    ensures o in TracedFrom(r, i) && !Raw(r[i], o)
  {
    var s := r[i];
    InvRun(r, i);
    StepOfRun(r, i);
    ReachIsClosed(s, s.h.keep);
    forall m | m in s.mut ensures s.mut[m].pc != Clearing(o) { assert MutatorOk(s, s.mut[m]); }
  }

  /**
   If the words and bits of a cycle lead to nothing but what is needed, the cycle frees
   exactly the objects allocated at its flip that no mutator could use any more and no
   allocation was still clearing.
   */
  lemma CycleFreesExactlyTheUnusable(r: seq<State>, i: nat, j: nat, o: Obj)
    requires Run(r) && Cycle(r, i, j) && NoFlip(r, i + 1, j) && Allocated(r[i], o)
    requires TracesOnlyLive(r, i) && r[i].bits <= Usable(r[i])
    ensures FreedWithin(r, i, j, o) <==> !Needed(r[i], o)
  {
    OnlyBitsMatter(r, i);
    if Needed(r[i], o) {
      NeededIsTraced(r, i, o);
      LiveIsNotFreed(r, i, j, o);
    } else {
      UntracedIsFreed(r, i, j, o);
    }
  }

  /** A barrier that has never been late leaves no bit to a flip. */
  lemma NeverLateLeavesNoBit(r: seq<State>, i: nat)
    requires Run(r) && NeverLate(r) && i + 1 < |r| && FlipAt(r, i)
    ensures r[i].bits == {}
    ensures TracesOnlyNeeded(r, i) <==> TracesOnlyLive(r, i)
  {
    BitsGoneRun(r, i);
    OnlyBitsMatter(r, i);
  }

  // ---------------------------------------------------------------- going on from a flip

  /** r' repeats r up to and including the flip from state i to i + 1. */
  predicate GoesOn(r: seq<State>, i: nat, r': seq<State>) {
    i + 1 < |r| && i + 1 < |r'| && r'[..i + 2] == r[..i + 2]
  }

  lemma LoneIsNext(s: State, t: State)
    requires LoneStep(s, t)
    ensures Next(s, t) && !IsFlip(s, t)
  {
    var st :| CanCollect(s, st) && Alone(st) && t == AfterCollect(s, st);
    FlipFrame(s, st);
    CannotMutate(s, st);
    assert t == After(s, st);
  }

  lemma CannotMutate(s: State, st: Step)
    requires CanCollect(s, st)
    ensures !CanMutate(s, st)
  {}

  /** A run goes on with steps of the collector alone. */
  lemma LoneExtends(r: seq<State>, p: seq<State>, t: State)
    requires Run(r) && Leads(r[|r| - 1], p, t)
    ensures var r' := r + p[1..];
            && Run(r') && r'[..|r|] == r && |r'| == |r| - 1 + |p| && r'[|r'| - 1] == t
            && (forall k: nat | |r| <= k + 1 < |r'| :: !FlipAt(r', k))
            && (forall k: nat | k < |p| :: r'[|r| - 1 + k] == p[k])
  {
    var r' := r + p[1..];
    hide Next, LoneStep, Init;
    forall k: nat | k < |p| ensures r'[|r| - 1 + k] == p[k] {}
    forall k: nat | k + 1 < |r'| ensures StepAt(r', k) && (|r| <= k + 1 ==> !FlipAt(r', k)) {
      if k + 1 < |r| {
        assert StepAt(r, k);
      } else {
        assert LoneAt(p, k + 1 - |r|) && r'[k] == p[k + 1 - |r|] && r'[k + 1] == p[k + 2 - |r|];
        LoneIsNext(r'[k], r'[k + 1]);
      }
    }
  }

  lemma FlipStarts(r: seq<State>, i: nat)
    requires Run(r) && i + 1 < |r| && FlipAt(r, i)
    ensures Started(r[i + 1]) && Found(r[i + 1]) == TracedFrom(r, i)
    ensures forall o | o in TracedFrom(r, i) :: Allocated(r[i], o)
  {
    InvRun(r, i);
    InvRun(r, i + 1);
    StepOfRun(r, i);
    assert StepAt(r, i);
    var words := FlipStep(r[i], r[i + 1]);
    FlipColours(r[i], words);
    StartedAfter(r[i], words);
  }

  lemma StartedAfter(s: State, words: Words)
    requires Inv(s) && CanCollect(s, Flip(words)) && Typed(AfterCollect(s, Flip(words)))
    requires forall o | Allocated(AfterCollect(s, Flip(words)), o) :: White(AfterCollect(s, Flip(words)), o)
    ensures var t := AfterCollect(s, Flip(words));
            Started(t) && Found(t) == Traced(s, t.gc.saved + t.strays + s.bits)
  {
    var t := AfterCollect(s, Flip(words));
    forall b | b in s.bits ensures b < s.bitCount { assert Allocated(s, b); }
    SameTraced(s, t, Sources(t));
  }

  lemma SameTraced(s: State, t: State, roots: set<Obj>)
    requires s.colour == t.colour && s.heap == t.heap
    ensures Traced(s, roots) == Traced(t, roots)
  {
    forall C: set<Obj> ensures TracedClosed(s, roots, C) <==> TracedClosed(t, roots, C) {}
    forall o ensures InEveryTracedClosed(s, roots, o) <==> InEveryTracedClosed(t, roots, o) {
      hide TracedClosed;
    }
  }

  /** What the collector alone makes of the state a that a flip left. */
  ghost predicate EndsAlone(a: State, t: State) {
    && a.gc.ScanRoots? && t.h == a.h.(base := t.h.base)
    && t == a.(colour := Collected(a), bits := {}, barrier := false, gc := Idle, count := a.count + 1, h := t.h)
  }

  /**
   What the words and bits of a cycle lead to can outlast it: if no mutator takes a
   step until the cycle has ended, it does.
   */
  lemma TracedCanStay(r: seq<State>, i: nat) returns (r': seq<State>, j: nat)
    requires Run(r) && i + 1 < |r| && FlipAt(r, i)
    ensures GoesOn(r, i, r') && Run(r') && Cycle(r', i, j) && NoFlip(r', i + 1, j) && j == |r'| - 1
    ensures forall o | o in TracedFrom(r, i) :: !FreedWithin(r', i, j, o)
    ensures EndsAlone(r[i + 1], r'[j])
  {
    FlipStarts(r, i);
    var p, t := LoneCycle(r[i + 1]);
    var q := r[..i + 2];
    PrefixRun(r, i + 2);
    LoneExtends(q, p, t);
    r' := q + p[1..];
    j := |r'| - 1;
    hide Run, Leads, Started, Traced;
    assert r'[i + 1 + (|p| - 2)] == p[|p| - 2];
    assert FlipAt(r', i);
    forall o | o in TracedFrom(r, i) ensures !FreedWithin(r', i, j, o) {
      forall k | i < k <= j ensures Allocated(r'[k], o) { assert r'[i + 1 + (k - i - 1)] == p[k - i - 1]; }
    }
  }

  lemma PrefixRun(r: seq<State>, n: nat)
    requires Run(r) && 0 < n <= |r|
    ensures Run(r[..n])
  {
    var q := r[..n];
    forall k: nat | k + 1 < |q| ensures StepAt(q, k) { assert StepAt(r, k); }
  }

  /** Whatever the mutators do after the flip, the cycle frees exactly what was not in use at the flip. */
  ghost predicate ExactHowever(r: seq<State>, i: nat)
    requires i + 1 < |r|
  {
    forall r', j: nat, o | GoesOn(r, i, r') && Run(r') && Cycle(r', i, j) && NoFlip(r', i + 1, j)
                           && Allocated(r[i], o) ::
      FreedWithin(r', i, j, o) <==> !Live(r[i], o)
  }

  /**
   When a flip makes its cycle exact: exactly when the words and bits of the cycle lead to
   nothing but what is in use.
   */
  lemma ExactIff(r: seq<State>, i: nat)
    requires Run(r) && i + 1 < |r| && FlipAt(r, i)
    ensures ExactHowever(r, i) <==> TracesOnlyLive(r, i)
  {
    if TracesOnlyLive(r, i) {
      forall r', j: nat, o | GoesOn(r, i, r') && Run(r') && Cycle(r', i, j) && NoFlip(r', i + 1, j)
                             && Allocated(r[i], o)
        ensures FreedWithin(r', i, j, o) <==> !Live(r[i], o) {
        SameFlip(r, i, r');
        CycleIsExact(r', i, j, o);
      }
    } else {
      var o :| o in TracedFrom(r, i) && !Live(r[i], o);
      FlipStarts(r, i);
      var r', j := TracedCanStay(r, i);
      assert Allocated(r[i], o) && !FreedWithin(r', i, j, o);
    }
  }

  /** Whatever the mutators do after the flip, the cycle frees exactly what was not needed at the flip. */
  ghost predicate FreesTheUnusableHowever(r: seq<State>, i: nat)
    requires i + 1 < |r|
  {
    forall r', j: nat, o | GoesOn(r, i, r') && Run(r') && Cycle(r', i, j) && NoFlip(r', i + 1, j)
                           && Allocated(r[i], o) ::
      FreedWithin(r', i, j, o) <==> !Needed(r[i], o)
  }

  /**
   When a flip makes its cycle free all that no mutator can use: exactly when the words and
   bits of the cycle lead to nothing but what is needed.
   */
  lemma FreesTheUnusableIff(r: seq<State>, i: nat)
    requires Run(r) && i + 1 < |r| && FlipAt(r, i)
    ensures FreesTheUnusableHowever(r, i) <==> TracesOnlyNeeded(r, i)
  {
    if TracesOnlyNeeded(r, i) {
      OnlyBitsMatter(r, i);
      forall r', j: nat, o | GoesOn(r, i, r') && Run(r') && Cycle(r', i, j) && NoFlip(r', i + 1, j)
                             && Allocated(r[i], o)
        ensures FreedWithin(r', i, j, o) <==> !Needed(r[i], o) {
        SameFlip(r, i, r');
        CycleFreesExactlyTheUnusable(r', i, j, o);
      }
    } else {
      var o :| o in TracedFrom(r, i) && !Needed(r[i], o);
      FlipStarts(r, i);
      var r', j := TracedCanStay(r, i);
      assert Allocated(r[i], o) && !FreedWithin(r', i, j, o);
    }
  }

  // ---------------------------------------------------------------- the last flip of a wait

  /** The wait that began in state i, when gc_count reaches its value then plus 2 in the cycle flipped at k. */
  ghost predicate WaitFreesHowever(r: seq<State>, i: nat, k: nat, o: Obj)
    requires i <= k
  {
    forall r': seq<State>, j: nat | GoesOn(r, k, r') && Run(r') && Cycle(r', k, j) && NoFlip(r', k + 1, j)
                        && r'[j].count == r'[i].count + 2 ::
      FreedWithin(r', i, j, o)
  }

  /**
   An object that is still allocated at the last flip of a wait is freed by its end,
   whatever the mutators do meanwhile, if and only if the words and bits of that flip's
   cycle do not lead to it.
   */
  lemma LastFlipDecides(r: seq<State>, i: nat, k: nat, o: Obj)
    requires Run(r) && i <= k && k + 1 < |r| && FlipAt(r, k) && r[k].count == r[i].count + 1
    requires Allocated(r[i], o) && !FreedWithin(r, i, k, o)
    ensures WaitFreesHowever(r, i, k, o) <==> o !in TracedFrom(r, k)
  {
    assert Allocated(r[k], o);
    if o !in TracedFrom(r, k) {
      forall r': seq<State>, j: nat | GoesOn(r, k, r') && Run(r') && Cycle(r', k, j) && NoFlip(r', k + 1, j)
        ensures FreedWithin(r', i, j, o) {
        SameFlip(r, k, r');
        UntracedIsFreed(r', k, j, o);
      }
    } else {
      SomeWaitFails(r, i, k, o);
    }
  }

  lemma SomeWaitFails(r: seq<State>, i: nat, k: nat, o: Obj)
    requires Run(r) && i <= k && k + 1 < |r| && FlipAt(r, k) && r[k].count == r[i].count + 1
    requires !FreedWithin(r, i, k, o) && o in TracedFrom(r, k)
    ensures !WaitFreesHowever(r, i, k, o)
  {
    StepOfRun(r, k);
    hide Run, FreedWithin, NoFlip, Traced, Sound;
    var r', j := TracedCanStay(r, k);
    hide FlipAt, Cycle;
    StaysSinceStart(r, i, k, o, r', j);
    assert r'[i] == r'[..k + 2][i] == r[i] && r'[k + 1] == r'[..k + 2][k + 1] == r[k + 1];
  }

  lemma StaysSinceStart(r: seq<State>, i: nat, k: nat, o: Obj, r': seq<State>, j: nat)
    requires i <= k < j < |r'| && GoesOn(r, k, r') && !FreedWithin(r, i, k, o) && !FreedWithin(r', k, j, o)
    ensures !FreedWithin(r', i, j, o)
  {
    forall n | i < n <= j ensures Allocated(r'[n], o) {
      if n <= k { assert r'[n] == r'[..k + 2][n] == r[n]; }
    }
  }

  lemma SameFlip(r: seq<State>, i: nat, r': seq<State>)
    requires GoesOn(r, i, r') && FlipAt(r, i)
    ensures r'[i] == r[i] && r'[i + 1] == r[i + 1] && FlipAt(r', i)
    ensures TracesOnlyLive(r', i) <==> TracesOnlyLive(r, i)
  {
    assert r'[i] == r'[..i + 2][i] && r'[i + 1] == r'[..i + 2][i + 1];
  }
}
