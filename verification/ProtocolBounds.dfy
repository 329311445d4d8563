/**
 How long marking can take, whatever the mutators do.  A sweep is repeated only when
 it found a bit; each bit found is paid for by an object that was white at the flip or
 by a late mark, a barrier that tested an object white and marked it after the
 collector had traced it.
 */
module ProtocolBounds {
  import opened Colours
  import opened Protocol
  import opened ProtocolInvariant
  import opened ProtocolSafety

  function WhiteSet(s: State): set<Obj> { set o | o in s.colour && White(s, o) }

  function GraySet(s: State): set<Obj> { set o | o in s.colour && s.colour[o] == Gray }

  /** Objects that can still cost a hit without a late mark. */
  function Pending(s: State): set<Obj> { set o | o in s.colour && (White(s, o) || o in s.bits) }

  /** Mutators that will mark an object the collector has already traced. */
  function LateMutators(s: State): set<Mid> {
    set m | m in s.mut && s.mut[m].pc.ToMark? && !White(s, s.mut[m].pc.white)
  }

  // ---------------------------------------------------------------- events of a run

  predicate SweepStart(s: State, t: State) { s.gc.PickGray? && t.gc.Sweep? }

  predicate SweepHit(s: State, t: State) { s.gc.Unmark? && t.gc.Sweep? }

  ghost predicate LateMark(s: State, t: State) { exists o :: o in t.bits && o !in s.bits && !White(s, o) }

  function Sweeps(r: seq<State>, i: nat, j: nat): nat
    requires i <= j < |r|
    decreases j
  {
    if i == j then 0 else Sweeps(r, i, j - 1) + (if SweepStart(r[j - 1], r[j]) then 1 else 0)
  }

  function Hits(r: seq<State>, i: nat, j: nat): nat
    requires i <= j < |r|
    decreases j
  {
    if i == j then 0 else Hits(r, i, j - 1) + (if SweepHit(r[j - 1], r[j]) then 1 else 0)
  }

  ghost function LateMarks(r: seq<State>, i: nat, j: nat): nat
    requires i <= j < |r|
    decreases j
  {
    if i == j then 0 else LateMarks(r, i, j - 1) + (if LateMark(r[j - 1], r[j]) then 1 else 0)
  }

  // ---------------------------------------------------------------- one step

  /** How a step in the mark phase moves the two potentials. */
  ghost predicate Pays(s: State, t: State) {
    && |Pending(t)| + (if SweepHit(s, t) then 1 else 0) <= |Pending(s)| + (if LateMark(s, t) then 1 else 0)
    && MAX_THREADS * |WhiteSet(t)| + |LateMutators(t)| + (if LateMark(s, t) then 1 else 0)
       <= MAX_THREADS * |WhiteSet(s)| + |LateMutators(s)|
    && SweepOrder(s.gc, t.gc)
  }

  /** Which collector positions can follow each other while marking. */
  predicate SweepOrder(a: Collector, b: Collector) {
    match a
    case Sweep(_, found) => (b.Sweep? && b.found == found) || b.Hit? || (if found then b.PickGray? else b.Recycle?)
    case Hit(_) => b.Hit? || b.Unmark?
    case Unmark(_) => b.Unmark? || (b.Sweep? && b.found)
    case PickGray => b.PickGray? || b.ScanSlots? || (b.Sweep? && !b.found)
    case _ => b.ScanRoots? || b.ScanSlots? || b.PickGray?
  }

  lemma SubsetCard<T>(a: set<T>, b: set<T>)
    requires a <= b
    ensures |a| <= |b|
  {
    assert b == a + (b - a);
  }

  lemma SubsetPlusOne<T>(a: set<T>, b: set<T>, x: T)
    requires a <= b + {x}
    ensures |a| <= |b| + 1
  {
    SubsetCard(a, b + {x});
  }

  lemma WithoutOne<T>(a: set<T>, b: set<T>, x: T)
    requires a <= b - {x} && x in b
    ensures |a| + 1 <= |b|
  {
    SubsetCard(a, b - {x});
  }

  lemma MutateKeepsBits(s: State, st: Step, m: Mid)
    requires CanMutate(s, st) && !st.Mark?
    ensures AfterMutate(s, st).bits == s.bits
    ensures m in AfterMutate(s, st).mut && AfterMutate(s, st).mut[m].pc.ToMark? ==>
              White(s, AfterMutate(s, st).mut[m].pc.white) ||
              (m in s.mut && s.mut[m].pc == AfterMutate(s, st).mut[m].pc)
  {
    match st {
      case Test(k) =>
      case _ =>
    }
  }

  lemma MutatePays(s: State, st: Step)
    requires Inv(s) && Marking(s) && CanMutate(s, st)
    ensures Pays(s, AfterMutate(s, st))
  {
    if st.Mark? {
      MarkPays(s, st.m);
    } else {
      hide AfterMutate, CanMutate;
      var t := AfterMutate(s, st);
      var k := MutateEffect(s, st, s.h.keep);
      forall m ensures t.bits == s.bits && (m in t.mut && t.mut[m].pc.ToMark? ==>
              White(s, t.mut[m].pc.white) || (m in s.mut && s.mut[m].pc == t.mut[m].pc)) {
        MutateKeepsBits(s, st, m);
      }
      QuietPays(s, t, k);
    }
  }

  lemma QuietPays(s: State, t: State, m: Mid)
    requires Typed(s) && Kept(s) && Marking(s) && MutFrame(s, t, m) && t.bits == s.bits
    requires forall k | k in t.mut && t.mut[k].pc.ToMark? ::
               White(s, t.mut[k].pc.white) || (k in s.mut && s.mut[k].pc == t.mut[k].pc)
    ensures Pays(s, t)
  {
    SafeMut(s, t, m);
    QuietSets(s, t, m);
    hide Typed, Kept, MutFrame, WhiteSet, LateMutators, Pending;
    SubsetCard(WhiteSet(t), WhiteSet(s));
    SubsetCard(LateMutators(t), LateMutators(s));
    SubsetCard(Pending(t), Pending(s));
    QuietOrder(s, t, m);
  }

  lemma QuietOrder(s: State, t: State, m: Mid)
    requires MutFrame(s, t, m) && t.bits == s.bits && Typed(s) && Marking(s)
    ensures !SweepHit(s, t) && !LateMark(s, t) && SweepOrder(s.gc, t.gc)
  {}

  lemma QuietSets(s: State, t: State, m: Mid)
    requires Typed(s) && Kept(s) && MutFrame(s, t, m) && t.bits == s.bits
    requires forall k | k in t.mut && t.mut[k].pc.ToMark? ::
               White(s, t.mut[k].pc.white) || (k in s.mut && s.mut[k].pc == t.mut[k].pc)
    ensures WhiteSet(t) <= WhiteSet(s) && LateMutators(t) <= LateMutators(s) && Pending(t) <= Pending(s)
  {
    SafeMut(s, t, m);
    forall o | o in Pending(t) ensures o in Pending(s) {
      if o in s.bits { assert o in s.h.keep; }
    }
  }

  lemma MarkPays(s: State, m: Mid)
    requires CanMutate(s, Mark(m)) && Marking(s)
    ensures Pays(s, AfterMutate(s, Mark(m)))
  {
    var t := AfterMutate(s, Mark(m));
    var o := s.mut[m].pc.white;
    assert t.colour == s.colour && t.unmarked == s.unmarked && t.gc == s.gc && t.bits == s.bits + {o};
    assert t.mut == s.mut[m := s.mut[m].(pc := ToStore(s.mut[m].pc.loc, s.mut[m].pc.rhs))];
    MarkPaysPending(s, t, m);
    MarkPaysLate(s, t, m);
  }

  lemma MarkPaysPending(s: State, t: State, m: Mid)
    requires m in s.mut && s.mut[m].pc.ToMark?
    requires t.colour == s.colour && t.unmarked == s.unmarked && t.bits == s.bits + {s.mut[m].pc.white}
    ensures |Pending(t)| <= |Pending(s)| + (if LateMark(s, t) then 1 else 0)
  {
    var o := s.mut[m].pc.white;
    if LateMark(s, t) {
      SubsetPlusOne(Pending(t), Pending(s), o);
    } else {
      assert o in t.bits;
      assert White(s, o) || o in s.bits;
      SubsetCard(Pending(t), Pending(s));
    }
  }

  lemma MarkPaysLate(s: State, t: State, m: Mid)
    requires m in s.mut && s.mut[m].pc.ToMark? && t.mut.Keys == s.mut.Keys && !t.mut[m].pc.ToMark?
    requires t.colour == s.colour && t.unmarked == s.unmarked && t.bits == s.bits + {s.mut[m].pc.white}
    requires forall k | k in s.mut && k != m :: t.mut[k] == s.mut[k]
    ensures WhiteSet(t) == WhiteSet(s)
    ensures |LateMutators(t)| + (if LateMark(s, t) then 1 else 0) <= |LateMutators(s)|
  {
    if LateMark(s, t) {
      WithoutOne(LateMutators(t), LateMutators(s), m);
    } else {
      SubsetCard(LateMutators(t), LateMutators(s));
    }
  }

  lemma CollectPays(s: State, st: Step)
    requires Inv(s) && Marking(s) && CanCollect(s, st)
    ensures Pays(s, AfterCollect(s, st))
  {
    var t := AfterCollect(s, st);
    CollectOrder(s, st);
    if st.ClearHit? { assert s.gc.bit in s.h.keep; }
    CollectPaysPending(s, t, st);
    CollectPaysLate(s, t);
  }

  lemma CollectPaysPending(s: State, t: State, st: Step)
    requires t.bits <= s.bits && t.colour.Keys == s.colour.Keys && forall o :: White(t, o) ==> White(s, o)
    requires SweepHit(s, t) ==>
               t.bits == s.bits - {s.gc.bit} && s.gc.bit in s.bits && s.gc.bit in s.colour && !White(t, s.gc.bit)
    ensures |Pending(t)| + (if SweepHit(s, t) then 1 else 0) <= |Pending(s)|
  {
    if SweepHit(s, t) {
      WithoutOne(Pending(t), Pending(s), s.gc.bit);
    } else {
      SubsetCard(Pending(t), Pending(s));
    }
  }

  lemma CollectPaysLate(s: State, t: State)
    requires t.mut == s.mut && |s.mut| <= MAX_THREADS && t.bits <= s.bits
    requires t.colour.Keys == s.colour.Keys && forall o :: White(t, o) ==> White(s, o)
    ensures MAX_THREADS * |WhiteSet(t)| + |LateMutators(t)| <= MAX_THREADS * |WhiteSet(s)| + |LateMutators(s)|
    ensures !LateMark(s, t)
  {
    if forall o :: White(s, o) ==> White(t, o) {
      assert WhiteSet(t) == WhiteSet(s) && LateMutators(t) == LateMutators(s);
    } else {
      var o :| White(s, o) && !White(t, o);
      WithoutOne(WhiteSet(t), WhiteSet(s), o);
      SubsetCard(LateMutators(t), s.mut.Keys);
    }
  }

  lemma CollectOrder(s: State, st: Step)
    requires Typed(s) && Marking(s) && CanCollect(s, st)
    ensures var t := AfterCollect(s, st);
      && SweepOrder(s.gc, t.gc) && t.mut == s.mut && t.bits <= s.bits && t.colour.Keys == s.colour.Keys
      && (forall o :: White(t, o) ==> White(s, o))
      && (SweepHit(s, t) <==> st.ClearHit?)
      && (st.ClearHit? ==> t.bits == s.bits - {s.gc.bit} && t.colour == s.colour)
  {}

  lemma NextPays(s: State, t: State)
    requires Inv(s) && Marking(s) && Next(s, t)
    ensures Pays(s, t)
  {
    var st :| Enabled(s, st) && t == After(s, st);
    if CanMutate(s, st) { MutatePays(s, st); } else { CollectPays(s, st); }
  }

  // ---------------------------------------------------------------- one cycle

  /** Every state from i up to, but not including, j is in the mark phase. */
  ghost predicate MarkingFrom(r: seq<State>, i: nat, j: nat)
    requires j < |r|
  {
    forall k: nat | i <= k < j :: Marking(r[k])
  }

  lemma {:induction false} CycleCounts(r: seq<State>, i: nat, j: nat)
    requires Run(r) && i <= j < |r| && MarkingFrom(r, i, j) && r[i].gc.ScanRoots?
    ensures Hits(r, i, j) + |Pending(r[j])| <= |Pending(r[i])| + LateMarks(r, i, j)
    ensures MAX_THREADS * |WhiteSet(r[j])| + |LateMutators(r[j])| + LateMarks(r, i, j)
            <= MAX_THREADS * |WhiteSet(r[i])| + |LateMutators(r[i])|
    ensures Sweeps(r, i, j) <= Hits(r, i, j) + (match r[j].gc
              case Sweep(_, found) => if found then 0 else 1
              case Hit(_) => 1
              case Unmark(_) => 1
              case Recycle => 1
              case _ => 0)
    ensures Marking(r[j]) || r[j].gc.Recycle?
  {
    if i < j {
      CycleCounts(r, i, j - 1);
      PayOfRun(r, j - 1);
    }
  }

  lemma PayOfRun(r: seq<State>, k: nat)
    requires Run(r) && k + 1 < |r| && Marking(r[k])
    ensures Pays(r[k], r[k + 1])
  {
    InvRun(r, k);
    assert StepAt(r, k);
    NextPays(r[k], r[k + 1]);
  }

  lemma AtFlip(r: seq<State>, i: nat)
    requires Run(r) && i + 1 < |r| && FlipAt(r, i)
    ensures Pending(r[i + 1]) == WhiteSet(r[i + 1]) && LateMutators(r[i + 1]) == {}
  {
    InvRun(r, i);
    assert StepAt(r, i);
    FlipPending(r[i], r[i + 1]);
  }

  lemma FlipPending(s: State, t: State)
    requires Inv(s) && Next(s, t) && IsFlip(s, t)
    ensures Pending(t) == WhiteSet(t) && LateMutators(t) == {}
  {
    var words := FlipStep(s, t);
    FlipColours(s, words);
    assert forall o | o in s.bits :: Allocated(s, o);
  }

  /** Only the step Flip flips. */
  lemma FlipStep(s: State, t: State) returns (words: Words)
    requires Inv(s) && Next(s, t) && IsFlip(s, t)
    ensures CanCollect(s, Flip(words)) && t == AfterCollect(s, Flip(words))
  {
    var st :| Enabled(s, st) && t == After(s, st);
    words := if st.Flip? then st.words else NO_WORDS;
    if CanMutate(s, st) { var m := MutateEffect(s, st, s.h.keep); } else { FlipFrame(s, st); }
  }

  /**
   Marking terminates.  In the cycle flipped from state i to i + 1 the number of sweeps
   is at most one more than the objects white at the flip plus the late marks, and the
   late marks are at most MAX_THREADS for each of those objects.
   */
  lemma SweepBound(r: seq<State>, i: nat, j: nat)
    requires Run(r) && i < j < |r| && FlipAt(r, i) && MarkingFrom(r, i + 1, j)
    ensures Sweeps(r, i + 1, j) <= |WhiteSet(r[i + 1])| + 1 + LateMarks(r, i + 1, j)
    ensures LateMarks(r, i + 1, j) <= MAX_THREADS * |WhiteSet(r[i + 1])|
  {
    AtFlip(r, i);
    CycleCounts(r, i + 1, j);
  }

  // ---------------------------------------------------------------- scanning

  function Untraced(s: State): set<Obj> { set o | o in s.colour && (White(s, o) || s.colour[o] == Gray) }

  /** scan_object_with_group has finished an object. */
  predicate ScanEnd(s: State, t: State) { s.gc.ScanSlots? && s.gc.src.To? && t.gc.PickGray? }

  function Scans(r: seq<State>, i: nat, j: nat): nat
    requires i <= j < |r|
    decreases j
  {
    if i == j then 0 else Scans(r, i, j - 1) + (if ScanEnd(r[j - 1], r[j]) then 1 else 0)
  }

  /** The measures of scan_gray_set: scanning an object, or tracing a white one, brings the end nearer. */
  ghost predicate ScanProgress(s: State, t: State) {
    && |Untraced(t)| + (if ScanEnd(s, t) then 1 else 0) <= |Untraced(s)|
    && (if WhiteSet(t) == WhiteSet(s) && GraySet(t) == GraySet(s) then true
        else 2 * |WhiteSet(t)| + |GraySet(t)| < 2 * |WhiteSet(s)| + |GraySet(s)|)
  }

  lemma ScanPays(s: State, t: State)
    requires Inv(s) && Marking(s) && Next(s, t)
    ensures ScanProgress(s, t)
  {
    var st :| Enabled(s, st) && t == After(s, st);
    if CanMutate(s, st) {
      var m := MutateEffect(s, st, s.h.keep);
      ScanPaysMutator(s, t, m);
    } else {
      var o := ColourMove(s, st);
      ColourMovePays(s, t, o);
    }
  }

  lemma ScanPaysMutator(s: State, t: State, m: Mid)
    requires Typed(s) && MutFrame(s, t, m)
    ensures ScanProgress(s, t)
  {
    SafeMut(s, t, m);
    assert WhiteSet(t) == WhiteSet(s) && GraySet(t) == GraySet(s) && Untraced(t) == Untraced(s);
  }

  /** A collector step while marking moves at most one object, from white to gray or from gray to black. */
  ghost predicate MovesOne(s: State, t: State, o: Obj) {
    && t.marked == s.marked && t.unmarked == s.unmarked && t.colour.Keys == s.colour.Keys
    && Generation(s.marked) && Generation(s.unmarked) && s.marked != s.unmarked
    && (forall u | u in s.colour && u != o :: t.colour[u] == s.colour[u])
    && (o in s.colour ==>
          || t.colour[o] == s.colour[o]
          || (White(s, o) && t.colour[o] == Gray)
          || (s.colour[o] == Gray && Black(t, o)))
    && (ScanEnd(s, t) ==> o in s.colour && s.colour[o] == Gray && Black(t, o))
  }

  lemma ColourMove(s: State, st: Step) returns (o: Obj)
    requires Typed(s) && Marking(s) && CanCollect(s, st)
    ensures MovesOne(s, AfterCollect(s, st), o)
  {
    o := if st.TraceRoot? then st.o
         else if st.TraceSlot? then s.gc.reg.obj
         else if st.SlotsDone? && s.gc.src.To? then s.gc.src.obj
         else if st.ShadeHit? then s.gc.bit
         else 0;
    if st.TraceRoot? || st.TraceSlot? || st.ShadeHit? { ShadeMove(s, st, o); }
    else if st.SlotsDone? { ScanMove(s, o); }
    else { NoMove(s, st); }
    hide AfterCollect, CanCollect, Typed, MovesOne;
  }

  lemma ShadeMove(s: State, st: Step, o: Obj)
    requires Typed(s) && CanCollect(s, st) && (st.TraceRoot? || st.TraceSlot? || st.ShadeHit?)
    requires o == if st.TraceRoot? then st.o else if st.TraceSlot? then s.gc.reg.obj else s.gc.bit
    ensures MovesOne(s, AfterCollect(s, st), o)
  {}

  lemma ScanMove(s: State, o: Obj)
    requires Typed(s) && CanCollect(s, SlotsDone) && o == if s.gc.src.To? then s.gc.src.obj else 0
    ensures MovesOne(s, AfterCollect(s, SlotsDone), o)
  {}

  lemma NoMove(s: State, st: Step)
    requires Typed(s) && Marking(s) && CanCollect(s, st)
    requires !st.TraceRoot? && !st.TraceSlot? && !st.ShadeHit? && !st.SlotsDone?
    ensures MovesOne(s, AfterCollect(s, st), 0)
  {
    assert AfterCollect(s, st).colour == s.colour;
  }

  lemma ColourMovePays(s: State, t: State, o: Obj)
    requires MovesOne(s, t, o)
    ensures ScanProgress(s, t)
  {
    if o !in s.colour || t.colour[o] == s.colour[o] {
      assert WhiteSet(t) == WhiteSet(s) && GraySet(t) == GraySet(s) && Untraced(t) == Untraced(s);
    } else if White(s, o) {
      WhiteMoves(s, t, o);
    } else {
      GrayMoves(s, t, o);
    }
  }

  lemma WhiteMoves(s: State, t: State, o: Obj)
    requires MovesOne(s, t, o) && White(s, o) && t.colour[o] != s.colour[o]
    ensures WhiteSet(t) == WhiteSet(s) - {o} && GraySet(t) == GraySet(s) + {o} && Untraced(t) == Untraced(s)
  {}

  lemma GrayMoves(s: State, t: State, o: Obj)
    requires MovesOne(s, t, o) && o in s.colour && !White(s, o) && t.colour[o] != s.colour[o]
    ensures WhiteSet(t) == WhiteSet(s) && GraySet(t) == GraySet(s) - {o} && Untraced(t) == Untraced(s) - {o}
  {}

  /** No more objects are scanned in a cycle than were white at its flip. */
  lemma {:induction false} ScanBound(r: seq<State>, i: nat, j: nat)
    requires Run(r) && i < j < |r| && FlipAt(r, i) && MarkingFrom(r, i + 1, j)
    ensures Scans(r, i + 1, j) + |Untraced(r[j])| <= |WhiteSet(r[i + 1])|
  {
    if i + 1 < j {
      ScanBound(r, i, j - 1);
      ScanPaysInRun(r, j - 1);
    } else {
      FlipUntraced(r, i);
    }
  }

  lemma ScanPaysInRun(r: seq<State>, k: nat)
    requires Run(r) && k + 1 < |r| && Marking(r[k])
    ensures ScanProgress(r[k], r[k + 1])
  {
    InvRun(r, k);
    assert StepAt(r, k);
    ScanPays(r[k], r[k + 1]);
  }

  lemma FlipUntraced(r: seq<State>, i: nat)
    requires Run(r) && i + 1 < |r| && FlipAt(r, i)
    ensures Untraced(r[i + 1]) == WhiteSet(r[i + 1])
  {
    InvRun(r, i);
    assert StepAt(r, i);
    var words := FlipStep(r[i], r[i + 1]);
    assert Typed(r[i]);
  }
}
