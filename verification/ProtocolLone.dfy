/**
 The collector running alone.  From any state the flip leaves, a cycle in which no mutator
 takes a step comes to its end and leaves allocated exactly what the words and bits of the
 flip led to.  So what a cycle may keep, some cycle does keep.
 */
module ProtocolLone {
  import opened Colours
  import opened Protocol
  import opened ProtocolInvariant
  import opened ProtocolTraced
  import opened ProtocolSafety
  import opened ProtocolBounds

  /** A step of the collector inside a cycle, other than giving pages back. */
  predicate Alone(st: Step) { !st.Flip? && !st.Unpublish? }

  ghost predicate LoneStep(s: State, t: State) {
    exists st :: CanCollect(s, st) && Alone(st) && t == AfterCollect(s, st)
  }

  ghost predicate LoneAt(r: seq<State>, k: nat)
    requires k + 1 < |r|
  {
    LoneStep(r[k], r[k + 1])
  }

  /** From s to t by steps of the collector alone. */
  ghost predicate Leads(s: State, r: seq<State>, t: State) {
    r != [] && r[0] == s && r[|r| - 1] == t && forall k: nat | k + 1 < |r| :: LoneAt(r, k)
  }

  /** As a flip leaves it: every object is white or free. */
  ghost predicate Started(s: State) {
    && Typed(s) && s.gc.ScanRoots?
    && (forall o | o in s.colour :: White(s, o) || s.colour[o] == Green)
    && (forall b | b in s.bits :: b < s.bitCount)
  }

  function Sources(a: State): set<Obj>
    requires a.gc.ScanRoots?
  {
    a.gc.saved + a.strays + a.bits
  }

  /** What a cycle that starts at a comes across. */
  ghost function Found(a: State): set<Obj>
    requires a.gc.ScanRoots?
  {
    Traced(a, Sources(a))
  }

  // ---------------------------------------------------------------- what the collector alone keeps

  ghost predicate SameWorld(a: State, s: State) {
    && s.bitCount == a.bitCount && s.marked == a.marked && s.unmarked == a.unmarked
    && s.heap == a.heap && s.mut == a.mut && s.strays == a.strays && s.bits <= a.bits && s.colour.Keys == a.colour.Keys
    && s.h == a.h.(base := s.h.base) && s.count == a.count + (if s.gc.Idle? then 1 else 0)
    && (forall o | Allocated(s, o) :: Allocated(a, o))
    && (Marking(s) ==> forall o | Allocated(a, o) :: Allocated(s, o))
  }

  /** Only members of T are ever gray or black, and only they come next. */
  ghost predicate Within(a: State, s: State, T: set<Obj>) {
    && (forall o | Allocated(s, o) && !White(s, o) :: o in T)
    && (s.gc.ScanRoots? ==> forall o | o in s.gc.saved && Allocated(a, o) :: o in T)
    && (s.gc.ScanSlots? && s.gc.reg.To? && Allocated(a, s.gc.reg.obj) ==> s.gc.reg.obj in T)
    && (forall b | b in s.bits && Allocated(a, b) :: b in T)
  }

  /** The collector will come back to slot l. */
  predicate Ahead(s: State, l: Loc) {
    if l.Global? then
      s.gc.ScanRoots? || (s.gc.ScanSlots? && s.gc.src.Null? &&
                          (l in s.gc.todo || (l in s.heap && s.gc.reg == s.heap[l])))
    else
      && l.owner in s.colour && s.colour[l.owner] == Gray
      && (s.gc.ScanSlots? && s.gc.src == To(l.owner) ==> l in s.gc.todo || (l in s.heap && s.gc.reg == s.heap[l]))
  }

  predicate Behind(s: State, l: Loc) { l.Global? || (Allocated(s, l.owner) && !White(s, l.owner)) }

  /** The collector has still to scan the globals, and with them to come across the stray words. */
  predicate StraysAhead(gc: Collector) { gc.ScanRoots? || (gc.ScanSlots? && gc.src.Null?) }

  /** A white object that a source or a traced object names is still ahead of the collector. */
  ghost predicate NoneMissed(s: State, sources: set<Obj>) {
    && (forall o | o in sources && White(s, o) ::
          (s.gc.ScanRoots? && o in s.gc.saved) || o in s.bits || (o in s.strays && StraysAhead(s.gc)))
    && (forall l | l in s.heap && s.heap[l].To? && White(s, s.heap[l].obj) && Behind(s, l) :: Ahead(s, l))
  }

  /** The bits below the sweep are clear. */
  ghost predicate SweptBelow(s: State) {
    && (s.gc.Sweep? ==> forall b | b in s.bits :: s.gc.at <= b)
    && (s.gc.Hit? || s.gc.Unmark? ==> forall b | b in s.bits :: s.gc.bit <= b)
  }

  ghost predicate AllBlack(s: State, T: set<Obj>) { s.bits == {} && forall o | o in T :: Black(s, o) }

  ghost predicate LoneInv(a: State, s: State) {
    && Started(a) && Typed(s) && SameWorld(a, s) && Within(a, s, Found(a))
    && (Marking(s) ==> NoneMissed(s, Sources(a)) && SweptBelow(s))
    && (!Marking(s) ==> AllBlack(s, Found(a)))
  }

  lemma LoneStart(a: State)
    requires Started(a)
    ensures LoneInv(a, a)
  {
    TracedIsClosed(a, Sources(a));
  }

  /** The collector leaves the globals only when it has come across every stray word. */
  predicate Thorough(s: State, st: Step) {
    st.SlotsDone? && s.gc.ScanSlots? && s.gc.src.Null? ==> forall o | o in s.strays :: !White(s, o)
  }

  // ---------------------------------------------------------------- every step keeps it

  lemma TypedLone(s: State, st: Step)
    requires Typed(s) && CanCollect(s, st) && Alone(st)
    ensures Typed(AfterCollect(s, st))
  {
    if st.BeginSweep? {
      forall o | o in s.colour ensures s.colour[o] != Gray { assert s.colour[o] in s.colour.Values; }
    }
  }

  lemma WorldLone(a: State, s: State, st: Step)
    requires Typed(s) && SameWorld(a, s) && CanCollect(s, st) && Alone(st)
    ensures SameWorld(a, AfterCollect(s, st))
  {}

  lemma WithinLone(a: State, s: State, st: Step, T: set<Obj>)
    requires Typed(s) && SameWorld(a, s) && a.gc.ScanRoots? && TracedClosed(a, Sources(a), T) && Within(a, s, T)
    requires CanCollect(s, st) && Alone(st)
    ensures Within(a, AfterCollect(s, st), T)
  {
    if st.LoadSlot? { assert st.l in SlotsOf(s, s.gc.src); }
  }

  lemma MissedLone(s: State, st: Step, sources: set<Obj>)
    requires Typed(s) && Marking(s) && NoneMissed(s, sources) && CanCollect(s, st) && Thorough(s, st)
    requires st.EndSweep? ==> s.gc.found
    ensures NoneMissed(AfterCollect(s, st), sources)
  {}

  lemma SweptLone(s: State, st: Step)
    requires Typed(s) && Marking(s) && SweptBelow(s) && CanCollect(s, st)
    ensures SweptBelow(AfterCollect(s, st))
  {}

  /** The end of a sweep that found nothing: what is white was not come across. */
  lemma LoneFinishes(a: State, s: State)
    requires LoneInv(a, s) && CanCollect(s, EndSweep) && !s.gc.found
    ensures AllBlack(AfterCollect(s, EndSweep), Found(a))
  {
    forall b | b in s.bits ensures b < s.bitCount {}
    var C := set o | o in s.colour && Allocated(s, o) && !White(s, o);
    assert TracedClosed(a, Sources(a), C) by {
      hide Traced;
      forall o | o in Sources(a) && Allocated(a, o) ensures o in C { assert White(s, o) ==> o in s.bits; }
      forall l | l in a.heap && a.heap[l].To? && (l.Global? || l.owner in C) && Allocated(a, a.heap[l].obj)
        ensures a.heap[l].obj in C {
        assert White(s, s.heap[l].obj) && Behind(s, l) ==> Ahead(s, l);
      }
    }
    TracedMinimal(a, Sources(a), C);
  }

  lemma RecycleLone(s: State, st: Step, T: set<Obj>)
    requires Typed(s) && s.gc.Recycle? && AllBlack(s, T) && CanCollect(s, st) && Alone(st)
    ensures AllBlack(AfterCollect(s, st), T) && !Marking(AfterCollect(s, st))
  {}

  lemma LoneNext(a: State, s: State, st: Step)
    requires LoneInv(a, s) && CanCollect(s, st) && Alone(st) && Thorough(s, st)
    ensures LoneInv(a, AfterCollect(s, st))
  {
    var t := AfterCollect(s, st);
    TypedLone(s, st);
    WorldLone(a, s, st);
    TracedIsClosed(a, Sources(a));
    WithinLone(a, s, st, Found(a));
    if s.gc.Recycle? {
      RecycleLone(s, st, Found(a));
    } else if st.EndSweep? && !s.gc.found {
      LoneFinishes(a, s);
    } else {
      MissedLone(s, st, Sources(a));
      SweptLone(s, st);
      StillMarking(s, st);
    }
    hide AfterCollect, CanCollect, Typed, SameWorld, Within, NoneMissed, SweptBelow, AllBlack, Found;
  }

  lemma StillMarking(s: State, st: Step)
    requires Marking(s) && CanCollect(s, st) && (st.EndSweep? ==> s.gc.found)
    ensures Marking(AfterCollect(s, st))
  {}

  // ---------------------------------------------------------------- and the end is reached

  /** Sweeps that may still find something. */
  function Rounds(s: State): nat { |s.bits| + (if s.gc.Sweep? && s.gc.found then 1 else 0) }

  function Shading(s: State): nat { 2 * |WhiteSet(s)| + |GraySet(s)| }

  function Phase(gc: Collector): nat {
    match gc
    case ScanRoots(_) => 6
    case ScanSlots(src, _, _) => if src.Null? then 5 else 3
    case PickGray => 4
    case Recycle => 1
    case Idle => 0
    case _ => 2
  }

  /** Stray words the collector has still to come across while it scans the globals. */
  function StraysLeft(s: State): set<Obj>
    requires s.gc.ScanSlots?
  {
    if s.gc.src.Null? then set o | o in s.strays && White(s, o) && s.gc.reg != To(o) else {}
  }

  /** Distance within a phase. */
  function Left(s: State): int {
    match s.gc
    case ScanRoots(saved) => |saved|
    case ScanSlots(_, todo, reg) => 2 * |todo| + 3 * |StraysLeft(s)| + (if reg.To? then 1 else 0)
    case Sweep(at, _) => 3 * (s.bitCount - at)
    case Hit(bit) => 3 * (s.bitCount - bit) - 1
    case Unmark(bit) => 3 * (s.bitCount - bit) - 2
    case _ => 0
  }

  /** Nearer the end of the cycle. */
  predicate Nearer(s: State, t: State) {
    || Rounds(t) < Rounds(s)
    || (Rounds(t) == Rounds(s) &&
        (Shading(t) < Shading(s) ||
         (Shading(t) == Shading(s) &&
          (Phase(t.gc) < Phase(s.gc) || (Phase(t.gc) == Phase(s.gc) && 0 <= Left(t) < Left(s))))))
  }

  /** The collector looks at every bit, and at stray words only while they lead somewhere. */
  predicate Brisk(s: State, st: Step) {
    && (st.Skip? && s.gc.Sweep? ==> st.upTo == s.gc.at + 1)
    && (st.LoadStray? && s.gc.ScanSlots? ==> s.gc.src.Null? && White(s, st.o))
  }

  /** What the collector does next when nothing disturbs it. */
  lemma SomeStep(s: State) returns (st: Step)
    requires Typed(s) && !s.gc.Idle?
    ensures CanCollect(s, st) && Alone(st) && Brisk(s, st) && Thorough(s, st)
  {
    match s.gc {
      case ScanRoots(saved) => if o :| o in saved { st := TraceRoot(o); } else { st := RootsDone; }
      case ScanSlots(src, todo, reg) =>
        if reg.To? { st := TraceSlot; }
        else if o :| o in s.strays && src.Null? && White(s, o) { st := LoadStray(o); }
        else if l :| l in todo { st := LoadSlot(l); }
        else { st := SlotsDone; }
      case PickGray =>
        if o :| o in s.colour && s.colour[o] == Gray { st := Pick(o); } else { st := BeginSweep; }
      case Sweep(at, _) =>
        if at == s.bitCount { st := EndSweep; } else if at in s.bits { st := See; } else { st := Skip(at + 1); }
      case Hit(_) => st := ShadeHit;
      case Unmark(_) => st := ClearHit;
      case Recycle =>
        if o :| o in s.colour && White(s, o) { st := RecycleOne(o); } else { st := EndCycle; }
    }
  }

  lemma RoundsFall(s: State, st: Step)
    requires Typed(s) && Marking(s) && CanCollect(s, st)
    ensures Rounds(AfterCollect(s, st)) <= Rounds(s)
    ensures st.EndSweep? && s.gc.found ==> Rounds(AfterCollect(s, st)) < Rounds(s)
  {}

  /** Unless a round or a colour is used up, the phase or what is left of it is. */
  lemma LeftFalls(s: State, st: Step)
    requires Typed(s) && Marking(s) && CanCollect(s, st) && Brisk(s, st)
    ensures var t := AfterCollect(s, st);
      || Phase(t.gc) < Phase(s.gc)
      || (Phase(t.gc) == Phase(s.gc) && 0 <= Left(t) < Left(s))
      || (st.EndSweep? && s.gc.found)
      || (st.SlotsDone? && s.gc.src.To?)
  {
    if st.LoadSlot? || st.LoadStray? || st.TraceSlot? {
      match st {
        case LoadSlot(l) => LoadLeftFalls(s, l);
        case LoadStray(o) => StrayLeftFalls(s, o);
        case TraceSlot => TraceLeftFalls(s);
      }
      hide AfterCollect, CanCollect, Left, Typed, Brisk, Phase;
    } else if st.TraceRoot? {
      assert |s.gc.saved - {st.o}| == |s.gc.saved| - 1;
    }
  }

  lemma LoadLeftFalls(s: State, l: Loc)
    requires CanCollect(s, LoadSlot(l))
    ensures var t := AfterCollect(s, LoadSlot(l));
      Phase(t.gc) == Phase(s.gc) && 0 <= Left(t) < Left(s)
  {
    assert |s.gc.todo - {l}| == |s.gc.todo| - 1;
    SubsetCard(StraysLeft(AfterCollect(s, LoadSlot(l))), StraysLeft(s));
  }

  lemma StrayLeftFalls(s: State, o: Obj)
    requires CanCollect(s, LoadStray(o)) && Brisk(s, LoadStray(o))
    ensures var t := AfterCollect(s, LoadStray(o));
      Phase(t.gc) == Phase(s.gc) && 0 <= Left(t) < Left(s)
  {
    WithoutOne(StraysLeft(AfterCollect(s, LoadStray(o))), StraysLeft(s), o);
  }

  lemma TraceLeftFalls(s: State)
    requires Typed(s) && CanCollect(s, TraceSlot)
    ensures var t := AfterCollect(s, TraceSlot);
      Phase(t.gc) == Phase(s.gc) && 0 <= Left(t) < Left(s)
  {
    SubsetCard(StraysLeft(AfterCollect(s, TraceSlot)), StraysLeft(s));
  }

  /** The end of a scan uses up a gray object. */
  lemma ScanShades(s: State)
    requires Typed(s) && CanCollect(s, SlotsDone) && s.gc.src.To?
    ensures Shading(AfterCollect(s, SlotsDone)) < Shading(s)
  {
    var t := AfterCollect(s, SlotsDone);
    GrayMoves(s, t, s.gc.src.obj);
    assert |GraySet(s) - {s.gc.src.obj}| == |GraySet(s)| - 1;
  }

  lemma ShadingFalls(s: State, st: Step)
    requires Typed(s) && Marking(s) && CanCollect(s, st)
    ensures Shading(AfterCollect(s, st)) <= Shading(s)
  {
    var o := ColourMove(s, st);
    hide AfterCollect, CanCollect, MovesOne, Typed;
    ColourMovePays(s, AfterCollect(s, st), o);
  }

  lemma NearerMarking(s: State, st: Step)
    requires Typed(s) && Marking(s) && CanCollect(s, st) && Brisk(s, st)
    ensures Nearer(s, AfterCollect(s, st))
  {
    RoundsFall(s, st);
    ShadingFalls(s, st);
    LeftFalls(s, st);
    if st.SlotsDone? && s.gc.src.To? { ScanShades(s); }
    hide AfterCollect, CanCollect, Typed, Shading, Rounds, Left, Phase;
  }

  lemma NearerRecycling(s: State, st: Step)
    requires Typed(s) && s.gc.Recycle? && CanCollect(s, st) && Alone(st)
    ensures Nearer(s, AfterCollect(s, st))
  {
    var t := AfterCollect(s, st);
    if st.RecycleOne? {
      assert GraySet(t) == {} == GraySet(s);
      WithoutOne(WhiteSet(t), WhiteSet(s), st.o);
    } else {
      assert WhiteSet(t) == WhiteSet(s) && GraySet(t) == GraySet(s);
    }
  }

  lemma NearerStep(s: State) returns (st: Step)
    requires Typed(s) && !s.gc.Idle?
    ensures CanCollect(s, st) && Alone(st) && Thorough(s, st) && Nearer(s, AfterCollect(s, st))
  {
    st := SomeStep(s);
    if Marking(s) { NearerMarking(s, st); } else { NearerRecycling(s, st); }
  }

  /** The heap after the cycle: what was come across is marked, the rest is free. */
  ghost function Collected(a: State): map<Obj, Colour>
    requires a.gc.ScanRoots?
  {
    map o | o in a.colour :: if o in Found(a) then a.marked else Green
  }

  lemma {:induction false} LoneFrom(a: State, s: State) returns (r: seq<State>, t: State)
    requires LoneInv(a, s)
    ensures Leads(s, r, t) && LoneInv(a, t) && t.gc.Idle?
    ensures forall k | 0 <= k < |r| :: LoneInv(a, r[k])
    ensures forall k | 0 <= k < |r| - 1 :: !r[k].gc.Idle?
    decreases Rounds(s), Shading(s), Phase(s.gc), Left(s)
  {
    if s.gc.Idle? {
      r, t := [s], s;
    } else {
      var st := NearerStep(s);
      LoneNext(a, s, st);
      var s1 := AfterCollect(s, st);
      var rest;
      rest, t := LoneFrom(a, s1);
      r := Prepend(s, st, s1, rest, t);
    }
  }

  lemma Prepend(s: State, st: Step, s1: State, rest: seq<State>, t: State) returns (r: seq<State>)
    requires CanCollect(s, st) && Alone(st) && s1 == AfterCollect(s, st) && Leads(s1, rest, t)
    ensures Leads(s, r, t) && r == [s] + rest
  {
    r := [s] + rest;
    assert LoneStep(s, s1);
    hide LoneStep, CanCollect, AfterCollect;
    forall k: nat | k + 1 < |r| ensures LoneAt(r, k) {
      if k > 0 { assert LoneAt(rest, k - 1); }
    }
  }

  lemma LoneEnd(a: State, t: State)
    requires LoneInv(a, t) && t.gc.Idle?
    ensures t == a.(colour := Collected(a), bits := {}, barrier := false, gc := Idle, count := a.count + 1, h := t.h)
    ensures t.h == a.h.(base := t.h.base)
  {
    forall o | o in t.colour ensures t.colour[o] == Collected(a)[o] {
      if t.colour[o] != Green { assert Allocated(t, o); }
    }
    assert t.colour == Collected(a);
  }

  /**
   A cycle without mutators.  It ends, changes nothing but colours and bits, and leaves
   allocated exactly what the words and bits found at its start lead to, all the while.
   */
  lemma LoneCycle(a: State) returns (r: seq<State>, t: State)
    requires Started(a)
    ensures Leads(a, r, t) && |r| > 1 && r[|r| - 2].gc.Recycle?
    ensures t == a.(colour := Collected(a), bits := {}, barrier := false, gc := Idle, count := a.count + 1, h := t.h)
    ensures t.h == a.h.(base := t.h.base)
    ensures forall k, o | 0 <= k < |r| && o in Found(a) :: Allocated(r[k], o)
    ensures forall k | 0 <= k < |r| - 1 :: !r[k].gc.Idle?
  {
    LoneStart(a);
    r, t := LoneFrom(a, a);
    LoneEnd(a, t);
    assert a.gc.ScanRoots?;
    assert LoneAt(r, |r| - 2);
    EndsFromRecycle(r[|r| - 2], t);
    hide LoneInv, LoneStep, Collected, Started;
    forall k, o | 0 <= k < |r| && o in Found(a) ensures Allocated(r[k], o) {
      FoundStays(a, r[k], o);
    }
  }

  lemma EndsFromRecycle(s: State, t: State)
    requires LoneStep(s, t) && t.gc.Idle?
    ensures s.gc.Recycle?
  {}

  lemma FoundStays(a: State, s: State, o: Obj)
    requires LoneInv(a, s) && o in Found(a)
    ensures Allocated(s, o)
  {}
}
