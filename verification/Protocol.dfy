/**
 The collector and up to MAX_THREADS mutators as one transition system.

 A header is named by the number of its bit in RTwrite_vector.  A step is one
 access to shared memory: the write barrier is five of them (test of
 enable_write_barrier, load of the overwritten word, WHITEP test, mark, store), an
 allocation is two (the free_lock section, the clearing of the body), and the
 collector loads and traces one slot at a time.

 Stacks, registers and object bodies are searched conservatively.  Besides the references
 a mutator holds, Flip saves any words at all; and between two slots of what it is scanning
 the collector comes across stray words, which are in no slot.  Either kind may name live,
 garbage, free, unpublished or nonexistent headers.  The strays of a cycle are what the
 steps LoadStray load in it, in any order and any number of times.

 Hypotheses built into `Enabled`:
 - Flip is one step (saved roots, barrier on, colour swap) and is taken only when no
   mutator is inside RTwrite_barrier;
 - publishing a page of green headers is one step.
 */
module Protocol {
  import opened Colours

  type Obj = nat
  type Mid = nat

  const MAX_THREADS := 20

  datatype Ref = Null | To(obj: Obj)

  /** A word that may hold a reference: a root outside the heap, or a slot of an object. */
  datatype Loc = Global(index: nat) | Field(owner: Obj, slot: nat)

  datatype Pc =
    | Ready
    | Entered(loc: Loc, rhs: Ref)             // saw enable_write_barrier set
    | Loaded(loc: Loc, seen: Ref, rhs: Ref)    // read the word about to be overwritten
    | ToMark(loc: Loc, white: Obj, rhs: Ref)  // found it white
    | ToStore(loc: Loc, rhs: Ref)
    | Clearing(body: Obj)                    // allocated, body not cleared yet

  datatype Mutator = Mutator(roots: set<Obj>, pc: Pc)

  datatype Collector =
    | Idle
    | ScanRoots(saved: set<Obj>)                      // saved words still to trace
    | ScanSlots(src: Ref, todo: set<Loc>, reg: Ref)   // slots of src (Null: the globals); reg is loaded, not traced
    | PickGray                                        // scan_gray_set, between two objects
    | Sweep(at: nat, found: bool)                     // scan_write_vector; found is mark_count > 0
    | Hit(bit: nat)                                   // found this bit set
    | Unmark(bit: nat)                                // traced it, bit not cleared yet
    | Recycle

  /** What the proofs remember about the current cycle; no step reads it. */
  datatype History = History(
    keep: set<Obj>,         // reachable at the flip, or allocated and cleared since
    first: set<Obj>,        // reachable at the flip
    seeds: set<Obj>,        // references saved and bits already set at the flip
    snap: map<Loc, Ref>,    // contents of the reachable slots at the flip
    base: set<Obj>,         // bits set when the running sweep began
    traced: set<Obj>)       // what the words of the cycle and the bits of the flip led to

  datatype State = State(
    bitCount: nat,
    colour: map<Obj, Colour>,
    marked: Colour,
    unmarked: Colour,
    heap: map<Loc, Ref>,
    bits: set<Obj>,
    barrier: bool,
    mut: map<Mid, Mutator>,
    gc: Collector,
    count: nat,
    strays: set<Obj>,       // what stray words name in this cycle
    h: History)

  // ---------------------------------------------------------------- vocabulary

  predicate White(s: State, o: Obj) { o in s.colour && s.colour[o] == s.unmarked }

  predicate Black(s: State, o: Obj) { o in s.colour && s.colour[o] == s.marked }

  predicate Allocated(s: State, o: Obj) { o in s.colour && s.colour[o] != Green }

  predicate Marking(s: State) { !s.gc.Idle? && !s.gc.Recycle? }

  predicate InBarrier(pc: Pc) { !pc.Ready? && !pc.Clearing? }

  predicate Accessible(mu: Mutator, l: Loc) { l.Global? || l.owner in mu.roots }

  predicate Holds(mu: Mutator, r: Ref) { r.To? ==> r.obj in mu.roots }

  predicate OwnedBy(l: Loc, o: Obj) { l.Field? && l.owner == o }

  function SlotsOf(s: State, src: Ref): (ls: set<Loc>) {
    set l | l in s.heap && (if src.Null? then l.Global? else OwnedBy(l, src.obj))
  }

  /** References a mutator can still use: its words and the operand of a running barrier. */
  function Held(mu: Mutator): set<Obj> {
    mu.roots
    + (if mu.pc.Loaded? && mu.pc.seen.To? then {mu.pc.seen.obj} else {})
    + (if mu.pc.ToMark? then {mu.pc.white} else {})
  }

  ghost predicate Raw(s: State, o: Obj) {
    exists m :: m in s.mut && s.mut[m].pc == Clearing(o)
  }

  /** What the flip handler of one thread saves. */
  function SavedBy(mu: Mutator): set<Obj> {
    mu.roots + (if mu.pc.Clearing? then {mu.pc.body} else {})
  }

  function Saved(s: State): set<Obj> {
    set m, o | m in s.mut && o in SavedBy(s.mut[m]) :: o
  }

  // ---------------------------------------------------------------- reachability

  /** C holds every root (words, globals, set bits) and follows every slot of its members. */
  ghost predicate Closed(s: State, C: set<Obj>) {
    && (forall m | m in s.mut :: Held(s.mut[m]) <= C)
    && s.bits <= C
    && (forall l | l in s.heap && s.heap[l].To? && (l.Global? || l.owner in C) :: s.heap[l].obj in C)
  }

  ghost predicate InEveryClosed(s: State, o: Obj) {
    forall C: set<Obj> :: Closed(s, C) ==> o in C
  }

  ghost function Reach(s: State): set<Obj> {
    set o | o in s.colour && InEveryClosed(s, o)
  }

  ghost function Snapshot(s: State, R: set<Obj>): map<Loc, Ref> {
    map l | l in s.heap && (l.Global? || l.owner in R) :: s.heap[l]
  }

  /** C holds the allocated ones of roots and follows every slot of its members to allocated objects. */
  ghost predicate TracedClosed(s: State, roots: set<Obj>, C: set<Obj>) {
    && (forall o | o in roots && Allocated(s, o) :: o in C)
    && (forall l | l in s.heap && s.heap[l].To? && (l.Global? || l.owner in C) && Allocated(s, s.heap[l].obj) ::
          s.heap[l].obj in C)
  }

  ghost predicate InEveryTracedClosed(s: State, roots: set<Obj>, o: Obj) {
    forall C: set<Obj> :: TracedClosed(s, roots, C) ==> o in C
  }

  /** What a collector that starts from roots can come across in the heap of s, whoever holds it. */
  ghost function Traced(s: State, roots: set<Obj>): set<Obj> {
    set o | o in s.colour && Allocated(s, o) && InEveryTracedClosed(s, roots, o)
  }

  /** The words of a cycle that are no references: those saved at the flip, and those stray in what is scanned. */
  datatype Words = Words(saved: set<Obj>, stray: set<Obj>)

  const NO_WORDS := Words({}, {})

  /** All that a cycle which flips at s with these words starts from. */
  function Roots(s: State, words: Words): set<Obj> { Saved(s) + words.saved + words.stray + s.bits }

  // ---------------------------------------------------------------- steps

  datatype Step =
    // mutators
    | LoadRef(m: Mid, l: Loc)
    | DropRef(m: Mid, o: Obj)
    | Enter(m: Mid, l: Loc, rhs: Ref)
    | Load(m: Mid)
    | Test(m: Mid)
    | Mark(m: Mid)
    | Store(m: Mid)
    | Alloc(m: Mid, o: Obj, body: map<nat, Ref>)
    | Clear(m: Mid)
    | Publish(objs: set<Obj>)
    | Spawn(m: Mid, child: Mid, given: set<Obj>)
    | Exit(m: Mid)
    // collector
    | Flip(words: Words)
    | TraceRoot(o: Obj)
    | RootsDone
    | LoadSlot(l: Loc)
    | LoadStray(o: Obj)
    | TraceSlot
    | SlotsDone
    | Pick(o: Obj)
    | BeginSweep
    | Skip(upTo: nat)
    | See
    | ShadeHit
    | ClearHit
    | EndSweep
    | RecycleOne(o: Obj)
    | Unpublish(objs: set<Obj>)
    | EndCycle

  predicate MutatorReady(s: State, m: Mid) { m in s.mut && s.mut[m].pc.Ready? }

  predicate CanMutate(s: State, st: Step) {
    match st
    case LoadRef(m, l) => MutatorReady(s, m) && l in s.heap && Accessible(s.mut[m], l)
    case DropRef(m, o) => MutatorReady(s, m)
    case Enter(m, l, rhs) =>
      MutatorReady(s, m) && l in s.heap && Accessible(s.mut[m], l) && Holds(s.mut[m], rhs)
    case Load(m) => m in s.mut && s.mut[m].pc.Entered? && s.mut[m].pc.loc in s.heap
    case Test(m) => m in s.mut && s.mut[m].pc.Loaded?
    case Mark(m) => m in s.mut && s.mut[m].pc.ToMark?
    case Store(m) => m in s.mut && s.mut[m].pc.ToStore?
    case Alloc(m, o, body) => MutatorReady(s, m) && o in s.colour && s.colour[o] == Green
    case Clear(m) => m in s.mut && s.mut[m].pc.Clearing?
    case Publish(objs) => objs !! s.colour.Keys && forall o | o in objs :: o < s.bitCount
    case Spawn(m, child, given) =>
      MutatorReady(s, m) && child !in s.mut && given <= s.mut[m].roots && |s.mut| < MAX_THREADS
    case Exit(m) => MutatorReady(s, m)
    case _ => false
  }

  predicate CanCollect(s: State, st: Step) {
    match st
    case Flip(_) => s.gc.Idle? && forall m | m in s.mut :: !InBarrier(s.mut[m].pc)
    case TraceRoot(o) => s.gc.ScanRoots? && o in s.gc.saved
    case RootsDone => s.gc.ScanRoots? && s.gc.saved == {}
    case LoadSlot(l) => s.gc.ScanSlots? && s.gc.reg.Null? && l in s.gc.todo && l in s.heap
    case LoadStray(o) => s.gc.ScanSlots? && s.gc.reg.Null? && o in s.strays
    case TraceSlot => s.gc.ScanSlots? && s.gc.reg.To?
    case SlotsDone => s.gc.ScanSlots? && s.gc.reg.Null? && s.gc.todo == {}
    case Pick(o) => s.gc.PickGray? && o in s.colour && s.colour[o] == Gray
    case BeginSweep => s.gc.PickGray? && Gray !in s.colour.Values
    case Skip(j) =>
      s.gc.Sweep? && s.gc.at < j <= s.bitCount && forall b | s.gc.at <= b < j :: b !in s.bits
    case See => s.gc.Sweep? && s.gc.at < s.bitCount && s.gc.at in s.bits
    case ShadeHit => s.gc.Hit?
    case ClearHit => s.gc.Unmark?
    case EndSweep => s.gc.Sweep? && s.gc.at == s.bitCount
    case RecycleOne(o) => s.gc.Recycle? && White(s, o)
    case Unpublish(objs) => s.gc.Recycle? && forall o | o in objs :: o in s.colour && s.colour[o] == Green
    case EndCycle => s.gc.Recycle? && forall o | o in s.colour :: !White(s, o)
    case _ => false
  }

  predicate Enabled(s: State, st: Step) { CanMutate(s, st) || CanCollect(s, st) }

  function SetMut(s: State, m: Mid, mu: Mutator): State { s.(mut := s.mut[m := mu]) }

  function SetPc(s: State, m: Mid, pc: Pc): State
    requires m in s.mut
  {
    SetMut(s, m, s.mut[m].(pc := pc))
  }

  /** The slots an allocation gives to o, with whatever the memory held before. */
  function Refit(heap: map<Loc, Ref>, o: Obj, body: map<nat, Ref>): (r: map<Loc, Ref>)
    ensures forall l :: l in r <==> (if OwnedBy(l, o) then l.slot in body else l in heap)
    ensures forall l | l in r :: r[l] == if OwnedBy(l, o) then body[l.slot] else heap[l]
  {
    (map l | l in heap && !OwnedBy(l, o) :: heap[l]) + (map i | i in body :: Field(o, i) := body[i])
  }

  function Cleared(heap: map<Loc, Ref>, o: Obj): map<Loc, Ref> {
    map l | l in heap :: if OwnedBy(l, o) then Null else heap[l]
  }

  function AfterMutate(s: State, st: Step): State
    requires CanMutate(s, st)
  {
    match st
    case LoadRef(m, l) =>
      if s.heap[l].To? then SetMut(s, m, s.mut[m].(roots := s.mut[m].roots + {s.heap[l].obj})) else s
    case DropRef(m, o) => SetMut(s, m, s.mut[m].(roots := s.mut[m].roots - {o}))
    case Enter(m, l, rhs) => SetPc(s, m, if s.barrier then Entered(l, rhs) else ToStore(l, rhs))
    case Load(m) =>
      var pc := s.mut[m].pc;
      SetPc(s, m, Loaded(pc.loc, s.heap[pc.loc], pc.rhs))
    case Test(m) =>
      var pc := s.mut[m].pc;
      SetPc(s, m, if pc.seen.To? && White(s, pc.seen.obj) then ToMark(pc.loc, pc.seen.obj, pc.rhs)
                  else ToStore(pc.loc, pc.rhs))
    case Mark(m) =>
      var pc := s.mut[m].pc;
      SetPc(s, m, ToStore(pc.loc, pc.rhs)).(bits := s.bits + {pc.white})
    case Store(m) =>
      var pc := s.mut[m].pc;
      SetPc(s, m, Ready).(heap := s.heap[pc.loc := pc.rhs])
    case Alloc(m, o, body) =>
      SetPc(s, m, Clearing(o)).(colour := s.colour[o := s.marked], heap := Refit(s.heap, o, body))
    case Clear(m) =>
      var o := s.mut[m].pc.body;
      SetMut(s, m, Mutator(s.mut[m].roots + {o}, Ready))
        .(heap := Cleared(s.heap, o), h := s.h.(keep := s.h.keep + {o}))
    case Publish(objs) =>
      s.(colour := map o | o in s.colour.Keys + objs :: if o in objs then Green else s.colour[o])
    case Spawn(m, child, given) => SetMut(s, child, Mutator(given, Ready))
    case Exit(m) => s.(mut := s.mut - {m})
  }

  ghost function AfterCollect(s: State, st: Step): State
    requires CanCollect(s, st)
  {
    match st
    case Flip(words) =>
      s.(marked := s.unmarked, unmarked := s.marked, barrier := true, gc := ScanRoots(Saved(s) + words.saved),
      strays := words.stray,
      h := History(Reach(s), Reach(s), Saved(s) + s.bits, Snapshot(s, Reach(s)), {}, Traced(s, Roots(s, words))))
    case TraceRoot(o) => s.(colour := Shade(s.colour, s.unmarked, o), gc := ScanRoots(s.gc.saved - {o}))
    case RootsDone => s.(gc := ScanSlots(Null, SlotsOf(s, Null), Null))
    case LoadSlot(l) => s.(gc := ScanSlots(s.gc.src, s.gc.todo - {l}, s.heap[l]))
    case LoadStray(o) => s.(gc := ScanSlots(s.gc.src, s.gc.todo, To(o)))
    case TraceSlot =>
      s.(colour := Shade(s.colour, s.unmarked, s.gc.reg.obj), gc := ScanSlots(s.gc.src, s.gc.todo, Null))
    case SlotsDone =>
      s.(colour := if s.gc.src.To? then Blacken(s.colour, s.marked, s.gc.src.obj) else s.colour, gc := PickGray)
    case Pick(o) => s.(gc := ScanSlots(To(o), SlotsOf(s, To(o)), Null))
    case BeginSweep => s.(gc := Sweep(0, false), h := s.h.(base := s.bits))
    case Skip(j) => s.(gc := Sweep(j, s.gc.found))
    case See => s.(gc := Hit(s.gc.at))
    case ShadeHit => s.(colour := Shade(s.colour, s.unmarked, s.gc.bit), gc := Unmark(s.gc.bit))
    case ClearHit => s.(bits := s.bits - {s.gc.bit}, gc := Sweep(s.gc.bit + 1, true))
    case EndSweep => if s.gc.found then s.(gc := PickGray) else s.(barrier := false, gc := Recycle)
    case RecycleOne(o) => s.(colour := s.colour[o := Green])
    case Unpublish(objs) => s.(colour := s.colour - objs)
    case EndCycle => s.(gc := Idle, count := s.count + 1)
  }

  ghost function After(s: State, st: Step): State
    requires Enabled(s, st)
  {
    if CanMutate(s, st) then AfterMutate(s, st) else AfterCollect(s, st)
  }

  ghost predicate Next(s: State, s': State) {
    exists st :: Enabled(s, st) && s' == After(s, st)
  }

  /** RTinit_heap: nothing allocated, no bit set, barrier off. */
  predicate Init(s: State) {
    && s.marked == Gen0 && s.unmarked == Gen1
    && (forall o | o in s.colour :: o < s.bitCount && s.colour[o] == Green)
    && (forall l | l in s.heap :: l.Global? && s.heap[l].Null?)
    && s.bits == {} && !s.barrier && s.gc.Idle? && s.count == 0
    && (forall m | m in s.mut :: s.mut[m] == Mutator({}, Ready)) && |s.mut| <= MAX_THREADS
    && s.h.keep == {}
  }

  ghost predicate StepAt(r: seq<State>, k: nat)
    requires k + 1 < |r|
  {
    Next(r[k], r[k + 1])
  }

  /** A finite execution; every theorem about runs holds of all its prefixes too. */
  ghost predicate Run(r: seq<State>) {
    r != [] && Init(r[0]) && forall k: nat | k + 1 < |r| :: StepAt(r, k)
  }
}
