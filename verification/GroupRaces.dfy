/**
 RTmake_object_gray and scan_object_with_group on the collector thread, interleaved
 with RTallocate and init_pages_for_group on any number of mutators, at the grain of
 single link words.  A link word holds a pointer and info bits, so each SET_ macro on
 a word two threads may write is a read step and a write step: the write puts back
 whatever the read saw in the other half.  The only exclusion is the two locks.

 Writes to words that only the collector ever writes are not split: the links of white
 headers (Begin), and the prev word of a gray header behind the head (LinkToGray).
 */
module GroupRaces {
  import opened Colours
  import opened Links
  import opened GroupList

  /** Where the collector is.  u is the object being grayed, p the one being scanned. */
  datatype Gc =
    | Rest
    | Unlinked(u: int)                       // out of the white chain
    | InBl(u: int)                           // holds black_and_last_lock
    | NeedFree(u: int)                       // linked to black, black not linked back
    | InFree(u: int)                         // holds free_lock
    | BlackRead(u: int, colour: Colour)      // read black's prev word
    | Linked_(u: int)                        // at the head of the main chain, still white
    | ColourRead(u: int, link: int)          // read u's prev word
    | Grayed_(u: int)                        // colour written, group->gray not yet
    | ScanRead(p: int, link: int)            // body scanned, read p's prev word
    | ScanWritten(p: int)                    // colour written, group->black not yet

  /** Where the mutator that holds free_lock is. */
  datatype Pc =
    | Holding
    | Popped(p: int)
    | PrevRead(p: int, link: int)
    | Coloured_(p: int)
    | NextRead(p: int, link: int)
    | Fresh(blocks: seq<int>)
    | FreshInBl(blocks: seq<int>)
    | LastRead(blocks: seq<int>, class_: int) // base points back to last; read last's next word

  datatype FreeLock = Open | ByGc | By(m: nat, pc: Pc)

  datatype BlLock = BlOpen | BlByGc | BlByMutator

  /** shape and classes are what the writes so far should amount to; no step reads them. */
  datatype Race = Race(
    h: Memory,
    c: Cut,
    gc: Gc,
    free: FreeLock,
    bl: BlLock,
    marked: Colour,
    unmarked: Colour,
    s: Shape,
    classes: map<int, int>)

  datatype Step =
    // RTmake_object_gray
    | Begin(k: nat)
    | LinkToGray
    | LockBl
    | LinkToBlack
    | LockFree
    | ReadBlack
    | WriteBlack
    | ReadColour
    | WriteColour
    | SetGray
    // scan_object_with_group
    | ReadScan
    | WriteScan
    | SetBlack
    // RTallocate
    | Lock(m: nat)
    | Pop
    | ReadPrev
    | WritePrev
    | ReadNext
    | WriteNext(class_: int)
    // init_pages_for_group
    | LayOut(g: Memory, blocks: seq<int>)
    | LockBlToo
    | LinkFresh
    | LinkLast

  function PushHead(s: Shape, u: int): Shape { Shape([u] + s.main, s.grays + 1, s.retained + 1, s.whites) }

  function Cursor(r: Race): int {
    if r.c.black in r.h && r.h[r.c.black].colour != Gray then r.h[r.c.black].prev else r.c.black
  }

  ghost predicate Enabled(r: Race, st: Step) {
    match st
    case Begin(k) => r.gc.Rest? && k < |r.s.whites| && Linked(r.h, r.s.whites[k])
    case LinkToGray => r.gc.Unlinked? && r.c.gray != NULL && r.gc.u in r.h && r.c.gray in r.h
    case LockBl => r.gc.Unlinked? && r.c.gray == NULL && r.bl.BlOpen?
    case LinkToBlack => r.gc.InBl? && r.gc.u in r.h
    case LockFree => r.gc.NeedFree? && r.free.Open?
    case ReadBlack => r.gc.InFree? && r.c.black in r.h
    case WriteBlack => r.gc.BlackRead? && r.c.black in r.h
    case ReadColour => r.gc.Linked_? && r.gc.u in r.h
    case WriteColour => r.gc.ColourRead? && r.gc.u in r.h
    case SetGray => r.gc.Grayed_?
    case ReadScan => r.gc.Rest? && Cursor(r) != NULL && Cursor(r) in r.h
    case WriteScan => r.gc.ScanRead? && r.gc.p in r.h
    case SetBlack => r.gc.ScanWritten? && r.s.grays > 0
    case Lock(m) => r.free.Open?
    case Pop => r.free.By? && r.free.pc.Holding? && r.c.free in r.h
    case ReadPrev => r.free.By? && r.free.pc.Popped? && r.free.pc.p in r.h
    case WritePrev => r.free.By? && r.free.pc.PrevRead? && r.free.pc.p in r.h
    case ReadNext => r.free.By? && r.free.pc.Coloured_? && r.free.pc.p in r.h
    case WriteNext(_) => r.free.By? && r.free.pc.NextRead? && r.free.pc.p in r.h
    case LayOut(g, blocks) =>
      r.free.By? && r.free.pc.Holding? && r.c.free == NULL && blocks != [] && FreshBlocks(r.h, g, blocks)
    case LockBlToo => r.free.By? && r.free.pc.Fresh? && r.bl.BlOpen?
    case LinkFresh => r.free.By? && r.free.pc.FreshInBl? && r.free.pc.blocks != [] && r.free.pc.blocks[0] in r.h
                      && (r.c.last != NULL ==> r.c.last in r.h)
    case LinkLast => r.free.By? && r.free.pc.LastRead? && r.free.pc.blocks != [] && r.c.last in r.h
  }

  function AtPc(r: Race, pc: Pc): Race
    requires r.free.By?
  {
    r.(free := By(r.free.m, pc))
  }

  ghost function After(r: Race, st: Step): Race
    requires Enabled(r, st)
  {
    match st
    case Begin(k) =>
      var u := r.s.whites[k];
      r.(h := SetPrev(Unlink(r.h, u), u, NULL), c := r.c.(white := if r.c.white == u then r.h[u].next else r.c.white),
      gc := Unlinked(u), s := r.s.(whites := Drop(r.s.whites, k)))
    case LinkToGray =>
      var u := r.gc.u;
      r.(h := SetPrev(SetNext(r.h, u, r.c.gray), r.c.gray, u), gc := Linked_(u), s := PushHead(r.s, u))
    case LockBl => r.(gc := InBl(r.gc.u), bl := BlByGc)
    case LinkToBlack =>
      var u := r.gc.u;
      var h := SetNext(r.h, u, r.c.black);
      if r.c.black == NULL then
        r.(h := h, c := r.c.(black := u, last := u), gc := Linked_(u), bl := BlOpen, s := PushHead(r.s, u))
      else
        r.(h := h, gc := NeedFree(u), bl := BlOpen)
    case LockFree => r.(gc := InFree(r.gc.u), free := ByGc)
    case ReadBlack => r.(gc := BlackRead(r.gc.u, r.h[r.c.black].colour))
    case WriteBlack =>
      var u := r.gc.u;
      r.(h := r.h[r.c.black := r.h[r.c.black].(prev := u, colour := r.gc.colour)],
      gc := Linked_(u), free := Open, s := PushHead(r.s, u))
    case ReadColour => r.(gc := ColourRead(r.gc.u, r.h[r.gc.u].prev))
    case WriteColour =>
      r.(h := r.h[r.gc.u := r.h[r.gc.u].(prev := r.gc.link, colour := Gray)], gc := Grayed_(r.gc.u))
    case SetGray => r.(c := r.c.(gray := r.gc.u), gc := Rest)
    case ReadScan => r.(gc := ScanRead(Cursor(r), r.h[Cursor(r)].prev))
    case WriteScan =>
      r.(h := r.h[r.gc.p := r.h[r.gc.p].(prev := r.gc.link, colour := r.marked)], gc := ScanWritten(r.gc.p))
    case SetBlack => r.(c := r.c.(black := r.gc.p), gc := Rest, s := r.s.(grays := r.s.grays - 1))
    case Lock(m) => r.(free := By(m, Holding))
    case Pop =>
      AtPc(r, Popped(r.c.free)).(c := r.c.(free := r.h[r.c.free].next), s := r.s.(retained := r.s.retained + 1))
    case ReadPrev => AtPc(r, PrevRead(r.free.pc.p, r.h[r.free.pc.p].prev))
    case WritePrev =>
      var p := r.free.pc.p;
      AtPc(r, Coloured_(p)).(h := r.h[p := r.h[p].(prev := r.free.pc.link, colour := r.marked)])
    case ReadNext => AtPc(r, NextRead(r.free.pc.p, r.h[r.free.pc.p].next))
    case WriteNext(class_) =>
      var p := r.free.pc.p;
      r.(h := r.h[p := r.h[p].(next := r.free.pc.link, class_ := class_)], free := Open,
         classes := r.classes[p := class_])
    case LayOut(g, blocks) => AtPc(r, Fresh(blocks)).(h := g)
    case LockBlToo => AtPc(r, FreshInBl(r.free.pc.blocks)).(bl := BlByMutator)
    case LinkFresh =>
      var blocks := r.free.pc.blocks;
      if r.c.last == NULL then
        AtPc(r, Holding).(c := r.c.(free := blocks[0], black := blocks[0], last := blocks[|blocks| - 1]), bl := BlOpen,
        s := Extended(r.s, blocks))
      else
        AtPc(r, LastRead(blocks, r.h[r.c.last].class_)).(h := SetPrev(r.h, blocks[0], r.c.last),
                                                         c := r.c.(free := blocks[0]))
    case LinkLast =>
      var blocks := r.free.pc.blocks;
      AtPc(r, Holding).(h := r.h[r.c.last := r.h[r.c.last].(next := blocks[0], class_ := r.free.pc.class_)],
      c := r.c.(last := blocks[|blocks| - 1]), bl := BlOpen, s := Extended(r.s, blocks))
  }

  /** Nothing under way: the collector between two objects, free_lock open. */
  predicate AtRest(r: Race) { r.gc.Rest? && r.free.Open? && r.bl.BlOpen? }

  /** Every storage class written is still there. */
  ghost predicate ClassesKept(r: Race) {
    forall p | p in r.classes :: p in r.h && r.h[p].class_ == r.classes[p]
  }

  ghost predicate Next(r: Race, t: Race) { exists st :: Enabled(r, st) && t == After(r, st) }

  ghost predicate StepAt(run: seq<Race>, k: nat)
    requires k + 1 < |run|
  {
    Next(run[k], run[k + 1])
  }

  ghost predicate Run(run: seq<Race>) {
    && run != [] && AtRest(run[0]) && ClassesKept(run[0])
    && Good(run[0].h, run[0].c, run[0].s, run[0].marked, run[0].unmarked)
    && forall k: nat | k + 1 < |run| :: StepAt(run, k)
  }

  // ---------------------------------------------------------------- the invariant

  /** Objects on their way from the white chain to the main chain. */
  function InTransit(gc: Gc): set<int> {
    match gc
    case Unlinked(u) => {u}
    case InBl(u) => {u}
    case NeedFree(u) => {u}
    case InFree(u) => {u}
    case BlackRead(u, _) => {u}
    case _ => {}
  }

  function FreshOf(f: FreeLock): seq<int> {
    if !f.By? then [] else
      match f.pc
      case Fresh(b) => b
      case FreshInBl(b) => b
      case LastRead(b, _) => b
      case _ => []
  }

  ghost predicate Cover(r: Race) {
    var out, new_ := InTransit(r.gc), FreshOf(r.free);
    && (forall p :: p in r.h <==> p in r.s.main || p in r.s.whites || p in out || p in new_)
    && (forall p | p in r.s.main :: p !in r.s.whites && p !in out && p !in new_)
    && (forall p | p in r.s.whites :: p !in out && p !in new_)
    && (forall p | p in out :: p !in new_)
  }

  /** The chains, undisturbed except that the first fresh block may already point back to last. */
  ghost predicate Chains(r: Race) {
    && Chain(r.h, r.s.main) && Chain(r.h, r.s.whites)
    && (if r.free.By? && r.free.pc.LastRead? then
          && FreshOf(r.free) != [] && FreshOf(r.free)[0] in r.h && r.h[FreshOf(r.free)[0]].prev == r.c.last
          && Chain(SetPrev(r.h, FreshOf(r.free)[0], NULL), FreshOf(r.free))
        else Chain(r.h, FreshOf(r.free)))
  }

  /** The colour position i of the main chain will have when the steps under way are done. */
  function Due(r: Race, i: nat): Colour {
    if i < r.s.grays then Gray else if i < r.s.retained then r.marked else Green
  }

  /** The header's colour has still to be written, or was written ahead of its pointer. */
  predicate Late(r: Race, p: int) {
    || ((r.gc.Linked_? || r.gc.ColourRead?) && r.gc.u == p)
    || (r.gc.ScanWritten? && r.gc.p == p)
    || (r.free.By? && (r.free.pc.Popped? || r.free.pc.PrevRead?) && r.free.pc.p == p)
  }

  predicate ColourOk(r: Race, i: nat)
    requires i < |r.s.main|
  {
    var p := r.s.main[i];
    p in r.h && (Late(r, p) || r.h[p].colour == Due(r, i))
  }

  ghost predicate ColoursOk(r: Race) {
    && (forall i: nat | i < |r.s.main| :: ColourOk(r, i))
    && (forall p | p in r.s.whites || p in InTransit(r.gc) :: p in r.h && r.h[p].colour == r.unmarked)
    && (forall p | p in FreshOf(r.free) :: p in r.h && r.h[p].colour == Green)
  }

  /** group->gray still names the head before the object now at the head. */
  predicate GrayLags(gc: Gc) { gc.Linked_? || gc.ColourRead? || gc.Grayed_? }

  predicate PointersOk(r: Race) {
    && r.s.grays <= r.s.retained <= |r.s.main|
    && r.c.last == At(r.s.main, |r.s.main| - 1)
    && r.c.white == At(r.s.whites, 0)
    && BlackPointer(r.c.black, r.s)
    && (if r.free.By? && r.free.pc.LastRead? then
          r.free.pc.blocks != [] && r.c.free == r.free.pc.blocks[0] && r.s.retained == |r.s.main|
        else r.c.free == At(r.s.main, r.s.retained))
    && (if GrayLags(r.gc) then
          r.s.grays > 0 && (if r.c.gray == NULL then r.s.grays == 1 else r.s.retained > 1 && r.c.gray == r.s.main[1])
        else if r.c.gray == NULL then r.s.grays == 0
        else r.s.retained > 0 && r.c.gray == r.s.main[0])
  }

  /** The collector's registers and locks. */
  ghost predicate GcOk(r: Race) {
    && (r.gc.InFree? || r.gc.BlackRead? <==> r.free.ByGc?)
    && (r.gc.InBl? <==> r.bl.BlByGc?)
    && (forall u | u in InTransit(r.gc) :: u in r.h && u != NULL && r.h[u].prev == NULL)
    && (r.gc.InBl? || r.gc.NeedFree? || r.gc.InFree? || r.gc.BlackRead? ==> r.c.gray == NULL)
    && (r.gc.NeedFree? || r.gc.InFree? || r.gc.BlackRead? ==>
          r.s.main != [] && r.h[r.gc.u].next == r.s.main[0])
    && (r.gc.BlackRead? ==> r.c.black in r.h && r.gc.colour == r.h[r.c.black].colour)
    && (GrayLags(r.gc) ==> r.s.main != [] && r.gc.u == r.s.main[0])
    && (r.gc.ColourRead? ==> r.gc.u in r.h && r.gc.link == r.h[r.gc.u].prev)
    && (r.gc.Linked_? || r.gc.ColourRead? ==> r.gc.u in r.h && r.h[r.gc.u].colour == r.unmarked)
    && (r.gc.ScanRead? || r.gc.ScanWritten? ==> 0 < r.s.grays <= |r.s.main| && r.gc.p == r.s.main[r.s.grays - 1])
    && (r.gc.ScanRead? ==> r.gc.p in r.h && r.gc.link == r.h[r.gc.p].prev)
    && (r.gc.ScanWritten? ==> r.gc.p in r.h && r.h[r.gc.p].colour == r.marked)
  }

  /** A popped object is still being coloured and classed. */
  predicate InFlight(f: FreeLock) {
    f.By? && (f.pc.Popped? || f.pc.PrevRead? || f.pc.Coloured_? || f.pc.NextRead?)
  }

  /** The registers and locks of the mutator inside free_lock. */
  ghost predicate MutatorOk(r: Race) {
    && (r.free.By? && (r.free.pc.FreshInBl? || r.free.pc.LastRead?) <==> r.bl.BlByMutator?)
    && (InFlight(r.free) ==>
          0 < r.s.retained <= |r.s.main| && r.free.pc.p == r.s.main[r.s.retained - 1] && r.s.grays < r.s.retained)
    && (InFlight(r.free) && r.c.gray != NULL ==> r.s.retained > 1)
    && (r.free.By? && (r.free.pc.Popped? || r.free.pc.PrevRead?) ==>
          r.free.pc.p in r.h && r.h[r.free.pc.p].colour == Green)
    && (r.free.By? && r.free.pc.PrevRead? ==> r.free.pc.p in r.h && r.free.pc.link == r.h[r.free.pc.p].prev)
    && (r.free.By? && r.free.pc.NextRead? ==> r.free.pc.p in r.h && r.free.pc.link == r.h[r.free.pc.p].next)
    && (r.free.By? && (r.free.pc.Fresh? || r.free.pc.FreshInBl? || r.free.pc.LastRead?) ==>
          FreshOf(r.free) != [] && r.s.retained == |r.s.main|)
    && (r.free.By? && r.free.pc.LastRead? ==> r.c.last in r.h && r.free.pc.class_ == r.h[r.c.last].class_)
  }

  ghost predicate RInv(r: Race) {
    && Generation(r.marked) && Generation(r.unmarked) && r.marked != r.unmarked
    && Cover(r) && Chains(r) && ColoursOk(r) && PointersOk(r) && GcOk(r) && MutatorOk(r) && ClassesKept(r)
  }

  /** At rest the invariant is the group invariant. */
  lemma AtRestGood(r: Race)
    requires RInv(r) && AtRest(r)
    ensures Good(r.h, r.c, r.s, r.marked, r.unmarked)
  {
    forall i: nat | i < |r.s.main| ensures ColourAt(Colouring(r.h), r.s, r.marked, i) { assert ColourOk(r, i); }
  }

  lemma GoodAtRest(r: Race)
    requires Good(r.h, r.c, r.s, r.marked, r.unmarked) && AtRest(r) && ClassesKept(r)
    ensures RInv(r)
  {
    forall i: nat | i < |r.s.main| ensures ColourOk(r, i) { assert ColourAt(Colouring(r.h), r.s, r.marked, i); }
  }

  // ---------------------------------------------------------------- steps that move registers only

  /** No header, pointer or shape changes, and no colour that was on its way arrives. */
  ghost predicate Quiet(r: Race, t: Race) {
    && t.h == r.h && t.c == r.c && t.s == r.s && t.classes == r.classes
    && t.marked == r.marked && t.unmarked == r.unmarked
    && InTransit(t.gc) == InTransit(r.gc) && FreshOf(t.free) == FreshOf(r.free)
    && (t.free.By? && t.free.pc.LastRead? <==> r.free.By? && r.free.pc.LastRead?)
    && (forall p :: Late(r, p) ==> Late(t, p))
    && (GrayLags(t.gc) <==> GrayLags(r.gc))
  }

  lemma QuietKeeps(r: Race, t: Race)
    requires RInv(r) && Quiet(r, t) && GcOk(t) && MutatorOk(t)
    ensures RInv(t)
  {
    forall i: nat | i < |t.s.main| ensures ColourOk(t, i) { assert ColourOk(r, i); }
  }

  predicate Register(st: Step) {
    st.LockBl? || st.LockFree? || st.ReadBlack? || st.ReadColour? || st.Lock? || st.ReadPrev? || st.ReadNext? ||
    st.LockBlToo?
  }

  lemma KeepRegister(r: Race, st: Step)
    requires RInv(r) && Enabled(r, st) && Register(st)
    ensures RInv(After(r, st))
  {
    RegisterOk(r, st);
    QuietKeeps(r, After(r, st));
  }

  lemma RegisterOk(r: Race, st: Step)
    requires PointersOk(r) && GcOk(r) && MutatorOk(r) && Enabled(r, st) && Register(st)
    ensures Quiet(r, After(r, st)) && GcOk(After(r, st)) && MutatorOk(After(r, st))
  {
    if st.LockBl? || st.LockFree? || st.ReadBlack? || st.ReadColour? {
      assert MutatorOk(After(r, st));
      CollectorRegister(r, st);
    } else {
      assert GcOk(After(r, st));
    }
  }

  lemma CollectorRegister(r: Race, st: Step)
    requires PointersOk(r) && GcOk(r) && Enabled(r, st)
    requires st.LockBl? || st.LockFree? || st.ReadBlack? || st.ReadColour?
    ensures GcOk(After(r, st))
  {}

  // ---------------------------------------------------------------- where the pointers lead

  /** What the black pointer, the cursor and free stand for. */
  lemma Places(r: Race)
    requires RInv(r)
    ensures r.c.black == NULL <==> r.s.main == []
    ensures r.c.last == NULL <==> r.s.main == []
    ensures r.c.gray == NULL && !GrayLags(r.gc) ==> r.c.black == At(r.s.main, 0)
    ensures r.gc.Rest? ==> Cursor(r) == At(r.s.main, r.s.grays - 1)
    ensures r.s.grays > 0 ==> r.s.main[r.s.grays - 1] in r.h && r.s.main[r.s.grays - 1] != NULL
    ensures forall p | p in r.h :: p != NULL
  {
    ChainMembers(r.h, r.s.main);
    ChainMembers(r.h, r.s.whites);
    FreshMembers(r);
    if r.s.main != [] {
      assert LinkAt(r.h, r.s.main, 0) && ColourOk(r, 0) && LinkAt(r.h, r.s.main, |r.s.main| - 1);
      if r.s.grays > 0 { assert LinkAt(r.h, r.s.main, r.s.grays - 1) && ColourOk(r, r.s.grays - 1); }
      if r.s.grays < |r.s.main| { assert LinkAt(r.h, r.s.main, r.s.grays) && ColourOk(r, r.s.grays); }
    }
  }

  lemma FreshMembers(r: Race)
    requires Chains(r)
    ensures forall p | p in FreshOf(r.free) :: p in r.h && p != NULL
  {
    if r.free.By? && r.free.pc.LastRead? {
      ChainMembers(SetPrev(r.h, FreshOf(r.free)[0], NULL), FreshOf(r.free));
    } else {
      ChainMembers(r.h, FreshOf(r.free));
    }
  }

  lemma KeepReadScan(r: Race)
    requires RInv(r) && Enabled(r, ReadScan)
    ensures RInv(After(r, ReadScan))
  {
    Places(r);
    assert r.s.grays > 0;
    QuietKeeps(r, After(r, ReadScan));
  }

  lemma KeepSetGray(r: Race)
    requires RInv(r) && Enabled(r, SetGray)
    ensures RInv(After(r, SetGray))
  {
    var t := After(r, SetGray);
    Places(r);
    assert LinkAt(r.h, r.s.main, 0);
    forall i: nat | i < |t.s.main| ensures ColourOk(t, i) { assert ColourOk(r, i); }
  }

  lemma KeepSetBlack(r: Race)
    requires RInv(r) && Enabled(r, SetBlack)
    ensures RInv(After(r, SetBlack))
  {
    var t := After(r, SetBlack);
    forall i: nat | i < |t.s.main| ensures ColourOk(t, i) { assert ColourOk(r, i); }
  }

  lemma KeepPop(r: Race)
    requires RInv(r) && Enabled(r, Pop)
    ensures RInv(After(r, Pop))
  {
    var t := After(r, Pop);
    Places(r);
    assert r.s.retained < |r.s.main|;
    assert LinkAt(r.h, r.s.main, r.s.retained) && ColourOk(r, r.s.retained);
    forall i: nat | i < |t.s.main| ensures ColourOk(t, i) { assert ColourOk(r, i); }
    BlackPop(r.c.black, r.s);
  }

  lemma BlackPop(black: int, s: Shape)
    requires s.grays <= s.retained < |s.main| && BlackPointer(black, s)
    ensures BlackPointer(black, s.(retained := s.retained + 1))
  {}

  // ---------------------------------------------------------------- steps that write one header's info bits

  /** One header's colour or class changes; its links are written back as they were. */
  ghost predicate Painted(r: Race, t: Race, p: int) {
    && t.c == r.c && t.s == r.s && t.marked == r.marked && t.unmarked == r.unmarked
    && InTransit(t.gc) == InTransit(r.gc) && FreshOf(t.free) == FreshOf(r.free)
    && (t.free.By? && t.free.pc.LastRead? <==> r.free.By? && r.free.pc.LastRead?)
    && p in r.s.main && p in r.h && p in t.h && t.h == r.h[p := t.h[p]]
    && t.h[p].prev == r.h[p].prev && t.h[p].next == r.h[p].next
  }

  lemma PaintedChains(r: Race, t: Race, p: int)
    requires Cover(r) && Chains(r) && Painted(r, t, p)
    ensures Cover(t) && Chains(t)
  {
    ChainFrame(r.h, t.h, r.s.main);
    ChainFrame(r.h, t.h, r.s.whites);
    if t.free.By? && t.free.pc.LastRead? {
      var b := FreshOf(r.free)[0];
      ChainFrame(SetPrev(r.h, b, NULL), SetPrev(t.h, b, NULL), FreshOf(r.free));
    } else {
      ChainFrame(r.h, t.h, FreshOf(r.free));
    }
  }

  lemma PaintedColours(r: Race, t: Race, p: int)
    requires Cover(r) && ColoursOk(r) && Painted(r, t, p)
    requires forall i: nat | i < |r.s.main| && r.s.main[i] == p :: Late(t, p) || t.h[p].colour == Due(t, i)
    requires forall q | q != p :: Late(r, q) ==> Late(t, q)
    ensures ColoursOk(t)
  {
    forall i: nat | i < |t.s.main| ensures ColourOk(t, i) { assert ColourOk(r, i); }
  }

  lemma KeepWriteColour(r: Race)
    requires RInv(r) && Enabled(r, WriteColour)
    ensures RInv(After(r, WriteColour))
  {
    var t := After(r, WriteColour);
    PaintedChains(r, t, r.gc.u);
    PaintedColours(r, t, r.gc.u);
  }

  lemma KeepWriteScan(r: Race)
    requires RInv(r) && Enabled(r, WriteScan)
    ensures RInv(After(r, WriteScan))
  {
    var t := After(r, WriteScan);
    PaintedChains(r, t, r.gc.p);
    PaintedColours(r, t, r.gc.p);
  }

  lemma KeepWritePrev(r: Race)
    requires RInv(r) && Enabled(r, WritePrev)
    ensures RInv(After(r, WritePrev))
  {
    var t := After(r, WritePrev);
    PaintedChains(r, t, r.free.pc.p);
    PaintedColours(r, t, r.free.pc.p);
  }

  lemma KeepWriteNext(r: Race, class_: int)
    requires RInv(r) && Enabled(r, WriteNext(class_))
    ensures RInv(After(r, WriteNext(class_)))
  {
    var t := After(r, WriteNext(class_));
    PaintedChains(r, t, r.free.pc.p);
    forall i: nat | i < |t.s.main| ensures ColourOk(t, i) { assert ColourOk(r, i); }
  }

  // ---------------------------------------------------------------- out of the white chain

  lemma KeepBegin(r: Race, k: nat)
    requires RInv(r) && Enabled(r, Begin(k))
    ensures RInv(After(r, Begin(k)))
  {
    var t := After(r, Begin(k));
    BeginChains(r, k);
    BeginPointers(r, k);
    BeginRegisters(r, k);
    hide Chains, PointersOk, GcOk, MutatorOk;
    forall i: nat | i < |t.s.main| ensures ColourOk(t, i) { assert ColourOk(r, i) && r.s.main[i] in r.s.main; }
  }

  /** Unlinking a white header touches white headers only, and only their links. */
  lemma BeginChains(r: Race, k: nat)
    requires Cover(r) && Chains(r) && Enabled(r, Begin(k)) && ColoursOk(r)
    ensures Cover(After(r, Begin(k))) && Chains(After(r, Begin(k)))
    ensures SameInfo(r.h, After(r, Begin(k)).h)
    ensures forall p | p in r.h && p !in r.s.whites :: After(r, Begin(k)).h[p] == r.h[p]
  {
    var u := r.s.whites[k];
    var h1 := Unlink(r.h, u);
    var t := After(r, Begin(k));
    var ws := Drop(r.s.whites, k);
    ChainUnlink(r.h, r.s.whites, k);
    DropMembers(r.s.whites, k);
    assert u in r.s.whites;
    ChainFrame(r.h, t.h, r.s.main);
    ChainFrame(h1, t.h, ws);
    FreshMembers(r);
    if r.free.By? && r.free.pc.LastRead? {
      var b := FreshOf(r.free)[0];
      ChainFrame(SetPrev(r.h, b, NULL), SetPrev(t.h, b, NULL), FreshOf(r.free));
    } else {
      ChainFrame(r.h, t.h, FreshOf(r.free));
    }
  }

  lemma BeginRegisters(r: Race, k: nat)
    requires Cover(r) && PointersOk(r) && GcOk(r) && MutatorOk(r) && ClassesKept(r) && Enabled(r, Begin(k))
    requires SameInfo(r.h, After(r, Begin(k)).h)
    requires forall p | p in r.h && p !in r.s.whites :: After(r, Begin(k)).h[p] == r.h[p]
    ensures GcOk(After(r, Begin(k))) && MutatorOk(After(r, Begin(k))) && ClassesKept(After(r, Begin(k)))
  {
    assert forall i | 0 <= i < |r.s.main| :: r.s.main[i] in r.s.main;
  }

  lemma BeginPointers(r: Race, k: nat)
    requires Chain(r.h, r.s.whites) && PointersOk(r) && Enabled(r, Begin(k))
    ensures PointersOk(After(r, Begin(k)))
  {
    assert LinkAt(r.h, r.s.whites, k) && LinkAt(r.h, r.s.whites, 0);
  }

  // ---------------------------------------------------------------- onto the main chain

  /** The collector links u in front of the main chain; every colour stays as it was. */
  ghost predicate PushedOn(r: Race, t: Race, u: int) {
    && t.s == PushHead(r.s, u) && t.marked == r.marked && t.unmarked == r.unmarked && t.classes == r.classes
    && InTransit(r.gc) == {u} && t.gc == Linked_(u) && FreshOf(t.free) == FreshOf(r.free)
    && (t.free.By? && t.free.pc.LastRead? <==> r.free.By? && r.free.pc.LastRead?)
    && SameInfo(r.h, t.h) && u in r.h && u != NULL
    && t.h[u].prev == NULL && t.h[u].next == At(r.s.main, 0)
    && (r.s.main != [] ==> r.s.main[0] in r.h && t.h[r.s.main[0]] == r.h[r.s.main[0]].(prev := u))
    && (forall p | p in r.h && p != u && (r.s.main == [] || p != r.s.main[0]) :: t.h[p] == r.h[p])
    && t.c.white == r.c.white && t.c.last == (if r.s.main == [] then u else r.c.last)
  }

  lemma PushedChains(r: Race, t: Race, u: int)
    requires Cover(r) && Chains(r) && PushedOn(r, t, u) && (r.free.By? && r.free.pc.LastRead? ==> r.s.main != [])
    ensures Cover(t) && Chains(t)
  {
    assert r.s.main != [] ==> r.s.main[0] in r.s.main;
    forall i | 0 <= i < |r.s.main| ensures r.s.main[i] in t.h && r.s.main[i] in r.h { assert LinkAt(r.h, r.s.main, i); }
    ChainPush(r.h, t.h, r.s.main, u);
    ChainMembers(r.h, r.s.whites);
    ChainFrame(r.h, t.h, r.s.whites);
    FreshMembers(r);
    if r.free.By? && r.free.pc.LastRead? {
      var b := FreshOf(r.free)[0];
      ChainFrame(SetPrev(r.h, b, NULL), SetPrev(t.h, b, NULL), FreshOf(r.free));
    } else {
      ChainFrame(r.h, t.h, FreshOf(r.free));
    }
  }

  lemma PushedColours(r: Race, t: Race, u: int)
    requires Cover(r) && ColoursOk(r) && PushedOn(r, t, u)
    requires forall q | q != u :: Late(r, q) ==> Late(t, q)
    ensures ColoursOk(t)
  {
    forall i: nat | i < |t.s.main| ensures ColourOk(t, i) {
      if i > 0 { assert ColourOk(r, i - 1) && r.s.main[i - 1] in r.s.main && t.s.main[i] == r.s.main[i - 1]; }
    }
  }

  lemma PushedRegisters(r: Race, t: Race, u: int)
    requires Cover(r) && PointersOk(r) && GcOk(r) && MutatorOk(r) && PushedOn(r, t, u)
    requires t.free == r.free && t.c.gray == r.c.gray
    requires InFlight(r.free) ==> r.s.main[0] != r.free.pc.p
    requires r.free.By? && r.free.pc.LastRead? ==> r.s.main != []
    requires r.bl.BlByGc? ==> t.bl.BlOpen?
    requires !r.bl.BlByGc? ==> t.bl == r.bl
    ensures MutatorOk(t)
  {
    assert forall i | 0 <= i < |r.s.main| :: r.s.main[i] in r.s.main && t.s.main[i + 1] == r.s.main[i];
  }

  lemma KeepLinkToGray(r: Race)
    requires RInv(r) && Enabled(r, LinkToGray)
    ensures RInv(After(r, LinkToGray))
  {
    var t := After(r, LinkToGray);
    var u := r.gc.u;
    Places(r);
    assert u in InTransit(r.gc) && r.s.main[0] in r.s.main;
    PushedChains(r, t, u);
    PushedColours(r, t, u);
    PushedRegisters(r, t, u);
    LinkToGrayPointers(r);
  }

  lemma LinkToGrayPointers(r: Race)
    requires PointersOk(r) && Enabled(r, LinkToGray)
    ensures PointersOk(After(r, LinkToGray))
  {}

  lemma KeepLinkToBlack(r: Race)
    requires RInv(r) && Enabled(r, LinkToBlack)
    ensures RInv(After(r, LinkToBlack))
  {
    var t := After(r, LinkToBlack);
    var u := r.gc.u;
    Places(r);
    assert u in InTransit(r.gc);
    if r.c.black == NULL {
      PushedChains(r, t, u);
      PushedColours(r, t, u);
      PushedRegisters(r, t, u);
    } else {
      TransitFrame(r, t, u);
      forall i: nat | i < |t.s.main| ensures ColourOk(t, i) { assert ColourOk(r, i) && r.s.main[i] in r.s.main; }
      assert r.s.main[0] in r.s.main;
    }
  }

  /** Writing the links of an object in transit disturbs no chain. */
  lemma TransitFrame(r: Race, t: Race, u: int)
    requires Cover(r) && Chains(r) && InTransit(r.gc) == {u} == InTransit(t.gc) && t.s == r.s && t.free == r.free
    requires t.c.last == r.c.last
    requires u in r.h && t.h.Keys == r.h.Keys && forall p | p in r.h && p != u :: t.h[p] == r.h[p]
    ensures Cover(t) && Chains(t)
  {
    ChainMembers(r.h, r.s.main);
    ChainMembers(r.h, r.s.whites);
    FreshMembers(r);
    ChainFrame(r.h, t.h, r.s.main);
    ChainFrame(r.h, t.h, r.s.whites);
    if r.free.By? && r.free.pc.LastRead? {
      var b := FreshOf(r.free)[0];
      ChainFrame(SetPrev(r.h, b, NULL), SetPrev(t.h, b, NULL), FreshOf(r.free));
    } else {
      ChainFrame(r.h, t.h, FreshOf(r.free));
    }
  }

  lemma KeepWriteBlack(r: Race)
    requires RInv(r) && Enabled(r, WriteBlack)
    ensures RInv(After(r, WriteBlack))
  {
    var t := After(r, WriteBlack);
    var u := r.gc.u;
    Places(r);
    assert u in InTransit(r.gc) && r.s.main[0] in r.s.main;
    PushedChains(r, t, u);
    PushedColours(r, t, u);
  }

  // ---------------------------------------------------------------- fresh blocks

  lemma KeepLayOut(r: Race, g: Memory, blocks: seq<int>)
    requires RInv(r) && Enabled(r, LayOut(g, blocks))
    ensures RInv(After(r, LayOut(g, blocks)))
  {
    var t := After(r, LayOut(g, blocks));
    assert r.s.retained < |r.s.main| ==> LinkAt(r.h, r.s.main, r.s.retained);
    ChainMembers(r.h, r.s.main);
    ChainMembers(r.h, r.s.whites);
    ChainFrame(r.h, g, r.s.main);
    ChainFrame(r.h, g, r.s.whites);
    forall i: nat | i < |t.s.main| ensures ColourOk(t, i) { assert ColourOk(r, i) && r.s.main[i] in r.s.main; }
  }

  lemma KeepLinkFresh(r: Race)
    requires RInv(r) && Enabled(r, LinkFresh)
    ensures RInv(After(r, LinkFresh))
  {
    Places(r);
    if r.c.last == NULL { LinkFreshFirst(r); } else { LinkFreshBack(r); }
  }

  lemma LinkFreshFirst(r: Race)
    requires RInv(r) && Enabled(r, LinkFresh) && r.c.last == NULL && r.s.main == []
    ensures RInv(After(r, LinkFresh))
  {
    FirstChains(r);
    FirstColours(r);
    FirstPointers(r);
    FirstRegisters(r);
  }

  lemma FirstChains(r: Race)
    requires Cover(r) && Chains(r) && Enabled(r, LinkFresh) && r.c.last == NULL && r.s.main == []
    ensures Cover(After(r, LinkFresh)) && Chains(After(r, LinkFresh))
  {
    assert After(r, LinkFresh).s.main == r.free.pc.blocks;
  }

  lemma FirstColours(r: Race)
    requires ColoursOk(r) && MutatorOk(r) && PointersOk(r) && Enabled(r, LinkFresh) && r.c.last == NULL
    requires r.s.main == []
    ensures ColoursOk(After(r, LinkFresh))
  {
    var t := After(r, LinkFresh);
    var blocks := r.free.pc.blocks;
    assert t.s.main == blocks;
    forall i: nat | i < |t.s.main| ensures ColourOk(t, i) { assert blocks[i] in FreshOf(r.free); }
  }

  lemma FirstPointers(r: Race)
    requires PointersOk(r) && MutatorOk(r) && GcOk(r) && Enabled(r, LinkFresh) && r.c.last == NULL && r.s.main == []
    ensures PointersOk(After(r, LinkFresh))
  {
    assert After(r, LinkFresh).s.main == r.free.pc.blocks;
  }

  lemma FirstRegisters(r: Race)
    requires GcOk(r) && MutatorOk(r) && ClassesKept(r) && PointersOk(r) && Enabled(r, LinkFresh) && r.c.last == NULL
    requires r.s.main == []
    ensures GcOk(After(r, LinkFresh)) && MutatorOk(After(r, LinkFresh)) && ClassesKept(After(r, LinkFresh))
  {
    assert After(r, LinkFresh).s.main == r.free.pc.blocks;
  }

  lemma LinkFreshBack(r: Race)
    requires RInv(r) && Enabled(r, LinkFresh) && r.c.last != NULL
    ensures RInv(After(r, LinkFresh))
  {
    var t := After(r, LinkFresh);
    var blocks := r.free.pc.blocks;
    assert blocks[0] in FreshOf(r.free);
    BackLinkChains(r, t, blocks);
    forall i: nat | i < |t.s.main| ensures ColourOk(t, i) { assert ColourOk(r, i) && r.s.main[i] in r.s.main; }
    BackLinkRegisters(r, t, blocks);
  }

  lemma BackLinkChains(r: Race, t: Race, blocks: seq<int>)
    requires Cover(r) && Chains(r) && blocks != [] && FreshOf(r.free) == blocks && !(r.free.By? && r.free.pc.LastRead?)
    requires blocks[0] in r.h && t.h == SetPrev(r.h, blocks[0], r.c.last) && t.s == r.s && t.gc == r.gc
    requires t.c.last == r.c.last
    requires t.free.By? && t.free.pc.LastRead? && t.free.pc.blocks == blocks
    ensures Cover(t) && Chains(t)
  {
    ChainMembers(r.h, r.s.main);
    ChainMembers(r.h, r.s.whites);
    assert blocks[0] in blocks && LinkAt(r.h, blocks, 0);
    ChainFrame(r.h, t.h, r.s.main);
    ChainFrame(r.h, t.h, r.s.whites);
    assert SetPrev(t.h, blocks[0], NULL) == r.h;
  }

  lemma BackLinkRegisters(r: Race, t: Race, blocks: seq<int>)
    requires Cover(r) && GcOk(r) && blocks != [] && FreshOf(r.free) == blocks && blocks[0] in blocks
    requires r.bl.BlByMutator?
    requires r.s.grays <= |r.s.main| && (r.s.main != [] ==> r.s.main[0] in r.s.main)
    requires BlackPointer(r.c.black, r.s)
    requires blocks[0] in r.h && t.h == SetPrev(r.h, blocks[0], r.c.last) && t.s == r.s && t.gc == r.gc && t.bl == r.bl
    requires t.c == r.c.(free := blocks[0]) && r.free.By? && t.free.By? && t.marked == r.marked
    requires t.unmarked == r.unmarked
    ensures GcOk(t)
  {
    assert forall i | 0 <= i < |r.s.main| :: r.s.main[i] in r.s.main;
  }

  lemma KeepLinkLast(r: Race)
    requires RInv(r) && Enabled(r, LinkLast)
    ensures RInv(After(r, LinkLast))
  {
    Places(r);
    LinkLastChains(r);
    LinkLastColours(r);
    LinkLastPointers(r);
    LinkLastRegisters(r);
  }

  lemma LinkLastPointers(r: Race)
    requires PointersOk(r) && MutatorOk(r) && Enabled(r, LinkLast) && r.s.main != []
    ensures PointersOk(After(r, LinkLast))
  {}

  lemma LinkLastRegisters(r: Race)
    requires Cover(r) && PointersOk(r) && GcOk(r) && MutatorOk(r) && ClassesKept(r) && Enabled(r, LinkLast)
    requires r.s.main != []
    ensures GcOk(After(r, LinkLast)) && MutatorOk(After(r, LinkLast)) && ClassesKept(After(r, LinkLast))
  {
    assert r.s.main[|r.s.main| - 1] in r.s.main;
  }

  lemma LinkLastChains(r: Race)
    requires RInv(r) && Enabled(r, LinkLast)
    ensures Cover(After(r, LinkLast)) && Chains(After(r, LinkLast))
  {
    var t := After(r, LinkLast);
    var blocks := r.free.pc.blocks;
    var h0 := SetPrev(r.h, blocks[0], NULL);
    Places(r);
    FreshMembers(r);
    ChainMembers(r.h, r.s.main);
    ChainMembers(r.h, r.s.whites);
    assert blocks[0] in FreshOf(r.free);
    ChainFrame(r.h, h0, r.s.main);
    ChainJoin(h0, t.h, r.s.main, blocks);
    ChainFrame(r.h, t.h, r.s.whites);
  }

  lemma LinkLastColours(r: Race)
    requires RInv(r) && Enabled(r, LinkLast)
    ensures ColoursOk(After(r, LinkLast))
  {
    var t := After(r, LinkLast);
    forall i: nat | i < |t.s.main| ensures ColourOk(t, i) {
      if i < |r.s.main| { assert ColourOk(r, i); } else { assert t.s.main[i] in FreshOf(r.free); }
    }
  }

  // ---------------------------------------------------------------- every interleaving

  lemma KeepStep(r: Race, st: Step)
    requires RInv(r) && Enabled(r, st)
    ensures RInv(After(r, st))
  {
    hide RInv, Enabled, After;
    match st
    case Begin(k) => KeepBegin(r, k);
    case LinkToGray => KeepLinkToGray(r);
    case LinkToBlack => KeepLinkToBlack(r);
    case WriteBlack => KeepWriteBlack(r);
    case WriteColour => KeepWriteColour(r);
    case SetGray => KeepSetGray(r);
    case ReadScan => KeepReadScan(r);
    case WriteScan => KeepWriteScan(r);
    case SetBlack => KeepSetBlack(r);
    case Pop => KeepPop(r);
    case WritePrev => KeepWritePrev(r);
    case WriteNext(class_) => KeepWriteNext(r, class_);
    case LayOut(g, blocks) => KeepLayOut(r, g, blocks);
    case LinkFresh => KeepLinkFresh(r);
    case LinkLast => KeepLinkLast(r);
    case _ => KeepRegister(r, st);
  }

  lemma {:induction false} RaceInvariant(run: seq<Race>, k: nat)
    requires Run(run) && k < |run|
    ensures RInv(run[k])
  {
    hide RInv, Good, ClassesKept, Enabled, After;
    if k == 0 {
      GoodAtRest(run[0]);
    } else {
      RaceInvariant(run, k - 1);
      assert StepAt(run, k - 1);
      var st :| Enabled(run[k - 1], st) && run[k] == After(run[k - 1], st);
      KeepStep(run[k - 1], st);
    }
  }

  /**
   However the critical sections interleave, whenever nothing is under way the group is
   good: both chains intact, every colour in its place, and no storage class lost.
   */
  lemma RacesAreHarmless(run: seq<Race>, k: nat)
    requires Run(run) && k < |run| && AtRest(run[k])
    ensures Good(run[k].h, run[k].c, run[k].s, run[k].marked, run[k].unmarked) && ClassesKept(run[k])
  {
    RaceInvariant(run, k);
    AtRestGood(run[k]);
  }

  /** The two assertions inside RTmake_object_gray never fail, whatever the mutators are doing. */
  lemma GrayingAssertions(run: seq<Race>, k: nat)
    requires Run(run) && k < |run|
    ensures run[k].gc.InBl? && run[k].c.black == NULL ==> run[k].c.free == NULL
    ensures run[k].gc.Linked_? ==> run[k].gc.u in run[k].h && run[k].h[run[k].gc.u].colour == run[k].unmarked
  {
    RaceInvariant(run, k);
    Places(run[k]);
  }

  // ---------------------------------------------------------------- why the collector takes free_lock

  /** The system in which the collector writes black's prev word without free_lock. */
  ghost predicate UnlockedEnabled(r: Race, st: Step) {
    if st.LockFree? then r.gc.NeedFree? else Enabled(r, st)
  }

  ghost function UnlockedAfter(r: Race, st: Step): Race
    requires UnlockedEnabled(r, st)
  {
    if st.LockFree? then r.(gc := InFree(r.gc.u))
    else if st.WriteBlack? then After(r, st).(free := r.free)
    else After(r, st)
  }

  ghost predicate UnlockedNext(r: Race, t: Race) { exists st :: UnlockedEnabled(r, st) && t == UnlockedAfter(r, st) }

  ghost predicate UnlockedAt(run: seq<Race>, k: nat)
    requires k + 1 < |run|
  {
    UnlockedNext(run[k], run[k + 1])
  }

  /** It starts like the system with the lock. */
  ghost predicate UnlockedRun(run: seq<Race>) {
    run != [] && Run([run[0]]) && forall k: nat | k + 1 < |run| :: UnlockedAt(run, k)
  }

  lemma GrowUnlocked(run: seq<Race>, st: Step, t: Race) returns (more: seq<Race>)
    requires UnlockedRun(run) && UnlockedEnabled(run[|run| - 1], st) && t == UnlockedAfter(run[|run| - 1], st)
    ensures UnlockedRun(more) && more[|more| - 1] == t
  {
    more := run + [t];
    assert UnlockedNext(run[|run| - 1], t);
    hide UnlockedNext, Run, UnlockedEnabled, UnlockedAfter;
    forall k: nat | k + 1 < |more| ensures UnlockedAt(more, k) {
      if k + 1 < |run| { assert UnlockedAt(run, k); }
    }
  }

  /** A group of two headers: 0 in the main chain, 4 in the white chain or on its way. */
  function Pair(h0: Header, h4: Header, c: Cut, gc: Gc, free: FreeLock, bl: BlLock, s: Shape,
                classes: map<int, int>): Race {
    Race(map[0 := h0, 4 := h4], c, gc, free, bl, Gen1, Gen0, s, classes)
  }

  /** Header 0 is free, header 4 is white, nothing is under way. */
  function PairAtRest(): Race {
    Pair(Header(NULL, NULL, Green, 0), Header(NULL, NULL, Gen0, 0), Cut(NULL, 0, 0, 0, 4),
         Rest, Open, BlOpen, Shape([0], 0, 0, [4]), map[])
  }

  lemma PairIsGood()
    ensures Run([PairAtRest()])
  {
    var r := PairAtRest();
    assert LinkAt(r.h, [0], 0) && LinkAt(r.h, [4], 0);
    assert Chain(r.h, [0]) && Chain(r.h, [4]);
    assert ColourAt(Colouring(r.h), r.s, Gen1, 0);
  }

  /** The collector has linked 4 in front of 0 and is about to link 0 back to it. */
  function PairNeedsFree(): Race {
    Pair(Header(NULL, NULL, Green, 0), Header(NULL, 0, Gen0, 0), Cut(NULL, 0, 0, 0, NULL),
         NeedFree(4), Open, BlOpen, Shape([0], 0, 0, []), map[])
  }

  lemma CollectorLinks() returns (run: seq<Race>)
    ensures UnlockedRun(run) && run[|run| - 1] == PairNeedsFree()
  {
    PairIsGood();
    hide UnlockedRun, Run;
    run := [PairAtRest()];
    assert UnlockedRun(run) by { OneState(PairAtRest()); }
    var a := Pair(Header(NULL, NULL, Green, 0), Header(NULL, NULL, Gen0, 0), Cut(NULL, 0, 0, 0, NULL),
                  Unlinked(4), Open, BlOpen, Shape([0], 0, 0, []), map[]);
    Unlinks(a);
    run := GrowUnlocked(run, Begin(0), a);
    var b := a.(gc := InBl(4), bl := BlByGc);
    run := GrowUnlocked(run, LockBl, b);
    assert b.h[4 := Header(NULL, 0, Gen0, 0)] == PairNeedsFree().h;
    run := GrowUnlocked(run, LinkToBlack, PairNeedsFree());
  }

  lemma OneState(r: Race)
    requires Run([r])
    ensures UnlockedRun([r])
  {}

  lemma Unlinks(a: Race)
    requires a == PairAtRest().(c := Cut(NULL, 0, 0, 0, NULL), gc := Unlinked(4), s := Shape([0], 0, 0, []))
    ensures UnlockedEnabled(PairAtRest(), Begin(0)) && UnlockedAfter(PairAtRest(), Begin(0)) == a
  {
    assert SetPrev(Unlink(a.h, 4), 4, NULL) == a.h;
    assert Drop([4], 0) == [];
  }

  /** A mutator has popped 0 and read its prev word; the collector has read that word too. */
  function PairBothRead(): Race {
    PairNeedsFree().(c := Cut(NULL, 0, NULL, 0, NULL), gc := BlackRead(4, Green), free := By(0, PrevRead(0, NULL)),
                     s := Shape([0], 0, 1, []))
  }

  lemma BothRead() returns (run: seq<Race>)
    ensures UnlockedRun(run) && run[|run| - 1] == PairBothRead()
  {
    run := CollectorLinks();
    hide UnlockedRun, Run;
    var r := PairNeedsFree();
    var a := r.(free := By(0, Holding));
    run := GrowUnlocked(run, Lock(0), a);
    var b := r.(c := Cut(NULL, 0, NULL, 0, NULL), free := By(0, Popped(0)), s := Shape([0], 0, 1, []));
    run := GrowUnlocked(run, Pop, b);
    var c := b.(free := By(0, PrevRead(0, NULL)));
    run := GrowUnlocked(run, ReadPrev, c);
    var d := c.(gc := InFree(4));
    run := GrowUnlocked(run, LockFree, d);
    run := GrowUnlocked(run, ReadBlack, PairBothRead());
  }

  /** The mutator has coloured 0, and the collector has written back the green it had read. */
  function PairUndone(): Race {
    Pair(Header(4, NULL, Green, 0), Header(NULL, 0, Gen0, 0), Cut(NULL, 0, NULL, 0, NULL),
         Linked_(4), By(0, Coloured_(0)), BlOpen, Shape([4, 0], 1, 2, []), map[])
  }

  lemma Undone() returns (run: seq<Race>)
    ensures UnlockedRun(run) && run[|run| - 1] == PairUndone()
  {
    run := BothRead();
    hide UnlockedRun, Run;
    var r := PairBothRead();
    var a := r.(h := map[0 := Header(NULL, NULL, Gen1, 0), 4 := Header(NULL, 0, Gen0, 0)], free := By(0, Coloured_(0)));
    assert r.h[0 := Header(NULL, NULL, Gen1, 0)] == a.h;
    run := GrowUnlocked(run, WritePrev, a);
    assert a.h[0 := Header(4, NULL, Green, 0)] == PairUndone().h;
    assert [4] + [0] == [4, 0];
    run := GrowUnlocked(run, WriteBlack, PairUndone());
  }

  /** Both have finished. */
  function PairLost(): Race {
    Pair(Header(4, NULL, Green, 0), Header(NULL, 0, Gray, 0), Cut(4, 0, NULL, 0, NULL),
         Rest, Open, BlOpen, Shape([4, 0], 1, 2, []), map[0 := 0])
  }

  lemma BothFinish() returns (run: seq<Race>)
    ensures UnlockedRun(run) && run[|run| - 1] == PairLost()
  {
    run := Undone();
    hide UnlockedRun, Run;
    var r := PairUndone();
    var a := r.(gc := ColourRead(4, NULL));
    run := GrowUnlocked(run, ReadColour, a);
    var b := r.(h := PairLost().h, gc := Grayed_(4));
    assert a.h[4 := Header(NULL, 0, Gray, 0)] == b.h;
    run := GrowUnlocked(run, WriteColour, b);
    var c := b.(c := Cut(4, 0, NULL, 0, NULL), gc := Rest);
    run := GrowUnlocked(run, SetGray, c);
    run := MutatorFinishes(run);
  }

  lemma MutatorFinishes(run: seq<Race>) returns (more: seq<Race>)
    requires UnlockedRun(run) && run[|run| - 1] == PairLost().(free := By(0, Coloured_(0)), classes := map[])
    ensures UnlockedRun(more) && more[|more| - 1] == PairLost()
  {
    hide UnlockedRun, Run;
    var a := PairLost().(free := By(0, NextRead(0, NULL)), classes := map[]);
    more := GrowUnlocked(run, ReadNext, a);
    assert a.h[0 := Header(4, NULL, Green, 0)] == a.h;
    more := GrowUnlocked(more, WriteNext(0), PairLost());
  }

  /**
   Without the lock: the collector's read-modify-write undoes the colour RTallocate has
   just set, and when both have finished the group is not good, for an allocated object is
   green.
   */
  lemma WithoutFreeLockAColourIsLost() returns (run: seq<Race>)
    ensures UnlockedRun(run)
    ensures var r := run[|run| - 1];
            && AtRest(r) && !Good(r.h, r.c, r.s, r.marked, r.unmarked)
            && 1 < |r.s.main| && 1 < r.s.retained && r.s.main[1] == 0 && 0 in r.h && r.h[0].colour == Green
  {
    run := BothFinish();
    hide UnlockedRun, Good;
    LostIsNotGood();
  }

  lemma LostIsNotGood()
    ensures var r := PairLost(); !Good(r.h, r.c, r.s, r.marked, r.unmarked)
  {
    var r := PairLost();
    assert !ColourAt(Colouring(r.h), r.s, r.marked, 1);
  }
}
