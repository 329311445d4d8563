/**
 The collector over headers and page table, as runs.  Here the colours live in the headers
 of the groups and every operation is what the contract of its method says; every run from
 the empty heap is a run of the transition system that shows the same colours throughout.
 */
module Simulation {
  import opened Colours
  import opened Links
  import opened GroupList
  import opened Layout
  import opened Pages
  import opened PageTables
  import opened Refinement
  import I = ProtocolInvariant
  import P = Protocol
  import S = ProtocolSafety
  import T = ProtocolTraced
  import H = Heaps

  const BITS_PER_PAGE := BYTES_PER_PAGE / GRAIN

  /** Page table, headers by group, and the two colours. */
  datatype Memory = Memory(code: seq<int>, base: seq<int>, colours: H.Colourings, marked: Colour, unmarked: Colour)

  /** Memory, and the rest of the system's state: slots, bits, threads, collector.  The colours of rest are not used. */
  datatype Machine = Machine(mem: Memory, rest: P.State)

  /** The colour map the headers show. */
  function ColourMap(m: Memory): map<P.Obj, Colour> {
    map o: nat | o < |m.code| * BITS_PER_PAGE && Owner(m.colours, o) >= 0 :: m.colours[Owner(m.colours, o)][o * GRAIN]
  }

  /** The state of the transition system a machine state stands for. */
  function View(k: Machine): P.State {
    k.rest.(colour := ColourMap(k.mem), marked := k.mem.marked, unmarked := k.mem.unmarked)
  }

  /** The part of a state that is not in the headers. */
  function Rest(s: P.State): P.State { s.(colour := map[], marked := Gen0, unmarked := Gen1) }

  /** The headers are where the page table says, and every page has its bits. */
  ghost predicate InOrder(k: Machine) {
    && H.Keys(k.mem.code, k.mem.base, k.mem.colours) && k.rest.bitCount == |k.mem.code| * BITS_PER_PAGE
    && Generation(k.mem.marked) && Generation(k.mem.unmarked)
  }

  lemma MapShows(m: Memory)
    requires H.Keys(m.code, m.base, m.colours)
    ensures Shows(ColourMap(m), m.colours)
  {
    hide H.Keys, Painted, OneGroupEach, NoMore, Owner;
    HeadersApart(m.code, m.base, m.colours);
    OwnersPaint(m.code, m.base, m.colours, ColourMap(m));
    OwnersAreAll(m.colours, ColourMap(m).Keys);
  }

  /** Whatever shows the headers is the map they show. */
  lemma MapIs(m: Memory, colour: map<P.Obj, Colour>)
    requires H.Keys(m.code, m.base, m.colours) && Shows(colour, m.colours)
    ensures ColourMap(m) == colour
  {
    hide H.Keys, Shows, Owner;
    MapShows(m);
    ShowsOnlyOne(ColourMap(m), colour, m.colours);
  }

  lemma ViewRepresents(k: Machine)
    requires InOrder(k)
    ensures Represents(View(k), k.mem.colours, k.mem.marked, k.mem.unmarked)
  {
    MapShows(k.mem);
  }

  // ---------------------------------------------------------------- operations

  /** RTmake_object_gray after WHITEP, on the header of object o if there is one. */
  function Grays(m: Memory, o: P.Obj): Memory {
    var i := Owner(m.colours, o);
    if i >= 0 then m.(colours := m.colours[i := Shade(m.colours[i], m.unmarked, o * GRAIN)]) else m
  }

  /** The end of scan_object_with_group. */
  function Blackens(m: Memory, o: P.Obj): Memory {
    var i := Owner(m.colours, o);
    if i >= 0 then m.(colours := m.colours[i := Blacken(m.colours[i], m.marked, o * GRAIN)]) else m
  }

  /** RTallocate: from the free list, or from a block committed for it. */
  ghost predicate Allocates(m: Memory, m': Memory, c: int, block: int, new_: int) {
    && IsGroup(c) && |m.colours| == 20
    && m'.marked == m.marked && m'.unmarked == m.unmarked
    && H.Served(m.colours, m'.colours, block, c, new_, m.marked)
    && (if block == NULL then m'.code == m.code && m'.base == m.base
        else
          && EmptyRun(m.code, block, PagesPerBlock(c))
          && m'.code == Filled(m.code, block, PagesPerBlock(c), c)
          && m'.base == Filled(m.base, block, PagesPerBlock(c), block))
  }

  /** recycle_group_garbage. */
  function Recycles(m: Memory, i: nat): Memory
    requires i < |m.colours|
  {
    m.(colours := m.colours[i := Recycled(m.colours[i], m.unmarked)])
  }

  /** coalesce_all_free_pages. */
  ghost predicate Coalesces(m: Memory, m': Memory) {
    && m'.marked == m.marked && m'.unmarked == m.unmarked
    && H.Coalesced(m.code, m.base, m.colours, m'.code, m'.base, m'.colours)
  }

  function Swapped(m: Memory): Memory { m.(marked := m.unmarked, unmarked := m.marked) }

  // ---------------------------------------------------------------- the machine

  datatype Move =
    | Control(st: P.Step)                 // touches no header
    | GrayOne(st: P.Step)
    | ScanDone
    | Allocate(m: P.Mid, c: int, block: int, new_: int, body: map<nat, P.Ref>)
    | FlipAll(words: P.Words)
    | RecycleGroup(i: nat)
    | Coalesce

  /** Steps that leave every header alone. */
  predicate Plain(s: P.State, st: P.Step) {
    match st
    case Alloc(_, _, _) => false
    case Publish(_) => false
    case Flip(_) => false
    case TraceRoot(_) => false
    case TraceSlot => false
    case ShadeHit => false
    case SlotsDone => s.gc.ScanSlots? && s.gc.src.Null?
    case RecycleOne(_) => false
    case Unpublish(_) => false
    case _ => true
  }

  ghost predicate Moves(k: Machine, mv: Move, k': Machine) {
    var s := View(k);
    match mv
    case Control(st) => Plain(s, st) && P.Enabled(s, st) && k' == Machine(k.mem, Rest(P.After(s, st)))
    case GrayOne(st) =>
      Traces(st) && P.CanCollect(s, st) && k' == Machine(Grays(k.mem, T.Target(s, st)), Rest(P.AfterCollect(s, st)))
    case ScanDone =>
      P.CanCollect(s, P.SlotsDone) && s.gc.src.To? &&
      k' == Machine(Blackens(k.mem, s.gc.src.obj), Rest(P.AfterCollect(s, P.SlotsDone)))
    case Allocate(m, c, block, new_, body) =>
      && P.MutatorReady(s, m) && Allocates(k.mem, k'.mem, c, block, new_) && new_ >= 0
      && k'.rest == P.SetPc(k.rest, m, P.Clearing(ObjectOf(new_))).(heap := P.Refit(k.rest.heap, ObjectOf(new_), body))
    case FlipAll(words) =>
      P.CanCollect(s, P.Flip(words)) && k' == Machine(Swapped(k.mem), Rest(P.AfterCollect(s, P.Flip(words))))
    case RecycleGroup(i) => s.gc.Recycle? && i < |k.mem.colours| && k' == Machine(Recycles(k.mem, i), k.rest)
    case Coalesce => s.gc.Recycle? && Coalesces(k.mem, k'.mem) && k'.rest == k.rest
  }

  ghost predicate MachineNext(k: Machine, k': Machine) { exists mv :: Moves(k, mv, k') }

  /** The empty heap: all pages empty, no headers. */
  ghost predicate MachineInit(k: Machine) {
    && |k.mem.code| == |k.mem.base| && |k.mem.colours| == 20
    && (forall p | 0 <= p < |k.mem.code| :: k.mem.code[p] == EMPTY_PAGE)
    && (forall i | 0 <= i < 20 :: k.mem.colours[i] == map[])
    && k.mem.marked == Gen0 && k.mem.unmarked == Gen1
    && k.rest.bitCount == |k.mem.code| * BITS_PER_PAGE && P.Init(View(k))
  }

  ghost predicate MachineAt(ks: seq<Machine>, j: nat)
    requires j + 1 < |ks|
  {
    MachineNext(ks[j], ks[j + 1])
  }

  ghost predicate MachineRun(ks: seq<Machine>) {
    ks != [] && MachineInit(ks[0]) && forall j: nat | j + 1 < |ks| :: MachineAt(ks, j)
  }

  // ---------------------------------------------------------------- paths of the transition system

  /** From s to t by steps of the system. */
  ghost predicate Path(s: P.State, p: seq<P.State>, t: P.State) {
    p != [] && p[0] == s && p[|p| - 1] == t && forall k: nat | k + 1 < |p| :: P.StepAt(p, k)
  }

  lemma OneStep(s: P.State, st: P.Step, t: P.State)
    requires P.Enabled(s, st) && t == P.After(s, st)
    ensures Path(s, [s, t], t)
  {
    assert P.Next(s, t);
    hide P.Enabled, P.After, P.Next;
    assert P.StepAt([s, t], 0) by { assert [s, t][0] == s && [s, t][1] == t; StepIs([s, t], 0); }
  }

  lemma StepIs(p: seq<P.State>, k: nat)
    requires k + 1 < |p| && P.Next(p[k], p[k + 1])
    ensures P.StepAt(p, k)
  {}

  lemma PathJoin(s: P.State, p: seq<P.State>, t: P.State, q: seq<P.State>, u: P.State)
    requires Path(s, p, t) && Path(t, q, u)
    ensures Path(s, p + q[1..], u)
  {
    StepsJoin(p, q);
    hide P.Next, P.StepAt;
  }

  // ---------------------------------------------------------------- every move is a path

  /** k' shows t, so it stands for t. */
  lemma ViewIs(k': Machine, t: P.State)
    requires H.Keys(k'.mem.code, k'.mem.base, k'.mem.colours)
    requires Represents(t, k'.mem.colours, k'.mem.marked, k'.mem.unmarked) && Rest(t) == Rest(k'.rest)
    ensures View(k') == t
  {
    hide H.Keys, Shows, ColourMap;
    MapIs(k'.mem, t.colour);
    assert Rest(t).(colour := t.colour, marked := t.marked, unmarked := t.unmarked) == t;
  }

  lemma PlainKeeps(s: P.State, st: P.Step)
    requires P.Enabled(s, st) && Plain(s, st)
    ensures var t := P.After(s, st);
            t.colour == s.colour && t.marked == s.marked && t.unmarked == s.unmarked && t.bitCount == s.bitCount
  {
    if P.CanMutate(s, st) { PlainMutator(s, st); } else { PlainCollector(s, st); }
  }

  lemma PlainMutator(s: P.State, st: P.Step)
    requires P.CanMutate(s, st) && Plain(s, st)
    ensures var t := P.AfterMutate(s, st);
            t.colour == s.colour && t.marked == s.marked && t.unmarked == s.unmarked && t.bitCount == s.bitCount
  {}

  lemma PlainCollector(s: P.State, st: P.Step)
    requires P.CanCollect(s, st) && Plain(s, st)
    ensures var t := P.AfterCollect(s, st);
            t.colour == s.colour && t.marked == s.marked && t.unmarked == s.unmarked && t.bitCount == s.bitCount
  {}

  lemma ControlMove(k: Machine, st: P.Step, k': Machine) returns (p: seq<P.State>)
    requires InOrder(k) && Moves(k, Control(st), k')
    ensures InOrder(k') && Path(View(k), p, View(k'))
  {
    var s := View(k);
    var t := P.After(s, st);
    PlainKeeps(s, st);
    hide P.After, P.Enabled, ColourMap, H.Keys, Plain;
    assert View(k') == t;
    OneStep(s, st, t);
    p := [s, t];
  }

  lemma CollectorStep(s: P.State, st: P.Step)
    requires P.CanCollect(s, st)
    ensures P.Enabled(s, st) && P.After(s, st) == P.AfterCollect(s, st)
    ensures P.AfterCollect(s, st).bitCount == s.bitCount
  {}

  lemma RecolouredMemory(m: Memory, i: nat, one: map<int, Colour>)
    requires H.Keys(m.code, m.base, m.colours) && i < |m.colours| && one.Keys == m.colours[i].Keys
    ensures H.Keys(m.code, m.base, m.colours[i := one])
  {
    H.RecolouredKeys(m.code, m.base, m.colours, m.colours[i := one]);
  }

  lemma GrayMove(k: Machine, st: P.Step, k': Machine) returns (p: seq<P.State>)
    requires InOrder(k) && Moves(k, GrayOne(st), k')
    ensures InOrder(k') && Path(View(k), p, View(k'))
  {
    var s := View(k);
    var t := P.AfterCollect(s, st);
    var o := T.Target(s, st);
    var i := Owner(k.mem.colours, o);
    ViewRepresents(k);
    CollectorStep(s, st);
    TracesShade(s, st);
    hide P.AfterCollect, P.CanCollect, P.After, P.Enabled, H.Keys, Shows, ColourMap, T.Target, Traces, Owner;
    if i >= 0 {
      assert ObjectOf(o * GRAIN) == o;
      MakeGrayRefines(s, st, k.mem.colours, i, o * GRAIN);
      RecolouredMemory(k.mem, i, Shade(k.mem.colours[i], k.mem.unmarked, o * GRAIN));
    } else {
      NoHeader(k, o);
      assert t.colour == s.colour;
    }
    ViewIs(k', t);
    OneStep(s, st, t);
    p := [s, t];
  }

  lemma NoHeader(k: Machine, o: P.Obj)
    requires Owner(k.mem.colours, o) < 0
    ensures o !in View(k).colour
  {}

  lemma SlotsDoneMarks(s: P.State)
    requires P.CanCollect(s, P.SlotsDone)
    ensures var t := P.AfterCollect(s, P.SlotsDone); t.marked == s.marked && t.unmarked == s.unmarked
  {}

  lemma ScanMove(k: Machine, k': Machine) returns (p: seq<P.State>)
    requires InOrder(k) && Moves(k, ScanDone, k') && View(k).gc.src.obj in View(k).colour
    ensures InOrder(k') && Path(View(k), p, View(k'))
  {
    var s := View(k);
    var o := s.gc.src.obj;
    if Owner(k.mem.colours, o) < 0 { NoHeader(k, o); }
    ViewRepresents(k);
    CollectorStep(s, P.SlotsDone);
    SlotsDoneMarks(s);
    hide P.AfterCollect, P.CanCollect, P.After, P.Enabled, H.Keys, Shows, ColourMap, Owner;
    BlackenedMemory(s, k.mem, o);
    ViewIs(k', P.AfterCollect(s, P.SlotsDone));
    OneStep(s, P.SlotsDone, P.AfterCollect(s, P.SlotsDone));
    p := [s, P.AfterCollect(s, P.SlotsDone)];
  }

  lemma BlackenedMemory(s: P.State, m: Memory, o: P.Obj)
    requires H.Keys(m.code, m.base, m.colours) && Represents(s, m.colours, m.marked, m.unmarked)
    requires Owner(m.colours, o) >= 0
    requires P.CanCollect(s, P.SlotsDone) && s.gc.src == P.To(o)
    ensures H.Keys(m.code, m.base, Blackens(m, o).colours)
    ensures Represents(P.AfterCollect(s, P.SlotsDone), Blackens(m, o).colours, m.marked, m.unmarked)
  {
    var i := Owner(m.colours, o);
    hide P.AfterCollect, P.CanCollect, H.Keys, Shows, Owner;
    assert ObjectOf(o * GRAIN) == o;
    ScannedRefines(s, m.colours, i, o * GRAIN);
    RecolouredMemory(m, i, Blacken(m.colours[i], m.marked, o * GRAIN));
  }

  lemma FlipMove(k: Machine, words: P.Words, k': Machine) returns (p: seq<P.State>)
    requires InOrder(k) && Moves(k, FlipAll(words), k')
    ensures InOrder(k') && Path(View(k), p, View(k'))
  {
    var s := View(k);
    var t := P.AfterCollect(s, P.Flip(words));
    CollectorStep(s, P.Flip(words));
    assert t.colour == s.colour && t.marked == s.unmarked && t.unmarked == s.marked;
    hide P.AfterCollect, P.CanCollect, P.After, P.Enabled, H.Keys, Owner;
    assert View(k') == t;
    OneStep(s, P.Flip(words), t);
    p := [s, t];
  }

  lemma RecyclingIsPath(s: P.State, run: seq<P.State>, t: P.State)
    requires Recycling(s, run, t)
    ensures Path(s, run, t)
  {
    hide P.AfterCollect, P.CanCollect;
    forall n: nat | n + 1 < |run| ensures P.StepAt(run, n) {
      assert RecycleStep(run, n);
      var o :| P.CanCollect(run[n], P.RecycleOne(o)) && run[n + 1] == P.AfterCollect(run[n], P.RecycleOne(o));
      CollectorStep(run[n], P.RecycleOne(o));
      assert P.Next(run[n], run[n + 1]);
    }
  }

  lemma RecycleMove(k: Machine, i: nat, k': Machine) returns (p: seq<P.State>)
    requires InOrder(k) && Moves(k, RecycleGroup(i), k')
    ensures InOrder(k') && Path(View(k), p, View(k'))
  {
    var s := View(k);
    ViewRepresents(k);
    hide H.Keys, Shows, ColourMap;
    var t;
    p, t := RecycleRefines(s, k.mem.colours, i);
    RecolouredMemory(k.mem, i, Recycled(k.mem.colours[i], k.mem.unmarked));
    ViewIs(k', t);
    RecyclingIsPath(s, p, t);
  }

  lemma CoalesceMove(k: Machine, k': Machine) returns (p: seq<P.State>)
    requires InOrder(k) && Moves(k, Coalesce, k')
    ensures InOrder(k') && Path(View(k), p, View(k'))
  {
    var s := View(k);
    ViewRepresents(k);
    hide H.Keys, Shows, ColourMap;
    var objs := CoalesceRefines(s, k.mem.code, k.mem.base, k.mem.colours, k'.mem.colours);
    var t := P.AfterCollect(s, P.Unpublish(objs));
    CollectorStep(s, P.Unpublish(objs));
    ViewIs(k', t);
    hide P.AfterCollect, P.CanCollect, P.After, P.Enabled;
    OneStep(s, P.Unpublish(objs), t);
    p := [s, t];
  }

  // ---------------------------------------------------------------- allocation

  /** The objects of a block of n pages' memory. */
  lemma BlockObjects(code: seq<int>, block: int, c: int) returns (objs: set<P.Obj>)
    requires IsGroup(c) && EmptyRun(code, block, PagesPerBlock(c))
    ensures forall o :: o in objs <==> o * GRAIN in HeadersOn(block, c)
  {
    BlockIsFull(c);
    HeadersOnFirstPage(block, c);
    objs := set o: nat | o < |code| * BITS_PER_PAGE && o * GRAIN in HeadersOn(block, c);
    hide HeadersOn;
    forall o: nat | o * GRAIN in HeadersOn(block, c) ensures o < |code| * BITS_PER_PAGE { BitOfPage(o, |code|); }
  }

  lemma BitOfPage(o: nat, pages: nat)
    requires PageOf(o * GRAIN) < pages
    ensures o < pages * BITS_PER_PAGE
  {
    assert o * GRAIN < pages * BYTES_PER_PAGE;
  }

  lemma ServedFromFree(s: P.State, m: Memory, m': Memory, c: int, new_: int, t: P.Mid, body: map<nat, P.Ref>)
    requires Represents(s, m.colours, m.marked, m.unmarked) && P.MutatorReady(s, t) && new_ >= 0
    requires H.Keys(m.code, m.base, m.colours) && Allocates(m, m', c, NULL, new_)
    ensures H.Keys(m'.code, m'.base, m'.colours) && P.CanMutate(s, P.Alloc(t, ObjectOf(new_), body))
    ensures Represents(P.AfterMutate(s, P.Alloc(t, ObjectOf(new_), body)), m'.colours, m'.marked, m'.unmarked)
  {
    var i := c - MIN_GROUP_INDEX;
    hide H.Keys, Shows;
    AllocateRefines(s, m.colours, i, new_, t, body);
    RecolouredMemory(m, i, m.colours[i][new_ := m.marked]);
  }

  /** After the block has been committed, the allocation is from the free list. */
  function Committed(m: Memory, c: int, block: int): Memory
    requires IsGroup(c) && |m.colours| == 20
  {
    m.(code := Filled(m.code, block, PagesPerBlock(c), c), base := Filled(m.base, block, PagesPerBlock(c), block),
       colours := H.WithBlock(m.colours, block, c))
  }

  lemma CommitThenServe(m: Memory, m': Memory, c: int, block: int, new_: int)
    requires Allocates(m, m', c, block, new_) && block != NULL
    ensures Allocates(Committed(m, c, block), m', c, NULL, new_)
  {}

  lemma AllocEffect(s: P.State, m: P.Mid, o: P.Obj, body: map<nat, P.Ref>)
    requires P.CanMutate(s, P.Alloc(m, o, body))
    ensures P.Enabled(s, P.Alloc(m, o, body))
    ensures P.After(s, P.Alloc(m, o, body)) == P.AfterMutate(s, P.Alloc(m, o, body))
    ensures P.AfterMutate(s, P.Alloc(m, o, body)) ==
            P.SetPc(s, m, P.Clearing(o)).(colour := s.colour[o := s.marked], heap := P.Refit(s.heap, o, body))
  {}

  lemma PublishEffect(s: P.State, objs: set<P.Obj>)
    requires P.CanMutate(s, P.Publish(objs))
    ensures P.Enabled(s, P.Publish(objs)) && P.After(s, P.Publish(objs)) == P.AfterMutate(s, P.Publish(objs))
    ensures var t := P.AfterMutate(s, P.Publish(objs));
            t == s.(colour := t.colour)
  {}

  lemma AllocateMove(k: Machine, m: P.Mid, c: int, block: int, new_: int, body: map<nat, P.Ref>, k': Machine)
    returns (p: seq<P.State>)
    requires InOrder(k) && Moves(k, Allocate(m, c, block, new_, body), k')
    ensures InOrder(k') && Path(View(k), p, View(k'))
  {
    var s := View(k);
    ViewRepresents(k);
    hide H.Keys, Shows, ColourMap, Allocates;
    if block == NULL {
      p := ServeMove(s, k, k', m, c, new_, body);
    } else {
      var s1, q := CommitMove(s, k.mem, k'.mem, c, block, new_);
      CommitThenServe(k.mem, k'.mem, c, block, new_);
      p := ServeMove(s1, Machine(Committed(k.mem, c, block), k.rest), k', m, c, new_, body);
      PathJoin(s, q, s1, p, View(k'));
      p := q + p[1..];
    }
    SameSize(k.mem, k'.mem, c, block, new_);
  }

  lemma SameSize(m: Memory, m': Memory, c: int, block: int, new_: int)
    requires Allocates(m, m', c, block, new_)
    ensures |m'.code| == |m.code| && m'.marked == m.marked && m'.unmarked == m.unmarked
  {}

  lemma CommitMove(s: P.State, m: Memory, m': Memory, c: int, block: int, new_: int)
    returns (s1: P.State, q: seq<P.State>)
    requires Represents(s, m.colours, m.marked, m.unmarked) && H.Keys(m.code, m.base, m.colours)
    requires s.bitCount == |m.code| * BITS_PER_PAGE && Allocates(m, m', c, block, new_) && block != NULL
    ensures Path(s, q, s1) && s1 == s.(colour := s1.colour) && |m.colours| == 20
    ensures var n := Committed(m, c, block);
            H.Keys(n.code, n.base, n.colours) && Represents(s1, n.colours, n.marked, n.unmarked)
  {
    hide H.Keys, Shows, EmptyRun;
    var objs := BlockObjects(m.code, block, c);
    CommitRefines(s, m.code, m.base, m.colours, block, c, objs);
    H.CommitKeys(m.code, m.base, m.colours, block, c);
    PublishEffect(s, objs);
    s1 := P.AfterMutate(s, P.Publish(objs));
    hide P.AfterMutate, P.CanMutate, P.After, P.Enabled;
    OneStep(s, P.Publish(objs), s1);
    q := [s, s1];
  }

  lemma ServeMove(s: P.State, k: Machine, k': Machine, m: P.Mid, c: int, new_: int, body: map<nat, P.Ref>)
    returns (p: seq<P.State>)
    requires Represents(s, k.mem.colours, k.mem.marked, k.mem.unmarked) && H.Keys(k.mem.code, k.mem.base, k.mem.colours)
    requires Rest(s) == Rest(k.rest) && P.MutatorReady(s, m) && new_ >= 0 && Allocates(k.mem, k'.mem, c, NULL, new_)
    requires var o := ObjectOf(new_);
             k'.rest == P.SetPc(k.rest, m, P.Clearing(o)).(heap := P.Refit(k.rest.heap, o, body))
    ensures H.Keys(k'.mem.code, k'.mem.base, k'.mem.colours) && Path(s, p, View(k'))
  {
    var o := ObjectOf(new_);
    ServedFromFree(s, k.mem, k'.mem, c, new_, m, body);
    AllocEffect(s, m, o, body);
    var t := P.AfterMutate(s, P.Alloc(m, o, body));
    hide P.AfterMutate, P.CanMutate, P.After, P.Enabled, H.Keys, Shows, ColourMap, Allocates, View, P.Refit;
    assert s.mut == Rest(s).mut == Rest(k.rest).mut && s.heap == Rest(s).heap == Rest(k.rest).heap;
    SameRest(s, k.rest, m, o, body);
    ViewIs(k', t);
    OneStep(s, P.Alloc(m, o, body), t);
    p := [s, t];
  }

  lemma SameRest(s: P.State, r: P.State, m: P.Mid, o: P.Obj, body: map<nat, P.Ref>)
    requires Rest(s) == Rest(r) && m in s.mut && m in r.mut
    ensures Rest(P.SetPc(s, m, P.Clearing(o)).(colour := s.colour[o := s.marked], heap := P.Refit(s.heap, o, body))) ==
            Rest(P.SetPc(r, m, P.Clearing(o)).(heap := P.Refit(r.heap, o, body)))
  {
    assert s.mut == Rest(s).mut == Rest(r).mut == r.mut;
    assert s.heap == Rest(s).heap == Rest(r).heap == r.heap;
  }

  // ---------------------------------------------------------------- every run

  lemma MoveIsPath(k: Machine, k': Machine) returns (p: seq<P.State>)
    requires InOrder(k) && MachineNext(k, k') && I.Typed(View(k))
    ensures InOrder(k') && Path(View(k), p, View(k'))
  {
    var mv :| Moves(k, mv, k');
    hide InOrder, View, I.Typed, Moves, Path;
    match mv {
      case Control(st) => p := ControlMove(k, st, k');
      case GrayOne(st) => p := GrayMove(k, st, k');
      case ScanDone => SourceIsObject(k, k'); p := ScanMove(k, k');
      case Allocate(m, c, block, new_, body) => p := AllocateMove(k, m, c, block, new_, body, k');
      case FlipAll(words) => p := FlipMove(k, words, k');
      case RecycleGroup(i) => p := RecycleMove(k, i, k');
      case Coalesce => p := CoalesceMove(k, k');
    }
  }

  lemma SourceIsObject(k: Machine, k': Machine)
    requires Moves(k, ScanDone, k') && I.Typed(View(k))
    ensures View(k).gc.ScanSlots? && View(k).gc.src.To? && View(k).gc.src.obj in View(k).colour
  {}

  lemma RunGrows(r: seq<P.State>, p: seq<P.State>, t: P.State)
    requires P.Run(r) && Path(r[|r| - 1], p, t)
    ensures var q := r + p[1..];
            P.Run(q) && q[..|r|] == r && q[|q| - 1] == t
  {
    hide P.Next, P.Init;
    StepsJoin(r, p);
  }

  lemma StepsJoin(r: seq<P.State>, p: seq<P.State>)
    requires r != [] && p != [] && p[0] == r[|r| - 1]
    requires (forall k: nat | k + 1 < |r| :: P.StepAt(r, k)) && forall k: nat | k + 1 < |p| :: P.StepAt(p, k)
    ensures forall k: nat | k + 1 < |r + p[1..]| :: P.StepAt(r + p[1..], k)
  {
    var q := r + p[1..];
    hide P.Next;
    forall k: nat | k + 1 < |q| ensures P.StepAt(q, k) {
      if k + 1 < |r| {
        assert P.StepAt(r, k);
      } else {
        assert P.StepAt(p, k + 1 - |r|) && q[k] == p[k + 1 - |r|] && q[k + 1] == p[k + 2 - |r|];
      }
    }
  }

  lemma InitInOrder(k: Machine)
    requires MachineInit(k)
    ensures InOrder(k) && P.Run([View(k)])
  {
    H.EmptyKeys(k.mem.code, k.mem.base, k.mem.colours);
  }

  /** at[j] is where the run r of the system stands for the j-th state of the machine's run. */
  ghost predicate Follows(r: seq<P.State>, at: seq<nat>, ks: seq<Machine>) {
    && P.Run(r) && |at| == |ks| > 0 && at[|at| - 1] == |r| - 1
    && (forall j | 0 <= j < |ks| :: at[j] < |r| && r[at[j]] == View(ks[j]))
    && (forall i, j | 0 <= i < j < |ks| :: at[i] <= at[j])
    && (forall j | 0 <= j < |ks| :: InOrder(ks[j]))
  }

  lemma FollowsOn(r: seq<P.State>, at: seq<nat>, ks: seq<Machine>, k': Machine, p: seq<P.State>)
    requires Follows(r, at, ks) && Path(View(ks[|ks| - 1]), p, View(k')) && InOrder(k')
    ensures |p| > 0 && Follows(r + p[1..], at + [|r| + |p| - 2], ks + [k'])
  {
    RunGrows(r, p, View(k'));
    hide P.Run, Path, InOrder, View;
    var q, at', ks' := r + p[1..], at + [|r| + |p| - 2], ks + [k'];
    forall j | 0 <= j < |ks'| ensures at'[j] < |q| && q[at'[j]] == View(ks'[j]) && InOrder(ks'[j]) {
      if j < |ks| { assert q[at[j]] == q[..|r|][at[j]]; }
    }
  }

  lemma OneMove(r: seq<P.State>, at: seq<nat>, ks: seq<Machine>, k': Machine) returns (r': seq<P.State>, at': seq<nat>)
    requires Follows(r, at, ks) && MachineNext(ks[|ks| - 1], k')
    ensures Follows(r', at', ks + [k'])
  {
    TypedAt(r);
    hide MachineNext, P.Run, InOrder, View, Path;
    var p := MoveIsPath(ks[|ks| - 1], k');
    FollowsOn(r, at, ks, k', p);
    r', at' := r + p[1..], at + [|r| + |p| - 2];
  }

  /**
   Every run over headers and page table from the empty heap is a run of the transition
   system: the system goes through the states the headers show, in the same order.
   */
  lemma {:induction false} EveryRunIsARun(ks: seq<Machine>) returns (r: seq<P.State>, at: seq<nat>)
    requires MachineRun(ks)
    ensures Follows(r, at, ks)
    decreases |ks|
  {
    var n := |ks| - 1;
    if n == 0 {
      InitInOrder(ks[0]);
      r, at := [View(ks[0])], [0];
    } else {
      PrefixRun(ks, n);
      assert MachineAt(ks, n - 1);
      hide MachineInit, MachineNext, MachineRun, Follows;
      r, at := EveryRunIsARun(ks[..n]);
      r, at := OneMove(r, at, ks[..n], ks[n]);
      assert ks == ks[..n] + [ks[n]];
    }
  }

  lemma PrefixRun(ks: seq<Machine>, n: nat)
    requires MachineRun(ks) && 0 < n <= |ks|
    ensures MachineRun(ks[..n])
  {
    hide MachineNext, MachineInit;
    forall j: nat | j + 1 < n ensures MachineAt(ks[..n], j) { assert MachineAt(ks, j); }
  }

  lemma TypedAt(r: seq<P.State>)
    requires P.Run(r)
    ensures I.Typed(r[|r| - 1])
  {
    I.InvRun(r, |r| - 1);
  }

  /**
   In every state of every run over headers and page table, a header whose object is in
   use, or whose bit is set in the write vector, is on no free list, and every bit set is
   the bit of some header.
   */
  lemma NothingInUseIsGreen(ks: seq<Machine>, j: nat)
    requires MachineRun(ks) && j < |ks|
    ensures var s := View(ks[j]);
            var colours := ks[j].mem.colours;
            && (forall i, a | HeaderIn(colours, i, a) ::
                  a >= 0 && (S.Live(s, ObjectOf(a)) || ObjectOf(a) in s.bits ==> colours[i][a] != Green))
            && forall b | b in s.bits :: exists i :: HeaderIn(colours, i, b * GRAIN)
  {
    var r, at := EveryRunIsARun(ks);
    var s, colours := View(ks[j]), ks[j].mem.colours;
    ViewRepresents(ks[j]);
    hide InOrder, View, P.Run, S.Live, NoMore, MachineRun;
    forall i, a | HeaderIn(colours, i, a)
      ensures a >= 0 && (S.Live(s, ObjectOf(a)) || ObjectOf(a) in s.bits ==> colours[i][a] != Green) {
      assert r[at[j]] == s;
      S.NothingLiveIsFree(r, at[j], ObjectOf(a));
    }
    forall b | b in s.bits ensures exists i :: HeaderIn(colours, i, b * GRAIN) {
      S.NothingLiveIsFree(r, at[j], b);
      ShownHeader(s.colour, colours, b);
    }
  }
}
