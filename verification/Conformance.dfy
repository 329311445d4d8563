/**
 The methods called one after the other on one heap make a run of the machine: each, called
 when its move is enabled, finds its preconditions met and makes that move.
 */
module Conformance {
  import opened Colours
  import opened Links
  import opened GroupList
  import opened Layout
  import opened Pages
  import opened PageTables
  import opened Refinement
  import opened Simulation
  import F = FullCycle
  import H = Heaps
  import I = ProtocolInvariant
  import M = Marking
  import P = Protocol
  import T = ProtocolTraced

  ghost function MemoryOf(heap: H.Heap): Simulation.Memory
    reads heap.Footprint()
  {
    Simulation.Memory(heap.table.code[..], heap.table.base[..], heap.Colours(), heap.marked, heap.unmarked)
  }

  predicate CursorAt(marks: seq<H.Mark>, a: int) { exists i :: 0 <= i < |marks| && marks[i].cursor == a }

  /** When an object is being scanned its header is the one that its group scans next. */
  predicate ScansCursor(gc: P.Collector, marks: seq<H.Mark>) {
    gc.ScanSlots? && gc.src.To? ==> CursorAt(marks, gc.src.obj * GRAIN)
  }

  function Now(ks: seq<Machine>): Machine
    requires ks != []
  {
    ks[|ks| - 1]
  }

  /** The heap is in order, and its memory is where the run ks of the machine has got to. */
  ghost predicate Tracks(heap: H.Heap, ks: seq<Machine>)
    reads heap.Footprint()
  {
    && MachineRun(ks) && heap.Valid() && MemoryOf(heap) == Now(ks).mem && ScansCursor(Now(ks).rest.gc, heap.Marks())
  }

  // ---------------------------------------------------------------- one more move

  lemma RunOn(ks: seq<Machine>, mv: Move, k': Machine)
    requires MachineRun(ks) && Moves(Now(ks), mv, k')
    ensures MachineRun(ks + [k'])
  {
    var q := ks + [k'];
    assert MachineNext(Now(ks), k');
    hide MachineInit, MachineNext, Moves;
    forall j: nat | j + 1 < |q| ensures MachineAt(q, j) {
      if j + 1 < |ks| { assert MachineAt(ks, j); }
    }
  }

  lemma NowTyped(ks: seq<Machine>)
    requires MachineRun(ks)
    ensures InOrder(Now(ks)) && I.Typed(View(Now(ks)))
  {
    hide MachineRun, InOrder, View, P.Run;
    var r, at := EveryRunIsARun(ks);
    TypedAt(r);
  }

  lemma TracksOn(heap: H.Heap, ks: seq<Machine>, mv: Move, k': Machine)
    requires MachineRun(ks) && Moves(Now(ks), mv, k')
    requires heap.Valid() && MemoryOf(heap) == k'.mem && ScansCursor(k'.rest.gc, heap.Marks())
    ensures Tracks(heap, ks + [k'])
  {
    hide MachineRun, Moves, H.Heap.Valid, ScansCursor;
    RunOn(ks, mv, k');
  }

  /** Only Pick makes the collector scan another object. */
  lemma CursorStays(s: P.State, st: P.Step, marks: seq<H.Mark>)
    requires P.Enabled(s, st) && !st.Pick? && ScansCursor(s.gc, marks)
    ensures ScansCursor(P.After(s, st).gc, marks)
  {
    if P.CanMutate(s, st) { SameCollector(s, st); } else { SameSource(s, st); }
  }

  lemma SameCollector(s: P.State, st: P.Step)
    requires P.CanMutate(s, st)
    ensures P.AfterMutate(s, st).gc == s.gc
  {}

  lemma SameSource(s: P.State, st: P.Step)
    requires P.CanCollect(s, st) && !st.Pick?
    ensures var gc := P.AfterCollect(s, st).gc;
            gc.ScanSlots? && gc.src.To? ==> s.gc.ScanSlots? && gc.src == s.gc.src
  {}

  /** Moves that touch no header: the heap stays as it is. */
  lemma PerformControl(heap: H.Heap, ks: seq<Machine>, st: P.Step) returns (k': Machine)
    requires Tracks(heap, ks) && !st.Pick?
    requires Plain(View(Now(ks)), st) && P.Enabled(View(Now(ks)), st)
    ensures Moves(Now(ks), Control(st), k') && Tracks(heap, ks + [k'])
    ensures k' == Machine(Now(ks).mem, Rest(P.After(View(Now(ks)), st)))
  {
    var s := View(Now(ks));
    k' := Machine(Now(ks).mem, Rest(P.After(s, st)));
    assert Moves(Now(ks), Control(st), k');
    hide MachineRun, Moves, H.Heap.Valid, Plain, P.Enabled, P.After, ScansCursor;
    CursorStays(s, st, heap.Marks());
    assert k'.rest.gc == P.After(s, st).gc;
    TracksOn(heap, ks, Control(st), k');
  }

  // ---------------------------------------------------------------- what the collector's position says of the heap

  lemma FirstGray(g: Group, marked: Colour, unmarked: Colour)
    requires g.Valid(marked, unmarked) && g.shape.grays > 0
    ensures var a := At(g.shape.main, g.shape.grays - 1);
            a in g.hdr && Colouring(g.hdr)[a] == Gray && M.Next(g.shape, a) && a != NULL
  {
    var i: nat := g.shape.grays - 1;
    assert ColourAt(Colouring(g.hdr), g.shape, marked, i) && LinkAt(g.hdr, g.shape.main, i);
  }

  lemma FirstWhite(g: Group, marked: Colour, unmarked: Colour)
    requires g.Valid(marked, unmarked) && g.shape.whites != []
    ensures g.shape.whites[0] in g.hdr && Colouring(g.hdr)[g.shape.whites[0]] == unmarked
  {
    var a := g.shape.whites[0];
    assert a in g.shape.whites && LinkAt(g.hdr, g.shape.whites, 0);
    ColourIsPlace(g.hdr, Cut(g.gray, g.black, g.free, g.last, g.white), g.shape, marked, unmarked, a);
  }

  /** The colour of a header is the colour of its object in the view. */
  lemma Seen(k: Machine, i: nat, a: int)
    requires InOrder(k) && HeaderIn(k.mem.colours, i, a)
    ensures a >= 0 && a == ObjectOf(a) * GRAIN
    ensures ObjectOf(a) in View(k).colour && View(k).colour[ObjectOf(a)] == k.mem.colours[i][a]
  {
    HeadersPlaced(k.mem.code, k.mem.base, k.mem.colours, i, a);
    ViewRepresents(k);
    hide H.Keys, ColourMap;
  }

  /** With nothing gray in the view, no group has a gray object. */
  lemma NoGrayIsQuiet(heap: H.Heap, k: Machine)
    requires heap.Valid() && MemoryOf(heap) == k.mem && InOrder(k)
    requires forall o | o in View(k).colour :: View(k).colour[o] != Gray
    ensures heap.Quiet()
  {
    hide InOrder, View, Group.Valid, H.Keys, PageTable.Valid, H.Assigned, Colouring;
    forall i: nat | i < 20 ensures heap.groups[i].shape.grays == 0 {
      if heap.groups[i].shape.grays > 0 {
        FirstGray(heap.groups[i], heap.marked, heap.unmarked);
        Seen(k, i, At(heap.groups[i].shape.main, heap.groups[i].shape.grays - 1));
      }
    }
    H.MarksMean(heap.groups);
  }

  lemma NoWhiteIsListed(heap: H.Heap, k: Machine)
    requires heap.Valid() && MemoryOf(heap) == k.mem && InOrder(k)
    requires forall o | o in View(k).colour :: View(k).colour[o] != k.mem.unmarked
    ensures H.NoWhites(heap.Marks())
  {
    hide InOrder, View, Group.Valid, H.Keys, PageTable.Valid, H.Assigned, Colouring;
    forall i: nat | i < 20 ensures heap.groups[i].shape.whites == [] {
      if heap.groups[i].shape.whites != [] {
        FirstWhite(heap.groups[i], heap.marked, heap.unmarked);
        Seen(k, i, heap.groups[i].shape.whites[0]);
      }
    }
    H.MarksMean(heap.groups);
  }

  /** Between two cycles and while garbage is recycled no group has a gray object. */
  lemma QuietBetween(heap: H.Heap, ks: seq<Machine>)
    requires Tracks(heap, ks) && (Now(ks).rest.gc.Idle? || Now(ks).rest.gc.Recycle?)
    ensures heap.Quiet() && (Now(ks).rest.gc.Idle? ==> H.NoWhites(heap.Marks()))
  {
    var k := Now(ks);
    NowTyped(ks);
    assert View(k).gc == k.rest.gc && View(k).marked == k.mem.marked && View(k).unmarked == k.mem.unmarked;
    assert k.mem.marked != k.mem.unmarked && Generation(k.mem.marked) && Generation(k.mem.unmarked);
    hide MachineRun, View, InOrder, H.Heap.Valid, H.Heap.Quiet, H.NoWhites, ScansCursor;
    NoGrayIsQuiet(heap, k);
    if k.rest.gc.Idle? { NoWhiteIsListed(heap, k); }
  }

  // ---------------------------------------------------------------- the methods

  /** RTinit_heap: the run has not moved yet. */
  method Start(total: nat, ghost rest: P.State) returns (heap: H.Heap, ghost ks: seq<Machine>)
    requires total > 0 && P.Init(rest) && rest.colour == map[] && rest.bitCount == total * BITS_PER_PAGE
    ensures fresh(heap.Footprint()) && heap.table.total == total
    ensures ks == [Machine(MemoryOf(heap), rest)] && Tracks(heap, ks)
  {
    hide Good, Tiles, Listed, Group.Valid, H.Keys, H.Assigned, Colouring, H.ColoursOf, H.MarksOf;
    heap := new H.Heap(total);
    hide H.Heap.GroupsValid, MachineInit, P.Init;
    ks := [Machine(MemoryOf(heap), rest)];
    EmptyStart(ks[0]);
  }

  lemma EmptyStart(k: Machine)
    requires |k.mem.code| == |k.mem.base| && |k.mem.colours| == 20
    requires (forall p | 0 <= p < |k.mem.code| :: k.mem.code[p] == EMPTY_PAGE)
    requires (forall i | 0 <= i < 20 :: k.mem.colours[i] == map[]) && k.mem.marked == Gen0 && k.mem.unmarked == Gen1
    requires P.Init(k.rest) && k.rest.colour == map[] && k.rest.bitCount == |k.mem.code| * BITS_PER_PAGE
    ensures MachineInit(k) && MachineRun([k])
  {
    assert ColourMap(k.mem) == map[];
  }

  /** Heap.Flip, when the flip is enabled. */
  method PerformFlip(heap: H.Heap, ghost ks: seq<Machine>, ghost words: P.Words) returns (ghost k': Machine)
    requires Tracks(heap, ks) && P.CanCollect(View(Now(ks)), P.Flip(words))
    modifies heap, heap.groups
    ensures Moves(Now(ks), FlipAll(words), k') && Tracks(heap, ks + [k'])
  {
    ghost var k := Now(ks);
    QuietBetween(heap, ks);
    k' := Machine(Swapped(k.mem), Rest(P.AfterCollect(View(k), P.Flip(words))));
    assert k'.rest.gc.ScanRoots? && Moves(k, FlipAll(words), k');
    hide Good, Tiles, Listed, Group.Valid, PageTable.Valid, PageTable.Linked, H.Keys, H.Assigned, H.ColoursOf;
    hide H.MarksOf, H.Heap.GroupsValid, H.Flips, MachineRun, Moves, P.CanCollect, H.NoWhites, H.NoGrays;
    heap.Flip();
    TracksOn(heap, ks, FlipAll(words), k');
  }

  lemma OneGroupChanged(gs: seq<Group>, i: nat, before: H.Colourings, one: map<int, Colour>)
    requires i < |gs| == |before| && Colouring(gs[i].hdr) == one
    requires forall j | 0 <= j < |gs| && j != i :: Colouring(gs[j].hdr) == before[j]
    ensures H.ColoursOf(gs) == before[i := one]
  {
    hide Colouring;
  }

  /** Group.Recycle, for any group, while garbage is recycled. */
  method PerformRecycle(heap: H.Heap, ghost ks: seq<Machine>, i: nat) returns (ghost k': Machine)
    requires Tracks(heap, ks) && Now(ks).rest.gc.Recycle? && i < 20
    modifies heap.groups[i]
    ensures Moves(Now(ks), RecycleGroup(i), k') && Tracks(heap, ks + [k'])
  {
    ghost var k := Now(ks);
    QuietBetween(heap, ks);
    assert |k.mem.colours| == 20;
    k' := Machine(Recycles(k.mem, i), k.rest);
    assert Moves(k, RecycleGroup(i), k');
    hide Moves, MachineRun;
    RecycleOne(heap, i);
    TracksOn(heap, ks, RecycleGroup(i), k');
  }

  method RecycleOne(heap: H.Heap, i: nat)
    requires heap.Valid() && heap.Quiet() && i < 20
    modifies heap.groups[i]
    ensures heap.Valid() && MemoryOf(heap) == Recycles(old(MemoryOf(heap)), i)
  {
    hide Good, Tiles, Listed, Group.Valid, PageTable.Valid, PageTable.Linked, H.Keys, H.Assigned, Colouring, Recycled;
    ghost var before := heap.Colours();
    assert forall j | 0 <= j < 20 && j != i :: heap.groups[j] != heap.groups[i];
    var _ := heap.groups[i].Recycle(heap.marked, heap.unmarked);
    OneGroupChanged(heap.groups, i, before, Recycled(before[i], heap.unmarked));
    H.RecolouredKeys(heap.table.code[..], heap.table.base[..], before, heap.Colours());
  }

  /** Heap.CoalesceAllFreePages, while garbage is recycled. */
  method PerformCoalesce(heap: H.Heap, ghost ks: seq<Machine>) returns (ghost k': Machine)
    requires Tracks(heap, ks) && Now(ks).rest.gc.Recycle?
    requires H.Bounded(heap.table.code[..], heap.table.base[..], heap.Colours(), heap.table.flight)
    modifies heap.groups, heap.table`emptyPages, heap.table`list
    modifies heap.table.code, heap.table.base, heap.table.count, heap.table.next
    ensures Moves(Now(ks), Coalesce, k') && Tracks(heap, ks + [k'])
  {
    ghost var k := Now(ks);
    QuietBetween(heap, ks);
    hide Good, Tiles, Listed, Group.Valid, PageTable.Valid, PageTable.Linked, H.Keys, H.Assigned, H.ColoursOf;
    hide H.MarksOf, H.Heap.GroupsValid, H.MaximalUnused, H.Unused, HolesAreMaximalRuns, H.Bounded, H.NoGrays;
    hide MachineRun, H.Coalesced, Masked;
    heap.CoalesceAllFreePages();
    k' := Machine(MemoryOf(heap), k.rest);
    CoalesceIs(k, k');
    hide Moves;
    TracksOn(heap, ks, Coalesce, k');
  }

  lemma CoalesceIs(k: Machine, k': Machine)
    requires k.rest.gc.Recycle? && Coalesces(k.mem, k'.mem) && k'.rest == k.rest
    ensures Moves(k, Coalesce, k')
  {}

  /** What an allocation does to the rest of the state. */
  function Given(rest: P.State, m: P.Mid, o: P.Obj, body: map<nat, P.Ref>): P.State
    requires m in rest.mut
  {
    P.SetPc(rest, m, P.Clearing(o)).(heap := P.Refit(rest.heap, o, body))
  }

  lemma AllocateIs(k: Machine, k': Machine, m: P.Mid, c: int, block: int, new_: int, body: map<nat, P.Ref>)
    requires P.MutatorReady(View(k), m) && m in k.rest.mut && Allocates(k.mem, k'.mem, c, block, new_) && new_ >= 0
    requires k'.rest == Given(k.rest, m, ObjectOf(new_), body)
    ensures Moves(k, Allocate(m, c, block, new_, body), k') && k'.rest.gc == k.rest.gc
  {}

  /** Heap.Allocate for a ready mutator: the move is made, or there is no memory and nothing has changed. */
  method PerformAllocate(heap: H.Heap, ghost ks: seq<Machine>, ghost m: P.Mid, c: int, class_: int,
                         ghost body: map<nat, P.Ref>)
    returns (new_: int, ghost block: int, ghost k': Machine)
    requires Tracks(heap, ks) && IsGroup(c) && P.MutatorReady(View(Now(ks)), m)
    modifies heap.groups[c - MIN_GROUP_INDEX], heap.table`emptyPages, heap.table`list, heap.table`flight
    modifies heap.table.code, heap.table.base, heap.table.count, heap.table.next
    ensures new_ == NULL ==> Tracks(heap, ks) && k' == Now(ks)
    ensures new_ != NULL ==> Moves(Now(ks), Allocate(m, c, block, new_, body), k') && Tracks(heap, ks + [k'])
  {
    ghost var k := Now(ks);
    assert m in k.rest.mut;
    hide Good, Tiles, Listed, Group.Valid, PageTable.Valid, PageTable.Linked, H.Keys, H.Assigned, H.ColoursOf;
    hide H.MarksOf, H.Heap.GroupsValid, H.Heap.Valid, MachineRun, Moves, Allocates, P.MutatorReady, View;
    new_, block := AllocateOne(heap, c, class_);
    k' := k;
    if new_ != NULL {
      k' := Machine(MemoryOf(heap), Given(k.rest, m, ObjectOf(new_), body));
      AllocateIs(k, k', m, c, block, new_, body);
      hide Given;
      TracksOn(heap, ks, Allocate(m, c, block, new_, body), k');
    }
  }

  method AllocateOne(heap: H.Heap, c: int, class_: int) returns (new_: int, ghost block: int)
    requires heap.Valid() && IsGroup(c)
    modifies heap.groups[c - MIN_GROUP_INDEX], heap.table`emptyPages, heap.table`list, heap.table`flight
    modifies heap.table.code, heap.table.base, heap.table.count, heap.table.next
    ensures heap.Valid() && heap.Marks() == old(heap.Marks())
    ensures if new_ == NULL then MemoryOf(heap) == old(MemoryOf(heap))
            else new_ >= 0 && Allocates(old(MemoryOf(heap)), MemoryOf(heap), c, block, new_)
  {
    hide Good, Tiles, Listed, Group.Valid, PageTable.Valid, PageTable.Linked, H.Keys, H.Assigned, H.ColoursOf;
    hide H.MarksOf, H.Served, H.NewObject, Filled;
    new_, block := heap.Allocate(c, class_);
    assert heap.marked == old(heap.marked) && heap.unmarked == old(heap.unmarked);
    assert block == NULL ==>
             heap.table.code[..] == old(heap.table.code[..]) && heap.table.base[..] == old(heap.table.base[..]);
    assert new_ == NULL ==> heap.Colours() == old(heap.Colours());
    if new_ != NULL {
      assert HeaderIn(heap.Colours(), c - MIN_GROUP_INDEX, new_);
      HeadersPlaced(heap.table.code[..], heap.table.base[..], heap.Colours(), c - MIN_GROUP_INDEX, new_);
    }
  }

  // ---------------------------------------------------------------- marking

  lemma CursorsStay(before: seq<H.Mark>, after: seq<H.Mark>, gc: P.Collector)
    requires |before| == |after| && ScansCursor(gc, before)
    requires forall i | 0 <= i < |before| && before[i].cursor != NULL :: after[i].cursor == before[i].cursor
    ensures ScansCursor(gc, after)
  {
    if gc.ScanSlots? && gc.src.To? {
      var i :| 0 <= i < |before| && before[i].cursor == gc.src.obj * GRAIN;
      assert after[i].cursor == gc.src.obj * GRAIN;
    }
  }

  lemma GrayIs(k: Machine, st: P.Step) returns (k': Machine)
    requires Traces(st) && P.CanCollect(View(k), st)
    ensures k' == Machine(Grays(k.mem, T.Target(View(k), st)), Rest(P.AfterCollect(View(k), st)))
    ensures Moves(k, GrayOne(st), k')
    ensures forall marks :: ScansCursor(k.rest.gc, marks) ==> ScansCursor(k'.rest.gc, marks)
  {
    var s := View(k);
    k' := Machine(Grays(k.mem, T.Target(s, st)), Rest(P.AfterCollect(s, st)));
    SameSource(s, st);
    assert k'.rest.gc == P.AfterCollect(s, st).gc && s.gc == k.rest.gc;
  }

  /** WHITEP and Group.MakeGray on what the collector is tracing. */
  method PerformGray(heap: H.Heap, ghost ks: seq<Machine>, ghost st: P.Step, o: P.Obj) returns (ghost k': Machine)
    requires Tracks(heap, ks) && Traces(st) && P.CanCollect(View(Now(ks)), st) && o == T.Target(View(Now(ks)), st)
    modifies heap.groups
    ensures Moves(Now(ks), GrayOne(st), k') && Tracks(heap, ks + [k'])
  {
    ghost var k := Now(ks);
    k' := GrayIs(k, st);
    hide MachineRun, Moves, View, P.AfterCollect, P.CanCollect, H.Heap.Valid, Grays, T.Target;
    GrayOneObject(heap, o);
    CursorsStay(old(heap.Marks()), heap.Marks(), k.rest.gc);
    TracksOn(heap, ks, GrayOne(st), k');
  }

  lemma NextIsCursor(s: Shape, t: Shape)
    requires forall y | M.Next(s, y) :: M.Next(t, y)
    ensures H.MarkOf(s).cursor != NULL ==> H.MarkOf(t).cursor == H.MarkOf(s).cursor
  {
    if H.MarkOf(s).cursor != NULL { assert M.Next(s, H.MarkOf(s).cursor); }
  }

  /** The groups' part of it. */
  method GrayInGroups(heap: H.Heap, o: P.Obj, owner: M.Owners)
    requires heap.GroupsValid()
    modifies heap.groups
    ensures heap.GroupsValid() && M.Traced(old(heap.Colours()), heap.Colours(), owner, o * GRAIN, heap.unmarked)
    ensures |heap.Marks()| == |old(heap.Marks())|
    ensures forall i | 0 <= i < |heap.Marks()| && old(heap.Marks())[i].cursor != NULL ::
              heap.Marks()[i].cursor == old(heap.Marks())[i].cursor
  {
    F.GroupsAreOk(heap);
    ghost var shapes := M.Shapes(heap.groups);
    hide Good, Group.Valid, M.Work, M.Next, M.Traced, H.ColoursOf, H.MarksOf, H.MarkOf;
    M.TraceAddress(heap.groups, o * GRAIN, owner, heap.marked, heap.unmarked);
    forall i | 0 <= i < |heap.groups| && H.MarkOf(shapes[i]).cursor != NULL
      ensures H.MarkOf(heap.groups[i].shape).cursor == H.MarkOf(shapes[i]).cursor {
      NextIsCursor(shapes[i], heap.groups[i].shape);
    }
  }

  method GrayOneObject(heap: H.Heap, o: P.Obj)
    requires heap.Valid()
    modifies heap.groups
    ensures heap.Valid() && MemoryOf(heap) == Grays(old(MemoryOf(heap)), o)
    ensures |heap.Marks()| == |old(heap.Marks())|
    ensures forall i | 0 <= i < |heap.Marks()| && old(heap.Marks())[i].cursor != NULL ::
              heap.Marks()[i].cursor == old(heap.Marks())[i].cursor
  {
    hide Good, Tiles, Listed, PageTable.Valid, PageTable.Linked, H.Keys, H.Assigned, H.ColoursOf, H.MarksOf, H.MarkOf;
    hide H.Heap.GroupsValid, M.Traced, M.Resolves, Owner, Shade, F.OwnerIn;
    ghost var before := heap.Colours();
    var owner := F.OwnerIn(heap.table.code[..]);
    F.OwnerResolves(heap.table.code[..], heap.table.base[..], before);
    GrayInGroups(heap, o, owner);
    TracedIsGrayed(before, heap.Colours(), owner, o, heap.unmarked);
    GrayedKeys(heap.table.code[..], heap.table.base[..], before, heap.Colours(), o, heap.unmarked);
  }

  lemma GrayedKeys(code: seq<int>, base: seq<int>, before: H.Colourings, after: H.Colourings, o: P.Obj,
                   unmarked: Colour)
    requires H.Keys(code, base, before)
    requires var i := Owner(before, o);
             after == if i >= 0 then before[i := Shade(before[i], unmarked, o * GRAIN)] else before
    ensures H.Keys(code, base, after)
  {
    assert |before| == 20;
    hide H.Keys, Owner;
    H.RecolouredKeys(code, base, before, after);
  }

  lemma TracedIsGrayed(before: H.Colourings, after: H.Colourings, owner: M.Owners, o: P.Obj, unmarked: Colour)
    requires M.Traced(before, after, owner, o * GRAIN, unmarked) && M.Resolves(before, owner)
    ensures var i := Owner(before, o);
            after == if i >= 0 then before[i := Shade(before[i], unmarked, o * GRAIN)] else before
  {
    var i := Owner(before, o);
    if i >= 0 {
      assert owner(o * GRAIN) == i;
      assert before[i := before[i]] == before;
    }
  }

  // ---------------------------------------------------------------- scanning

  lemma PickIs(k: Machine, o: P.Obj) returns (k': Machine)
    requires InOrder(k) && k.rest.gc.PickGray? && o in View(k).colour && View(k).colour[o] == Gray
    ensures k' == Machine(k.mem, Rest(P.AfterCollect(View(k), P.Pick(o)))) && Moves(k, Control(P.Pick(o)), k')
    ensures k'.rest.gc.ScanSlots? && k'.rest.gc.src == P.To(o)
  {
    var s := View(k);
    CollectorStep(s, P.Pick(o));
    k' := Machine(k.mem, Rest(P.AfterCollect(s, P.Pick(o))));
  }

  /** The object at a cursor is gray in the view. */
  lemma CursorSeen(heap: H.Heap, k: Machine, i: nat)
    requires heap.Valid() && MemoryOf(heap) == k.mem && InOrder(k) && i < 20
    ensures var a := heap.Marks()[i].cursor;
            a != NULL ==>
              && a >= 0 && a == ObjectOf(a) * GRAIN
              && ObjectOf(a) in View(k).colour && View(k).colour[ObjectOf(a)] == Gray
  {
    hide InOrder, View, Group.Valid, H.Keys, PageTable.Valid, H.Assigned, Colouring;
    var group := heap.groups[i];
    if At(group.shape.main, group.shape.grays - 1) != NULL {
      FirstGray(group, heap.marked, heap.unmarked);
      Seen(k, i, At(group.shape.main, group.shape.grays - 1));
    }
  }

  lemma PickMove(heap: H.Heap, ks: seq<Machine>, i: nat) returns (k': Machine)
    requires Tracks(heap, ks) && Now(ks).rest.gc.PickGray? && i < |heap.Marks()| == 20 && heap.Marks()[i].cursor != NULL
    ensures var o := ObjectOf(heap.Marks()[i].cursor);
            o >= 0 && Moves(Now(ks), Control(P.Pick(o)), k') && Tracks(heap, ks + [k'])
  {
    var k := Now(ks);
    NowTyped(ks);
    hide MachineRun, View, InOrder, Moves, H.Heap.Valid, H.MarksOf, ColourMap;
    CursorSeen(heap, k, i);
    var o := ObjectOf(heap.Marks()[i].cursor);
    k' := PickIs(k, o);
    assert ScansCursor(k'.rest.gc, heap.Marks());
    TracksOn(heap, ks, Control(P.Pick(o)), k');
  }

  /** The cursor of group i: if it is on an object, that one can be picked, and now is. */
  method PerformPick(heap: H.Heap, ghost ks: seq<Machine>, i: nat) returns (current: int, ghost k': Machine)
    requires Tracks(heap, ks) && Now(ks).rest.gc.PickGray? && i < 20
    ensures current == heap.Marks()[i].cursor
    ensures current != NULL ==>
              current >= 0 && Moves(Now(ks), Control(P.Pick(ObjectOf(current))), k') && Tracks(heap, ks + [k'])
  {
    k' := Now(ks);
    hide MachineRun, Moves, Tiles, Listed, H.Keys, H.Assigned, Good;
    current := heap.groups[i].NextToScan(heap.marked, heap.unmarked);
    if current != NULL { k' := PickMove(heap, ks, i); }
  }

  lemma QuietIsNoGray(heap: H.Heap, k: Machine)
    requires heap.Valid() && MemoryOf(heap) == k.mem && InOrder(k) && heap.Quiet()
    ensures forall o | o in View(k).colour :: View(k).colour[o] != Gray
  {
    H.MarksMean(heap.groups);
    hide Group.Valid, H.Keys, PageTable.Valid, H.Assigned, Colouring, H.NoGrays;
    forall o | o in View(k).colour ensures View(k).colour[o] != Gray {
      var i := Owner(k.mem.colours, o);
      M.NoGrayLeft(heap.groups[i], heap.marked, heap.unmarked);
    }
  }

  lemma BeginSweepIs(s: P.State)
    requires s.gc.PickGray?
    ensures P.CanCollect(s, P.BeginSweep) <==> forall o | o in s.colour :: s.colour[o] != Gray
  {
    if Gray !in s.colour.Values {
      forall o | o in s.colour ensures s.colour[o] != Gray { assert s.colour[o] in s.colour.Values; }
    }
  }

  /** When no group has a cursor left, and only then, the sweep of the write vector may begin. */
  lemma SweepMayBegin(heap: H.Heap, ks: seq<Machine>)
    requires Tracks(heap, ks) && Now(ks).rest.gc.PickGray?
    ensures heap.Quiet() <==> P.CanCollect(View(Now(ks)), P.BeginSweep)
  {
    var k := Now(ks);
    NowTyped(ks);
    BeginSweepIs(View(k));
    hide MachineRun, InOrder, H.Heap.Valid, H.Heap.Quiet, ColourMap, P.CanCollect, View;
    if heap.Quiet() { QuietIsNoGray(heap, k); }
    if P.CanCollect(View(k), P.BeginSweep) { NoGrayIsQuiet(heap, k); }
  }

  lemma ScannedIs(k: Machine, o: P.Obj) returns (k': Machine)
    requires P.CanCollect(View(k), P.SlotsDone) && k.rest.gc.src == P.To(o)
    ensures k' == Machine(Blackens(k.mem, o), Rest(P.AfterCollect(View(k), P.SlotsDone))) && Moves(k, ScanDone, k')
    ensures k'.rest.gc.PickGray?
  {
    k' := Machine(Blackens(k.mem, o), Rest(P.AfterCollect(View(k), P.SlotsDone)));
  }

  /** Group.Scanned, when every slot of the object has been traced: it still is where the cursor is. */
  method PerformScanned(heap: H.Heap, ghost ks: seq<Machine>, o: P.Obj) returns (ghost k': Machine)
    requires Tracks(heap, ks) && P.CanCollect(View(Now(ks)), P.SlotsDone) && Now(ks).rest.gc.src == P.To(o)
    modifies heap.groups
    ensures Moves(Now(ks), ScanDone, k') && Tracks(heap, ks + [k'])
  {
    ghost var k := Now(ks);
    k' := ScannedIs(k, o);
    hide MachineRun, Moves, View, P.AfterCollect, P.CanCollect, H.Heap.Valid, Blackens;
    BlackenOneObject(heap, o);
    TracksOn(heap, ks, ScanDone, k');
  }

  method BlackenOneObject(heap: H.Heap, o: P.Obj)
    requires heap.Valid() && CursorAt(heap.Marks(), o * GRAIN)
    modifies heap.groups
    ensures heap.Valid() && MemoryOf(heap) == Blackens(old(MemoryOf(heap)), o)
  {
    hide Good, Tiles, Listed, PageTable.Valid, PageTable.Linked, H.Keys, H.Assigned, H.ColoursOf, H.MarksOf;
    hide Group.Valid, Blacken, Owner, Colouring;
    ghost var before := heap.Colours();
    var i := CursorGroup(heap, o);
    assert forall j | 0 <= j < 20 && j != i :: heap.groups[j] != heap.groups[i];
    heap.groups[i].Scanned(o * GRAIN, heap.marked, heap.unmarked);
    OneGroupChanged(heap.groups, i, before, Blacken(before[i], heap.marked, o * GRAIN));
    BlackenedKeys(heap.table.code[..], heap.table.base[..], before, i, o, heap.marked);
  }

  /** Which group's cursor is on the object: the one the page table names. */
  method CursorGroup(heap: H.Heap, o: P.Obj) returns (i: nat)
    requires heap.Valid() && CursorAt(heap.Marks(), o * GRAIN)
    ensures i < 20 && heap.groups[i].shape.grays > 0 && o * GRAIN in heap.groups[i].hdr
    ensures o * GRAIN == At(heap.groups[i].shape.main, heap.groups[i].shape.grays - 1)
    ensures Owner(heap.Colours(), o) == i
  {
    ghost var g :| 0 <= g < |heap.groups| && heap.Marks()[g].cursor == o * GRAIN;
    var owner := F.OwnerIn(heap.table.code[..]);
    F.OwnerResolves(heap.table.code[..], heap.table.base[..], heap.Colours());
    FirstGray(heap.groups[g], heap.marked, heap.unmarked);
    assert owner(o * GRAIN) == g;
    i := owner(o * GRAIN);
  }

  lemma BlackenedKeys(code: seq<int>, base: seq<int>, before: H.Colourings, i: nat, o: P.Obj, marked: Colour)
    requires H.Keys(code, base, before) && i < 20 && o * GRAIN in before[i]
    ensures H.Keys(code, base, before[i := Blacken(before[i], marked, o * GRAIN)])
  {
    H.RecolouredKeys(code, base, before, before[i := Blacken(before[i], marked, o * GRAIN)]);
  }

  // ---------------------------------------------------------------- a stretch of the cycle

  /** The colours when the groups before i have been recycled. */
  predicate RecycledTo(before: H.Colourings, after: H.Colourings, unmarked: Colour, i: nat) {
    && |after| == |before|
    && forall j | 0 <= j < |before| :: after[j] == if j < i then Recycled(before[j], unmarked) else before[j]
  }

  lemma RecycledNext(k0: Machine, k: Machine, i: nat, k': Machine)
    requires RecycledTo(k0.mem.colours, k.mem.colours, k0.mem.unmarked, i) && k.mem.unmarked == k0.mem.unmarked
    requires Moves(k, RecycleGroup(i), k')
    ensures RecycledTo(k0.mem.colours, k'.mem.colours, k0.mem.unmarked, i + 1)
    ensures k'.mem == k.mem.(colours := k'.mem.colours) && k'.rest == k.rest
  {}

  /** No object is white any more. */
  ghost predicate NoneIsWhite(m: Simulation.Memory) {
    forall i, a | HeaderIn(m.colours, i, a) :: m.colours[i][a] != m.unmarked
  }

  lemma CoalescedStays(k: Machine, k': Machine)
    requires Moves(k, Coalesce, k') && NoneIsWhite(k.mem)
    ensures k'.rest == k.rest && NoneIsWhite(k'.mem)
  {
    forall i, a | HeaderIn(k'.mem.colours, i, a)
      ensures HeaderIn(k.mem.colours, i, a) && k'.mem.colours[i][a] == k.mem.colours[i][a] {
      assert k'.mem.colours[i] == H.ReclaimedFrom(k.mem.code, k.mem.base, k.mem.colours, i);
    }
  }

  lemma EndCycleIs(k: Machine)
    requires InOrder(k) && k.rest.gc.Recycle? && NoneIsWhite(k.mem)
    ensures P.Enabled(View(k), P.EndCycle) && Plain(View(k), P.EndCycle)
    ensures var rest := Rest(P.After(View(k), P.EndCycle)); rest.gc.Idle? && rest.count == k.rest.count + 1
  {
    ViewRepresents(k);
    CycleCanEnd(View(k), k.mem.colours);
  }

  /** The end of recycle_all_garbage, then of full_gc. */
  method PerformLastMoves(heap: H.Heap, ghost ks: seq<Machine>) returns (ghost ks': seq<Machine>)
    requires Tracks(heap, ks) && Now(ks).rest.gc.Recycle? && NoneIsWhite(Now(ks).mem)
    requires H.Bounded(heap.table.code[..], heap.table.base[..], heap.Colours(), heap.table.flight)
    modifies heap.groups, heap.table`emptyPages, heap.table`list
    modifies heap.table.code, heap.table.base, heap.table.count, heap.table.next
    ensures ks <= ks' && Tracks(heap, ks')
    ensures Now(ks').rest.gc.Idle? && Now(ks').rest.count == Now(ks).rest.count + 1
  {
    assert ks != [];
    hide Moves, H.Bounded, Tracks, H.ColoursOf;
    ghost var k2 := PerformCoalesce(heap, ks);
    CoalescedStays(Now(ks), k2);
    ghost var k3 := EndCycleMove(heap, ks + [k2]);
    ks' := ks + [k2] + [k3];
  }

  /** recycle_all_garbage and the end of full_gc: twenty groups, then the pages, then the cycle is over. */
  method PerformRecycling(heap: H.Heap, ghost ks: seq<Machine>) returns (ghost ks': seq<Machine>)
    requires Tracks(heap, ks) && Now(ks).rest.gc.Recycle?
    requires H.Bounded(heap.table.code[..], heap.table.base[..], H.RecycledAll(heap.Colours(), heap.unmarked),
                       heap.table.flight)
    modifies heap.groups, heap.table`emptyPages, heap.table`list
    modifies heap.table.code, heap.table.base, heap.table.count, heap.table.next
    ensures ks <= ks' && Tracks(heap, ks')
    ensures Now(ks').rest.gc.Idle? && Now(ks').rest.count == Now(ks).rest.count + 1
  {
    ks' := PerformRecycleGroups(heap, ks);
    hide Tracks, H.Bounded, H.ColoursOf, H.RecycledAll, NoneIsWhite;
    ks' := PerformLastMoves(heap, ks');
  }

  lemma EndCycleMove(heap: H.Heap, ks: seq<Machine>) returns (k': Machine)
    requires Tracks(heap, ks) && Now(ks).rest.gc.Recycle?
    requires NoneIsWhite(Now(ks).mem)
    ensures Tracks(heap, ks + [k']) && k'.rest.gc.Idle? && k'.rest.count == Now(ks).rest.count + 1
  {
    assert MachineRun(ks);
    hide Tracks, MachineRun, Moves, InOrder, Plain, P.Enabled, P.After, View, Rest;
    NowTyped(ks);
    EndCycleIs(Now(ks));
    k' := PerformControl(heap, ks, P.EndCycle);
  }

  /** The loop of recycle_all_garbage. */
  method PerformRecycleGroups(heap: H.Heap, ghost ks: seq<Machine>) returns (ghost ks': seq<Machine>)
    requires Tracks(heap, ks) && Now(ks).rest.gc.Recycle?
    modifies heap.groups
    ensures ks <= ks' && Tracks(heap, ks') && Now(ks').rest == Now(ks).rest
    ensures heap.Colours() == H.RecycledAll(old(heap.Colours()), heap.unmarked)
    ensures NoneIsWhite(Now(ks').mem)
  {
    ghost var k := Now(ks);
    NowTyped(ks);
    hide MachineRun, Moves, H.Heap.Valid, ScansCursor, Recycled;
    ks' := ks;
    var i := 0;
    while i < 20
      invariant 0 <= i <= 20 && ks <= ks' && Tracks(heap, ks') && Now(ks').rest == k.rest
      invariant Now(ks').mem == k.mem.(colours := Now(ks').mem.colours)
      invariant RecycledTo(k.mem.colours, Now(ks').mem.colours, k.mem.unmarked, i)
    {
      ghost var k' := PerformRecycle(heap, ks', i);
      RecycledNext(k, Now(ks'), i, k');
      ks' := ks' + [k'];
      i := i + 1;
    }
    NoneWhite(k.mem.colours, Now(ks').mem.colours, k.mem.unmarked);
  }

  lemma NoneWhite(before: H.Colourings, after: H.Colourings, unmarked: Colour)
    requires RecycledTo(before, after, unmarked, |before|) && unmarked != Green
    ensures after == H.RecycledAll(before, unmarked)
    ensures forall i, a | HeaderIn(after, i, a) :: after[i][a] != unmarked
  {}
}
