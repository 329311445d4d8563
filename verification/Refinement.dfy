/**
 The size groups refine the transition system, one operation at a time: its colour map is
 what the headers of all groups show, and every operation on the groups is one of its steps
 or a sequence of them.  The object of the header at address a is a / 32, the number of the
 header's bit.
 */
module Refinement {
  import opened Colours
  import opened Layout
  import opened Pages
  import P = Protocol
  import H = Heaps
  import G = GroupList
  import T = ProtocolTraced

  const GRAIN := 32

  function ObjectOf(a: int): int { a / GRAIN }

  predicate HeaderIn(colours: H.Colourings, i: int, a: int) { 0 <= i < |colours| && a in colours[i] }

  /** Every header is aligned and the colour map has its colour. */
  ghost predicate Painted(colour: map<P.Obj, Colour>, colours: H.Colourings) {
    forall i, a | HeaderIn(colours, i, a) ::
      0 <= a && a % GRAIN == 0 && ObjectOf(a) in colour && colour[ObjectOf(a)] == colours[i][a]
  }

  ghost predicate OneGroupEach(colours: H.Colourings) {
    forall i, j, a | HeaderIn(colours, i, a) && HeaderIn(colours, j, a) :: i == j
  }

  /** The colour map has no objects but the headers. */
  ghost predicate NoMore(objs: set<P.Obj>, colours: H.Colourings) {
    forall o | o in objs :: exists i, a :: HeaderIn(colours, i, a) && ObjectOf(a) == o
  }

  ghost predicate Shows(colour: map<P.Obj, Colour>, colours: H.Colourings) {
    Painted(colour, colours) && OneGroupEach(colours) && NoMore(colour.Keys, colours)
  }

  ghost predicate Represents(s: P.State, colours: H.Colourings, marked: Colour, unmarked: Colour) {
    s.marked == marked && s.unmarked == unmarked && Shows(s.colour, colours)
  }

  lemma HeadersPlaced(code: seq<int>, base: seq<int>, colours: H.Colourings, i: int, a: int)
    requires H.Keys(code, base, colours) && HeaderIn(colours, i, a)
    ensures 0 <= a && a % GRAIN == 0 && PageOf(a) < |code| && code[PageOf(a)] == i + MIN_GROUP_INDEX
  {
    var c := i + MIN_GROUP_INDEX;
    assert IsGroup(c) && Keyed(code, base, c, colours[c - MIN_GROUP_INDEX]);
    assert HeaderAt(code, base, c, a);
    HeadersAreAligned(PageOf(a), c);
  }

  /** The page table keeps headers aligned and in one group, so the colour map they show exists. */
  lemma EveryHeapShowsAColourMap(code: seq<int>, base: seq<int>, colours: H.Colourings)
    returns (colour: map<P.Obj, Colour>)
    requires H.Keys(code, base, colours)
    ensures Shows(colour, colours)
    ensures forall o | o in colour :: o < |code| * (BYTES_PER_PAGE / GRAIN)
  {
    hide H.Keys, Painted, OneGroupEach, NoMore;
    var all := set o: nat | o < |code| * (BYTES_PER_PAGE / GRAIN) && Owner(colours, o) >= 0;
    colour := map o | o in all :: colours[Owner(colours, o)][o * GRAIN];
    HeadersApart(code, base, colours);
    OwnersPaint(code, base, colours, colour);
    OwnersAreAll(colours, colour.Keys);
  }

  lemma HeadersApart(code: seq<int>, base: seq<int>, colours: H.Colourings)
    requires H.Keys(code, base, colours)
    ensures OneGroupEach(colours)
  {
    hide H.Keys;
    forall i, j, a | HeaderIn(colours, i, a) && HeaderIn(colours, j, a) ensures i == j {
      HeadersPlaced(code, base, colours, i, a);
      HeadersPlaced(code, base, colours, j, a);
    }
  }

  lemma OwnersPaint(code: seq<int>, base: seq<int>, colours: H.Colourings, colour: map<P.Obj, Colour>)
    requires H.Keys(code, base, colours)
    requires forall o: nat :: o in colour <==> o < |code| * (BYTES_PER_PAGE / GRAIN) && Owner(colours, o) >= 0
    requires forall o | o in colour ::
               HeaderIn(colours, Owner(colours, o), o * GRAIN) && colour[o] == colours[Owner(colours, o)][o * GRAIN]
    ensures Painted(colour, colours)
  {
    hide H.Keys, Owner;
    HeadersApart(code, base, colours);
    forall i, a | HeaderIn(colours, i, a)
      ensures 0 <= a && a % GRAIN == 0 && ObjectOf(a) in colour && colour[ObjectOf(a)] == colours[i][a] {
      HeadersPlaced(code, base, colours, i, a);
      assert ObjectOf(a) * GRAIN == a;
      assert Owner(colours, ObjectOf(a)) >= 0;
      assert HeaderIn(colours, Owner(colours, ObjectOf(a)), a);
    }
  }

  lemma OwnersAreAll(colours: H.Colourings, objs: set<P.Obj>)
    requires forall o | o in objs :: Owner(colours, o) >= 0
    ensures NoMore(objs, colours)
  {
    hide Owner;
    forall o | o in objs ensures HeaderIn(colours, Owner(colours, o), o * GRAIN) && ObjectOf(o * GRAIN) == o {}
  }

  /** The group whose header object o is, or -1. */
  function Owner(colours: H.Colourings, o: nat): (r: int)
    ensures r >= 0 ==> HeaderIn(colours, r, o * GRAIN)
    ensures r < 0 ==> r == -1 && forall i | 0 <= i < |colours| :: o * GRAIN !in colours[i]
  {
    OwnerFrom(colours, o, 0)
  }

  function OwnerFrom(colours: H.Colourings, o: nat, i: nat): (r: int)
    requires i <= |colours|
    ensures r >= 0 ==> i <= r && HeaderIn(colours, r, o * GRAIN)
    ensures r < 0 ==> r == -1 && forall j | i <= j < |colours| :: o * GRAIN !in colours[j]
    decreases |colours| - i
  {
    if i == |colours| then -1 else if o * GRAIN in colours[i] then i else OwnerFrom(colours, o, i + 1)
  }

  // ---------------------------------------------------------------- one header changes colour

  lemma SameHeaders(objs: set<P.Obj>, colours: H.Colourings, colours': H.Colourings)
    requires OneGroupEach(colours) && NoMore(objs, colours)
    requires |colours'| == |colours| && forall i | 0 <= i < |colours| :: colours'[i].Keys == colours[i].Keys
    ensures OneGroupEach(colours') && NoMore(objs, colours')
  {
    forall i, a ensures HeaderIn(colours', i, a) <==> HeaderIn(colours, i, a) {
      if 0 <= i < |colours| { assert a in colours'[i].Keys <==> a in colours[i].Keys; }
    }
    forall o | o in objs ensures exists i, a :: HeaderIn(colours', i, a) && ObjectOf(a) == o {
      var i, a :| HeaderIn(colours, i, a) && ObjectOf(a) == o;
      assert HeaderIn(colours', i, a);
    }
  }

  lemma PaintOne(colour: map<P.Obj, Colour>, colours: H.Colourings, i: nat, a: int, c: Colour)
    requires Painted(colour, colours) && OneGroupEach(colours) && HeaderIn(colours, i, a)
    ensures a >= 0 && ObjectOf(a) in colour && Painted(colour[ObjectOf(a) := c], colours[i := colours[i][a := c]])
  {
    var colours' := colours[i := colours[i][a := c]];
    forall j, b | HeaderIn(colours', j, b)
      ensures HeaderIn(colours, j, b) && 0 <= b && b % GRAIN == 0 && (ObjectOf(b) == ObjectOf(a) ==> b == a && j == i) {
      assert HeaderIn(colours, j, b);
    }
  }

  lemma Repaint(colour: map<P.Obj, Colour>, colours: H.Colourings, i: nat, a: int, c: Colour)
    requires Shows(colour, colours) && HeaderIn(colours, i, a)
    ensures a >= 0 && ObjectOf(a) in colour && colour[ObjectOf(a)] == colours[i][a]
    ensures Shows(colour[ObjectOf(a) := c], colours[i := colours[i][a := c]])
  {
    hide NoMore;
    PaintOne(colour, colours, i, a, c);
    SameHeaders(colour.Keys, colours, colours[i := colours[i][a := c]]);
    assert colour[ObjectOf(a) := c].Keys == colour.Keys;
  }

  /** The steps that gray an object if it is white. */
  predicate Traces(st: P.Step) { st.TraceRoot? || st.TraceSlot? || st.ShadeHit? }

  lemma TracesShade(s: P.State, st: P.Step)
    requires P.CanCollect(s, st) && Traces(st)
    ensures P.AfterCollect(s, st).colour == Shade(s.colour, s.unmarked, T.Target(s, st))
    ensures P.AfterCollect(s, st).marked == s.marked && P.AfterCollect(s, st).unmarked == s.unmarked
  {}

  lemma ShadeShows(colour: map<P.Obj, Colour>, colours: H.Colourings, i: nat, a: int, unmarked: Colour)
    requires Shows(colour, colours) && HeaderIn(colours, i, a)
    ensures a >= 0 && Shows(Shade(colour, unmarked, ObjectOf(a)), colours[i := Shade(colours[i], unmarked, a)])
  {
    hide Shows;
    Repaint(colour, colours, i, a, Gray);
    assert colours[i := colours[i]] == colours;
  }

  /** RTmake_object_gray on the header it is called for is TraceRoot, TraceSlot or ShadeHit. */
  lemma MakeGrayRefines(s: P.State, st: P.Step, colours: H.Colourings, i: nat, a: int)
    requires Represents(s, colours, s.marked, s.unmarked) && HeaderIn(colours, i, a) && a >= 0
    requires P.CanCollect(s, st) && Traces(st) && T.Target(s, st) == ObjectOf(a)
    ensures Represents(P.AfterCollect(s, st), colours[i := Shade(colours[i], s.unmarked, a)], s.marked, s.unmarked)
  {
    hide Shows;
    TracesShade(s, st);
    ShadeShows(s.colour, colours, i, a, s.unmarked);
  }

  /** The end of scan_object_with_group is SlotsDone. */
  lemma ScannedRefines(s: P.State, colours: H.Colourings, i: nat, a: int)
    requires Represents(s, colours, s.marked, s.unmarked) && HeaderIn(colours, i, a) && a >= 0
    requires P.CanCollect(s, P.SlotsDone) && s.gc.src == P.To(ObjectOf(a))
    ensures Represents(P.AfterCollect(s, P.SlotsDone), colours[i := Blacken(colours[i], s.marked, a)], s.marked,
                       s.unmarked)
  {
    hide Shows;
    Repaint(s.colour, colours, i, a, s.marked);
  }

  /** The free_lock section of RTallocate is Alloc, and its enabling condition is that the header is green. */
  lemma AllocateRefines(s: P.State, colours: H.Colourings, i: nat, a: int, m: P.Mid, body: map<nat, P.Ref>)
    requires Represents(s, colours, s.marked, s.unmarked) && HeaderIn(colours, i, a) && colours[i][a] == Green
    requires P.MutatorReady(s, m)
    ensures a >= 0 && P.CanMutate(s, P.Alloc(m, ObjectOf(a), body))
    ensures Represents(P.AfterMutate(s, P.Alloc(m, ObjectOf(a), body)), colours[i := colours[i][a := s.marked]],
                       s.marked, s.unmarked)
  {
    hide Shows;
    Repaint(s.colour, colours, i, a, s.marked);
  }

  // ---------------------------------------------------------------- headers appear and disappear

  /** init_pages_for_group is Publish. */
  lemma CommitRefines(s: P.State, code: seq<int>, base: seq<int>, colours: H.Colourings, p: int, c: int,
                      objs: set<P.Obj>)
    requires Represents(s, colours, s.marked, s.unmarked) && H.Keys(code, base, colours) && IsGroup(c)
    requires EmptyRun(code, p, PagesPerBlock(c)) && s.bitCount == |code| * (BYTES_PER_PAGE / GRAIN)
    requires forall o :: o in objs <==> o * GRAIN in HeadersOn(p, c)
    ensures P.CanMutate(s, P.Publish(objs))
    ensures Represents(P.AfterMutate(s, P.Publish(objs)), H.WithBlock(colours, p, c), s.marked, s.unmarked)
  {
    assert |colours| == 20;
    hide H.Keys, HeadersOn, Shows, EmptyRun;
    FreshObjects(s.colour, s.bitCount, code, base, colours, p, c, objs);
    FreshEverywhere(code, base, colours, p, c);
    assert objs !! s.colour.Keys;
    var t := P.AfterMutate(s, P.Publish(objs));
    AddHeaders(s.colour, colours, c - MIN_GROUP_INDEX, HeadersOn(p, c), objs, t.colour, H.WithBlock(colours, p, c));
  }

  lemma FreshObjects(colour: map<P.Obj, Colour>, bitCount: nat, code: seq<int>, base: seq<int>, colours: H.Colourings,
                     p: int, c: int, objs: set<P.Obj>)
    requires Shows(colour, colours) && H.Keys(code, base, colours) && IsGroup(c)
    requires EmptyRun(code, p, PagesPerBlock(c)) && bitCount == |code| * (BYTES_PER_PAGE / GRAIN)
    requires forall o :: o in objs <==> o * GRAIN in HeadersOn(p, c)
    ensures forall a | a in HeadersOn(p, c) :: 0 <= a && a % GRAIN == 0 && ObjectOf(a) in objs
    ensures forall o | o in objs :: o !in colour && o < bitCount
  {
    HeadersOnFirstPage(p, c);
    HeadersAreAligned(p, c);
    FreshEverywhere(code, base, colours, p, c);
    BlockIsFull(c);
    assert 0 <= p < |code|;
    hide H.Keys, HeadersOn, Shows, EmptyRun;
    forall a | a in HeadersOn(p, c) ensures ObjectOf(a) in objs { assert ObjectOf(a) * GRAIN == a; }
    forall o | o in objs ensures o !in colour && o < bitCount {
      assert PageOf(o * GRAIN) == p;
      ShownHeader(colour, colours, o);
    }
  }

  lemma ShownHeader(colour: map<P.Obj, Colour>, colours: H.Colourings, o: P.Obj)
    requires Shows(colour, colours)
    ensures o in colour ==> exists i :: HeaderIn(colours, i, o * GRAIN)
  {
    if o in colour {
      var i, a :| HeaderIn(colours, i, a) && ObjectOf(a) == o;
      assert a == o * GRAIN;
    }
  }

  ghost predicate Added(colours: H.Colourings, i: nat, headers: seq<int>, colours': H.Colourings) {
    && i < |colours| == |colours'|
    && (forall j, a :: HeaderIn(colours', j, a) <==> HeaderIn(colours, j, a) || (j == i && a in headers))
    && (forall j, a | HeaderIn(colours, j, a) :: a !in headers && colours'[j][a] == colours[j][a])
    && (forall a | a in headers :: HeaderIn(colours', i, a) && colours'[i][a] == Green)
  }

  lemma AddedPainted(colour: map<P.Obj, Colour>, colours: H.Colourings, i: nat, headers: seq<int>, objs: set<P.Obj>,
                     colour': map<P.Obj, Colour>, colours': H.Colourings)
    requires Painted(colour, colours) && Added(colours, i, headers, colours')
    requires forall a | a in headers :: 0 <= a && a % GRAIN == 0 && ObjectOf(a) in objs
    requires forall o | o in objs :: o !in colour && o in colour' && colour'[o] == Green
    requires forall o | o in colour :: o in colour' && colour'[o] == colour[o]
    ensures Painted(colour', colours')
  {
    forall j, a | HeaderIn(colours', j, a)
      ensures 0 <= a && a % GRAIN == 0 && ObjectOf(a) in colour' && colour'[ObjectOf(a)] == colours'[j][a] {
      if HeaderIn(colours, j, a) { assert ObjectOf(a) in colour; }
    }
  }

  lemma AddedNoMore(objs: set<P.Obj>, colours: H.Colourings, i: nat, headers: seq<int>, more: set<P.Obj>,
                    colours': H.Colourings)
    requires NoMore(objs, colours) && Added(colours, i, headers, colours')
    requires forall o | o in more :: o * GRAIN in headers
    ensures NoMore(objs + more, colours')
  {
    forall o | o in objs + more ensures exists j, a :: HeaderIn(colours', j, a) && ObjectOf(a) == o {
      if o in objs {
        var j, a :| HeaderIn(colours, j, a) && ObjectOf(a) == o;
        assert HeaderIn(colours', j, a);
      } else {
        assert HeaderIn(colours', i, o * GRAIN) && ObjectOf(o * GRAIN) == o;
      }
    }
  }

  lemma AddedBlock(colours: H.Colourings, i: nat, headers: seq<int>, colours': H.Colourings)
    requires i < |colours| && colours' == colours[i := colours[i] + G.Greens(headers)] && OneGroupEach(colours)
    requires forall a | a in headers :: forall j :: !HeaderIn(colours, j, a)
    ensures Added(colours, i, headers, colours') && OneGroupEach(colours')
  {
    forall j, a ensures HeaderIn(colours', j, a) <==> HeaderIn(colours, j, a) || (j == i && a in headers) {}
  }

  lemma AddHeaders(colour: map<P.Obj, Colour>, colours: H.Colourings, i: nat, headers: seq<int>, objs: set<P.Obj>,
                   colour': map<P.Obj, Colour>, colours': H.Colourings)
    requires Shows(colour, colours) && i < |colours| && colours' == colours[i := colours[i] + G.Greens(headers)]
    requires forall a | a in headers ::
               0 <= a && a % GRAIN == 0 && ObjectOf(a) in objs && forall j :: !HeaderIn(colours, j, a)
    requires forall o | o in objs :: o !in colour && o * GRAIN in headers
    requires colour'.Keys == colour.Keys + objs
    requires forall o | o in colour' :: colour'[o] == if o in objs then Green else colour[o]
    ensures Shows(colour', colours')
  {
    hide Painted, NoMore, Added, OneGroupEach;
    AddedBlock(colours, i, headers, colours');
    AddedPainted(colour, colours, i, headers, objs, colour', colours');
    AddedNoMore(colour.Keys, colours, i, headers, objs, colours');
  }

  lemma FreshEverywhere(code: seq<int>, base: seq<int>, colours: H.Colourings, p: int, c: int)
    requires H.Keys(code, base, colours) && IsGroup(c) && EmptyRun(code, p, PagesPerBlock(c))
    ensures forall j, a | a in HeadersOn(p, c) :: !HeaderIn(colours, j, a)
  {
    HeadersOnFirstPage(p, c);
    BlockIsFull(c);
    forall j, a | a in HeadersOn(p, c) ensures !HeaderIn(colours, j, a) {
      if 0 <= j < 20 {
        var d := j + MIN_GROUP_INDEX;
        assert IsGroup(d) && Keyed(code, base, d, colours[d - MIN_GROUP_INDEX]);
        assert code[p] == EMPTY_PAGE;
        assert !HeaderAt(code, base, d, a);
      }
    }
  }

  /** Giving back an all-green block is Unpublish. */
  lemma ReleaseRefines(s: P.State, colours: H.Colourings, p: int, c: int, objs: set<P.Obj>)
    requires Represents(s, colours, s.marked, s.unmarked) && IsGroup(c) && |colours| == 20 && s.gc.Recycle?
    requires H.AllGreen(colours[c - MIN_GROUP_INDEX], p, c)
    requires forall o :: o in objs <==> o * GRAIN in HeadersOn(p, c)
    ensures P.CanCollect(s, P.Unpublish(objs))
    ensures var i := c - MIN_GROUP_INDEX;
            Represents(P.AfterCollect(s, P.Unpublish(objs)), colours[i := colours[i] - Elements(HeadersOn(p, c))],
                       s.marked, s.unmarked)
  {
    var i := c - MIN_GROUP_INDEX;
    GreenObjects(s.colour, colours, i, HeadersOn(p, c), objs);
    hide HeadersOn, Shows;
    DropHeaders(s.colour, colours, i, HeadersOn(p, c), objs);
  }

  lemma GreenObjects(colour: map<P.Obj, Colour>, colours: H.Colourings, i: nat, headers: seq<int>, objs: set<P.Obj>)
    requires Painted(colour, colours) && i < |colours|
    requires forall a | a in headers :: a in colours[i] && colours[i][a] == Green
    requires forall o | o in objs :: o * GRAIN in headers
    ensures forall o | o in objs :: o in colour && colour[o] == Green
  {
    forall o | o in objs ensures o in colour && colour[o] == Green {
      assert HeaderIn(colours, i, o * GRAIN) && ObjectOf(o * GRAIN) == o;
    }
  }

  lemma DroppedHeader(colours: H.Colourings, i: nat, headers: seq<int>, j: int, a: int)
    requires OneGroupEach(colours) && i < |colours| && forall b | b in headers :: b in colours[i]
    ensures HeaderIn(colours[i := colours[i] - Elements(headers)], j, a) <==> HeaderIn(colours, j, a) && a !in headers
  {
    var colours' := colours[i := colours[i] - Elements(headers)];
    assert a in headers <==> a in Elements(headers);
    if a in headers {
      assert HeaderIn(colours, i, a);
      assert HeaderIn(colours, j, a) ==> j == i;
    }
    if 0 <= j < |colours| && j != i { assert colours'[j] == colours[j]; }
  }

  lemma DropHeaders(colour: map<P.Obj, Colour>, colours: H.Colourings, i: nat, headers: seq<int>, objs: set<P.Obj>)
    requires Shows(colour, colours) && i < |colours| && forall a | a in headers :: a in colours[i]
    requires forall o :: o in objs <==> o * GRAIN in headers
    ensures Shows(colour - objs, colours[i := colours[i] - Elements(headers)])
  {
    var colours' := colours[i := colours[i] - Elements(headers)];
    forall j, a ensures HeaderIn(colours', j, a) <==> HeaderIn(colours, j, a) && a !in headers {
      DroppedHeader(colours, i, headers, j, a);
    }
    DroppedPainted(colour, colours, headers, objs, colours');
    forall o | o in (colour - objs).Keys ensures exists j, a :: HeaderIn(colours', j, a) && ObjectOf(a) == o {
      var j, a :| HeaderIn(colours, j, a) && ObjectOf(a) == o;
      assert a == o * GRAIN;
      assert HeaderIn(colours', j, a);
    }
  }

  lemma DroppedPainted(colour: map<P.Obj, Colour>, colours: H.Colourings, headers: seq<int>, objs: set<P.Obj>,
                       colours': H.Colourings)
    requires Painted(colour, colours) && |colours'| == |colours|
    requires forall j, a :: HeaderIn(colours', j, a) <==> HeaderIn(colours, j, a) && a !in headers
    requires forall j, a | HeaderIn(colours', j, a) :: colours'[j][a] == colours[j][a]
    requires forall o :: o in objs <==> o * GRAIN in headers
    ensures Painted(colour - objs, colours')
  {
    forall j, a | HeaderIn(colours', j, a)
      ensures ObjectOf(a) in colour - objs && (colour - objs)[ObjectOf(a)] == colours'[j][a] {
      assert HeaderIn(colours, j, a) && ObjectOf(a) * GRAIN == a;
    }
  }

  // ---------------------------------------------------------------- all groups at once

  /** A sequence of RecycleOne steps. */
  ghost predicate Recycling(s: P.State, run: seq<P.State>, t: P.State) {
    run != [] && run[0] == s && run[|run| - 1] == t && forall k: nat | k + 1 < |run| :: RecycleStep(run, k)
  }

  ghost predicate RecycleStep(run: seq<P.State>, k: nat)
    requires k + 1 < |run|
  {
    exists o :: P.CanCollect(run[k], P.RecycleOne(o)) && run[k + 1] == P.AfterCollect(run[k], P.RecycleOne(o))
  }

  function Greening(colour: map<P.Obj, Colour>, objs: set<P.Obj>): map<P.Obj, Colour> {
    map o | o in colour :: if o in objs then Green else colour[o]
  }

  lemma {:induction false} RecycleSome(s: P.State, whites: set<P.Obj>) returns (run: seq<P.State>, t: P.State)
    requires s.gc.Recycle? && s.unmarked != Green && forall o | o in whites :: P.White(s, o)
    ensures Recycling(s, run, t) && t == s.(colour := Greening(s.colour, whites))
    decreases whites
  {
    if o :| o in whites {
      var s1 := P.AfterCollect(s, P.RecycleOne(o));
      var rest;
      rest, t := RecycleSome(s1, whites - {o});
      run := [s] + rest;
      forall k: nat | k + 1 < |run| ensures RecycleStep(run, k) {
        if k == 0 {
          assert P.CanCollect(s, P.RecycleOne(o)) && run[1] == s1;
        } else {
          assert RecycleStep(rest, k - 1) && run[k] == rest[k - 1] && run[k + 1] == rest[k];
        }
      }
      assert Greening(s1.colour, whites - {o}) == Greening(s.colour, whites);
    } else {
      run, t := [s], s;
      assert Greening(s.colour, whites) == s.colour;
    }
  }

  /** recycle_group_garbage is a sequence of RecycleOne steps. */
  lemma RecycleRefines(s: P.State, colours: H.Colourings, i: nat) returns (run: seq<P.State>, t: P.State)
    requires Represents(s, colours, s.marked, s.unmarked) && s.gc.Recycle? && s.unmarked != Green && i < |colours|
    ensures Recycling(s, run, t) && t == s.(colour := t.colour)
    ensures Represents(t, colours[i := Recycled(colours[i], s.unmarked)], s.marked, s.unmarked)
  {
    var whites := set o | o in s.colour && o * GRAIN in colours[i] && s.colour[o] == s.unmarked;
    run, t := RecycleSome(s, whites);
    RecycledShows(s.colour, colours, i, s.unmarked, whites);
  }

  lemma RecycledShows(colour: map<P.Obj, Colour>, colours: H.Colourings, i: nat, unmarked: Colour, whites: set<P.Obj>)
    requires Shows(colour, colours) && i < |colours|
    requires forall o: nat :: o in whites <==> o in colour && o * GRAIN in colours[i] && colour[o] == unmarked
    ensures Shows(Greening(colour, whites), colours[i := Recycled(colours[i], unmarked)])
  {
    var colours' := colours[i := Recycled(colours[i], unmarked)];
    SameHeaders(colour.Keys, colours, colours');
    hide NoMore;
    forall j, a | HeaderIn(colours', j, a)
      ensures 0 <= a && a % GRAIN == 0 && ObjectOf(a) in colour
      ensures Greening(colour, whites)[ObjectOf(a)] == colours'[j][a] {
      assert a in colours'[j].Keys && HeaderIn(colours, j, a) && ObjectOf(a) * GRAIN == a;
      if a in colours[i] { assert HeaderIn(colours, i, a); }
    }
    assert Greening(colour, whites).Keys == colour.Keys;
  }

  /** When no header is white any more the cycle can end. */
  lemma CycleCanEnd(s: P.State, colours: H.Colourings)
    requires Represents(s, colours, s.marked, s.unmarked) && s.gc.Recycle?
    ensures P.CanCollect(s, P.EndCycle) <==> forall i, a | HeaderIn(colours, i, a) :: colours[i][a] != s.unmarked
  {
    forall i, a | HeaderIn(colours, i, a) ensures ObjectOf(a) in s.colour && s.colour[ObjectOf(a)] == colours[i][a] {}
    forall o | o in s.colour
      ensures exists i, a :: HeaderIn(colours, i, a) && ObjectOf(a) == o && colours[i][a] == s.colour[o] {
      var i, a :| HeaderIn(colours, i, a) && ObjectOf(a) == o;
    }
  }

  // ---------------------------------------------------------------- pages are given back

  /** A header that goes when pages are given back is green. */
  lemma GoneIsGreen(code: seq<int>, base: seq<int>, colours: H.Colourings, i: nat, a: int)
    requires H.Keys(code, base, colours) && i < 20 && a in colours[i] && a !in H.Reclaimed(code, base, colours)[i]
    ensures colours[i][a] == Green
  {
    if colours[i][a] != Green { H.AllocatedStay(code, base, colours, i, a); }
  }

  /** coalesce_all_free_pages is one Unpublish of the objects of all unused blocks. */
  lemma CoalesceRefines(s: P.State, code: seq<int>, base: seq<int>, colours: H.Colourings, colours': H.Colourings)
    returns (objs: set<P.Obj>)
    requires Represents(s, colours, s.marked, s.unmarked) && s.gc.Recycle? && H.Keys(code, base, colours)
    requires colours' == H.Reclaimed(code, base, colours)
    ensures P.CanCollect(s, P.Unpublish(objs))
    ensures Represents(P.AfterCollect(s, P.Unpublish(objs)), colours', s.marked, s.unmarked)
  {
    objs := set o | o in s.colour && Owner(colours', o) < 0;
    forall i, a ensures HeaderIn(colours', i, a) ==> HeaderIn(colours, i, a) && colours'[i][a] == colours[i][a] {}
    GoneObjects(s.colour, code, base, colours, colours', objs);
    hide H.Keys, H.Reclaimed, Owner;
    ReclaimedShows(s.colour, colours, colours', objs);
  }

  lemma GoneObjects(colour: map<P.Obj, Colour>, code: seq<int>, base: seq<int>, colours: H.Colourings,
                    colours': H.Colourings, objs: set<P.Obj>)
    requires Shows(colour, colours) && H.Keys(code, base, colours) && colours' == H.Reclaimed(code, base, colours)
    requires forall o | o in objs :: o in colour && Owner(colours', o) < 0
    ensures forall o | o in objs :: colour[o] == Green
  {
    assert |colours| == 20;
    hide H.Keys, H.Reclaimed;
    forall o | o in objs ensures colour[o] == Green {
      ShownHeader(colour, colours, o);
      var i :| HeaderIn(colours, i, o * GRAIN);
      assert ObjectOf(o * GRAIN) == o;
      GoneIsGreen(code, base, colours, i, o * GRAIN);
    }
  }

  lemma ReclaimedShows(colour: map<P.Obj, Colour>, colours: H.Colourings, colours': H.Colourings, objs: set<P.Obj>)
    requires Shows(colour, colours)
    requires forall i, a | HeaderIn(colours', i, a) :: HeaderIn(colours, i, a) && colours'[i][a] == colours[i][a]
    requires forall o | o in colour :: o in objs <==> Owner(colours', o) < 0
    ensures Shows(colour - objs, colours')
  {
    forall i, a | HeaderIn(colours', i, a)
      ensures 0 <= a && a % GRAIN == 0 && ObjectOf(a) in colour - objs
      ensures (colour - objs)[ObjectOf(a)] == colours'[i][a] {
      assert HeaderIn(colours, i, a) && ObjectOf(a) * GRAIN == a;
      assert Owner(colours', ObjectOf(a)) >= 0;
    }
    forall o | o in (colour - objs).Keys ensures exists i, a :: HeaderIn(colours', i, a) && ObjectOf(a) == o {
      assert HeaderIn(colours', Owner(colours', o), o * GRAIN) && ObjectOf(o * GRAIN) == o;
    }
  }

  // ---------------------------------------------------------------- the colour map is determined

  lemma ShowsOnlyOne(colour: map<P.Obj, Colour>, colour': map<P.Obj, Colour>, colours: H.Colourings)
    requires Shows(colour, colours) && Shows(colour', colours)
    ensures colour == colour'
  {
    forall o ensures o in colour <==> o in colour' {
      if o in colour { var i, a :| HeaderIn(colours, i, a) && ObjectOf(a) == o; }
      if o in colour' { var i, a :| HeaderIn(colours, i, a) && ObjectOf(a) == o; }
    }
    forall o | o in colour ensures colour'[o] == colour[o] { var i, a :| HeaderIn(colours, i, a) && ObjectOf(a) == o; }
  }
}
