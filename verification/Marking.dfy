/**
 scan_gray_set over all groups, with no mutator running: the nested loops end, leave no
 gray object, and blacken exactly the white objects reachable from the gray ones.
 */
module Marking {
  import opened Colours
  import opened Links
  import opened GroupList
  import H = Heaps

  /**
   refs(a): what the words of object a name, once rounded down to where an object would
   start.  owner(a): the group the page table gives for a, if any.
   */
  type Refs = int -> seq<int>
  type Owners = int -> int

  predicate IsObject(cs: H.Colourings, owner: Owners, x: int) { 0 <= owner(x) < |cs| && x in cs[owner(x)] }

  function Col(cs: H.Colourings, owner: Owners, x: int): Colour
    requires IsObject(cs, owner, x)
  {
    cs[owner(x)][x]
  }

  /** Every header is looked up in its own group. */
  ghost predicate Resolves(cs: H.Colourings, owner: Owners) {
    forall i, x | 0 <= i < |cs| && x in cs[i] :: owner(x) == i
  }

  // ---------------------------------------------------------------- reachability

  ghost predicate ClosedUnder(cs: H.Colourings, owner: Owners, refs: Refs, unmarked: Colour, C: set<int>) {
    && (forall x | IsObject(cs, owner, x) && Col(cs, owner, x) == Gray :: x in C)
    && (forall x, t | x in C && IsObject(cs, owner, x) && t in refs(x) && IsObject(cs, owner, t)
                      && Col(cs, owner, t) == unmarked :: t in C)
  }

  /** x is gray, or white and reached from a gray object through white ones. */
  ghost predicate Reachable(cs: H.Colourings, owner: Owners, refs: Refs, unmarked: Colour, x: int) {
    forall C: set<int> | ClosedUnder(cs, owner, refs, unmarked, C) :: x in C
  }

  // ---------------------------------------------------------------- progress of the marking

  predicate Moved(before: Colour, after: Colour, marked: Colour, unmarked: Colour) {
    if before == unmarked then after == unmarked || after == Gray || after == marked
    else if before == Gray then after == Gray || after == marked
    else after == before
  }

  /**
   From cs0 to cs some objects have turned gray or black, each of them reachable, and the
   black ones have been scanned.
   */
  ghost predicate Marked(cs0: H.Colourings, cs: H.Colourings, owner: Owners, refs: Refs, marked: Colour,
                         unmarked: Colour) {
    && |cs| == |cs0| && (forall i | 0 <= i < |cs| :: cs[i].Keys == cs0[i].Keys)
    && (forall x :: IsObject(cs, owner, x) <==> IsObject(cs0, owner, x))
    && (forall x | IsObject(cs0, owner, x) :: Moved(Col(cs0, owner, x), Col(cs, owner, x), marked, unmarked))
    && (forall x | IsObject(cs0, owner, x) && Col(cs, owner, x) != Col(cs0, owner, x) ::
          Reachable(cs0, owner, refs, unmarked, x))
    && (forall x, t | IsObject(cs0, owner, x) && Col(cs0, owner, x) != marked && Col(cs, owner, x) == marked
                      && t in refs(x) && IsObject(cs, owner, t) ::
          Col(cs, owner, t) != unmarked)
  }

  lemma MarkedStart(cs: H.Colourings, owner: Owners, refs: Refs, marked: Colour, unmarked: Colour)
    ensures Marked(cs, cs, owner, refs, marked, unmarked)
  {}

  /** RTmake_object_gray on a reference of a gray object. */
  lemma MarkedShade(cs0: H.Colourings, cs: H.Colourings, owner: Owners, refs: Refs, marked: Colour, unmarked: Colour,
                    x: int, t: int)
    requires Marked(cs0, cs, owner, refs, marked, unmarked) && marked != unmarked && Generation(marked)
    requires Generation(unmarked)
    requires IsObject(cs, owner, x) && Col(cs, owner, x) == Gray && t in refs(x) && IsObject(cs, owner, t)
    requires Col(cs, owner, t) == unmarked
    ensures Marked(cs0, cs[owner(t) := cs[owner(t)][t := Gray]], owner, refs, marked, unmarked)
  {
    var cs' := cs[owner(t) := cs[owner(t)][t := Gray]];
    forall y ensures IsObject(cs', owner, y) <==> IsObject(cs, owner, y) {}
    assert forall y | IsObject(cs, owner, y) :: Col(cs', owner, y) == if y == t then Gray else Col(cs, owner, y);
    ReachableNext(cs0, cs, owner, refs, marked, unmarked, x, t);
  }

  lemma ReachableNext(cs0: H.Colourings, cs: H.Colourings, owner: Owners, refs: Refs, marked: Colour, unmarked: Colour,
                      x: int, t: int)
    requires Marked(cs0, cs, owner, refs, marked, unmarked) && unmarked != Gray
    requires IsObject(cs, owner, x) && Col(cs, owner, x) == Gray && t in refs(x) && IsObject(cs, owner, t)
    requires Col(cs, owner, t) == unmarked
    ensures Reachable(cs0, owner, refs, unmarked, t)
  {
    assert IsObject(cs0, owner, x) && IsObject(cs0, owner, t);
    forall C: set<int> | ClosedUnder(cs0, owner, refs, unmarked, C) ensures t in C {
      if Col(cs0, owner, x) != Gray { assert Reachable(cs0, owner, refs, unmarked, x); }
      assert x in C;
    }
  }

  /** The end of a scan: all references of x have been seen. */
  lemma MarkedBlacken(cs0: H.Colourings, cs: H.Colourings, owner: Owners, refs: Refs, marked: Colour, unmarked: Colour,
                      x: int)
    requires Marked(cs0, cs, owner, refs, marked, unmarked) && marked != unmarked && Generation(marked)
    requires Generation(unmarked)
    requires IsObject(cs, owner, x) && Col(cs, owner, x) == Gray
    requires forall t | t in refs(x) && IsObject(cs, owner, t) :: Col(cs, owner, t) != unmarked
    ensures Marked(cs0, cs[owner(x) := cs[owner(x)][x := marked]], owner, refs, marked, unmarked)
  {
    var cs' := cs[owner(x) := cs[owner(x)][x := marked]];
    forall y ensures IsObject(cs', owner, y) <==> IsObject(cs, owner, y) {}
    assert forall y | IsObject(cs, owner, y) :: Col(cs', owner, y) == if y == x then marked else Col(cs, owner, y);
    if Col(cs0, owner, x) == Gray {
      forall C: set<int> | ClosedUnder(cs0, owner, refs, unmarked, C) ensures x in C { assert IsObject(cs0, owner, x); }
    }
  }

  /** When no gray object is left, what has turned black is exactly what was gray or white and reachable. */
  lemma MarkedIsReachable(cs0: H.Colourings, cs: H.Colourings, owner: Owners, refs: Refs, marked: Colour,
                          unmarked: Colour, x: int)
    requires Marked(cs0, cs, owner, refs, marked, unmarked) && marked != unmarked && Generation(marked)
    requires Generation(unmarked)
    requires Resolves(cs0, owner)
    requires forall y | IsObject(cs, owner, y) :: Col(cs, owner, y) != Gray
    requires IsObject(cs0, owner, x) && Col(cs0, owner, x) != marked && Col(cs0, owner, x) != Green
    ensures IsObject(cs, owner, x)
    ensures Col(cs, owner, x) == marked <==> Reachable(cs0, owner, refs, unmarked, x)
    ensures Col(cs, owner, x) == unmarked <==> !Reachable(cs0, owner, refs, unmarked, x)
  {
    if Reachable(cs0, owner, refs, unmarked, x) {
      var C := Turned(cs0, cs, owner, marked);
      forall y | IsObject(cs0, owner, y) && Col(cs0, owner, y) == Gray ensures y in C {
        InTurned(cs0, cs, owner, marked, y);
      }
      forall y, t | y in C && IsObject(cs0, owner, y) && t in refs(y) && IsObject(cs0, owner, t)
                    && Col(cs0, owner, t) == unmarked
        ensures t in C {
        InTurned(cs0, cs, owner, marked, y);
        InTurned(cs0, cs, owner, marked, t);
      }
      assert x in C;
      InTurned(cs0, cs, owner, marked, x);
    }
  }

  /** The objects that have become black. */
  function Turned(cs0: H.Colourings, cs: H.Colourings, owner: Owners, marked: Colour): set<int> {
    set i, x | 0 <= i < |cs| && x in cs[i] && owner(x) == i && IsObject(cs0, owner, x) &&
               Col(cs0, owner, x) != marked && cs[i][x] == marked :: x
  }

  lemma InTurned(cs0: H.Colourings, cs: H.Colourings, owner: Owners, marked: Colour, x: int)
    ensures x in Turned(cs0, cs, owner, marked) <==>
            IsObject(cs, owner, x) && IsObject(cs0, owner, x) && Col(cs0, owner, x) != marked &&
            Col(cs, owner, x) == marked
  {}

  // ---------------------------------------------------------------- the loops

  ghost predicate GroupsOk(gs: seq<Group>, marked: Colour, unmarked: Colour)
    reads set g | g in gs
  {
    && marked != unmarked && Generation(marked) && Generation(unmarked)
    && (forall i, j | 0 <= i < j < |gs| :: gs[i] != gs[j])
    && forall i | 0 <= i < |gs| :: gs[i].Valid(marked, unmarked)
  }

  ghost function Shapes(gs: seq<Group>): (r: seq<Shape>)
    reads set g | g in gs
    ensures |r| == |gs| && forall i | 0 <= i < |gs| :: r[i] == gs[i].shape
  {
    if gs == [] then [] else Shapes(gs[..|gs| - 1]) + [gs[|gs| - 1].shape]
  }

  /** 2 white + gray, over all groups. */
  function Work(shapes: seq<Shape>): nat {
    if shapes == [] then 0 else Work(shapes[..|shapes| - 1]) + WorkOf(shapes[|shapes| - 1])
  }

  function WorkOf(s: Shape): nat { 2 * |s.whites| + s.grays }

  lemma {:induction false} OneGroupWorked(shapes: seq<Shape>, i: nat, s: Shape)
    requires i < |shapes|
    ensures Work(shapes[i := s]) - WorkOf(s) == Work(shapes) - WorkOf(shapes[i])
  {
    var n := |shapes| - 1;
    if i == n {
      assert shapes[i := s][..n] == shapes[..n];
    } else {
      OneGroupWorked(shapes[..n], i, s);
      assert shapes[i := s][..n] == shapes[..n][i := s];
    }
  }

  lemma WhitePlace(g: Group, t: int, marked: Colour, unmarked: Colour) returns (k: nat)
    requires g.Valid(marked, unmarked) && t in g.hdr && g.hdr[t].colour == unmarked
    ensures k < |g.shape.whites| && g.shape.whites[k] == t
  {
    ColourIsPlace(g.hdr, Cut(g.gray, g.black, g.free, g.last, g.white), g.shape, marked, unmarked, t);
    k :| 0 <= k < |g.shape.whites| && g.shape.whites[k] == t;
  }

  lemma ShownColour(h: Memory, t: int)
    requires t in h
    ensures t in Colouring(h) && Colouring(h)[t] == h[t].colour
  {}

  /** x is the last gray object of the shape: the next one to be scanned. */
  predicate Next(s: Shape, x: int) {
    0 < s.grays <= |s.main| && s.main[s.grays - 1] == x
  }

  /** Graying an object of group j does less than one unit of work's worth and moves no cursor. */
  method GrayWhite(gs: seq<Group>, j: nat, t: int, marked: Colour, unmarked: Colour)
    requires GroupsOk(gs, marked, unmarked) && j < |gs| && t in gs[j].hdr && gs[j].hdr[t].colour == unmarked
    modifies gs
    ensures GroupsOk(gs, marked, unmarked)
    ensures H.ColoursOf(gs) == old(H.ColoursOf(gs))[j := old(H.ColoursOf(gs))[j][t := Gray]]
    ensures Work(Shapes(gs)) < old(Work(Shapes(gs)))
    ensures forall i, x | 0 <= i < |gs| && Next(old(gs[i].shape), x) :: Next(gs[i].shape, x)
  {
    hide Good, Group.Valid, H.ColoursOf, Shapes, Work, Colouring, SameClasses;
    ghost var k := WhitePlace(gs[j], t, marked, unmarked);
    OneGroupWorked(Shapes(gs), j, Grayed(gs[j].shape, k, t));
    ShownColour(gs[j].hdr, t);
    gs[j].MakeGray(t, k, marked, unmarked);
    assert Shapes(gs) == old(Shapes(gs))[j := gs[j].shape];
    assert H.ColoursOf(gs) == old(H.ColoursOf(gs))[j := old(H.ColoursOf(gs))[j][t := Gray]];
  }

  /** t has been made gray if it is an object and was white; nothing else has changed. */
  ghost predicate Traced(before: H.Colourings, after: H.Colourings, owner: Owners, t: int, unmarked: Colour) {
    after == if IsObject(before, owner, t) && Col(before, owner, t) == unmarked
             then before[owner(t) := before[owner(t)][t := Gray]] else before
  }

  /** Gray t if it is a white object. */
  method TraceAddress(gs: seq<Group>, t: int, owner: Owners, marked: Colour, unmarked: Colour)
    requires GroupsOk(gs, marked, unmarked)
    modifies gs
    ensures GroupsOk(gs, marked, unmarked) && Traced(old(H.ColoursOf(gs)), H.ColoursOf(gs), owner, t, unmarked)
    ensures Work(Shapes(gs)) <= old(Work(Shapes(gs)))
    ensures forall i, y | 0 <= i < |gs| && Next(old(gs[i].shape), y) :: Next(gs[i].shape, y)
  {
    hide Good, Group.Valid, GroupsOk, Work, Next;
    if 0 <= owner(t) < |gs| {
      if t in gs[owner(t)].hdr && gs[owner(t)].hdr[t].colour == unmarked {
        GrayWhite(gs, owner(t), t, marked, unmarked);
      }
    }
  }

  /** One word of x: gray what it refers to if that is white. */
  method TraceWord(gs: seq<Group>, x: int, t: int, owner: Owners, marked: Colour, unmarked: Colour, ghost refs: Refs,
                   ghost cs0: H.Colourings)
    requires GroupsOk(gs, marked, unmarked) && Marked(cs0, H.ColoursOf(gs), owner, refs, marked, unmarked)
    requires IsObject(H.ColoursOf(gs), owner, x) && Col(H.ColoursOf(gs), owner, x) == Gray
    requires t in refs(x)
    modifies gs
    ensures GroupsOk(gs, marked, unmarked) && Marked(cs0, H.ColoursOf(gs), owner, refs, marked, unmarked)
    ensures Traced(old(H.ColoursOf(gs)), H.ColoursOf(gs), owner, t, unmarked)
    ensures Work(Shapes(gs)) <= old(Work(Shapes(gs)))
    ensures forall i, y | 0 <= i < |gs| && Next(old(gs[i].shape), y) :: Next(gs[i].shape, y)
  {
    hide Good, Marked, Group.Valid, GroupsOk, Work, Next, H.ColoursOf, Shapes;
    ghost var cs := H.ColoursOf(gs);
    GroupColours(gs, marked, unmarked);
    TraceAddress(gs, t, owner, marked, unmarked);
    if IsObject(cs, owner, t) && Col(cs, owner, t) == unmarked {
      MarkedShade(cs0, cs, owner, refs, marked, unmarked, x, t);
    }
  }

  lemma GroupColours(gs: seq<Group>, marked: Colour, unmarked: Colour)
    requires GroupsOk(gs, marked, unmarked)
    ensures marked != unmarked && Generation(marked) && Generation(unmarked)
  {}

  /** scan_object: trace every word of x. */
  method ScanObject(gs: seq<Group>, x: int, owner: Owners, refs: Refs, marked: Colour, unmarked: Colour,
                    ghost cs0: H.Colourings)
    requires GroupsOk(gs, marked, unmarked) && Marked(cs0, H.ColoursOf(gs), owner, refs, marked, unmarked)
    requires IsObject(H.ColoursOf(gs), owner, x) && Col(H.ColoursOf(gs), owner, x) == Gray
    modifies gs
    ensures GroupsOk(gs, marked, unmarked) && Marked(cs0, H.ColoursOf(gs), owner, refs, marked, unmarked)
    ensures IsObject(H.ColoursOf(gs), owner, x) && Col(H.ColoursOf(gs), owner, x) == Gray
    ensures forall t | t in refs(x) && IsObject(H.ColoursOf(gs), owner, t) :: Col(H.ColoursOf(gs), owner, t) != unmarked
    ensures Work(Shapes(gs)) <= old(Work(Shapes(gs)))
    ensures forall i, y | 0 <= i < |gs| && Next(old(gs[i].shape), y) :: Next(gs[i].shape, y)
  {
    hide Good, Marked, Group.Valid, GroupsOk, Work, Next, H.ColoursOf, Shapes, Traced;
    GroupColours(gs, marked, unmarked);
    var words := refs(x);
    var k := 0;
    while k < |words|
      invariant 0 <= k <= |words|
      invariant GroupsOk(gs, marked, unmarked) && Marked(cs0, H.ColoursOf(gs), owner, refs, marked, unmarked)
      invariant Scanning(H.ColoursOf(gs), owner, x, words, k, unmarked)
      invariant Work(Shapes(gs)) <= old(Work(Shapes(gs)))
      invariant forall i, y | 0 <= i < |gs| && Next(old(gs[i].shape), y) :: Next(gs[i].shape, y)
    {
      ghost var cs := H.ColoursOf(gs);
      TraceWord(gs, x, words[k], owner, marked, unmarked, refs, cs0);
      ScanningNext(cs, H.ColoursOf(gs), owner, x, words, k, unmarked);
      k := k + 1;
    }
  }

  /** x is gray, and the first k of its words no longer refer to white objects. */
  ghost predicate Scanning(cs: H.Colourings, owner: Owners, x: int, words: seq<int>, k: nat, unmarked: Colour) {
    && k <= |words| && IsObject(cs, owner, x) && Col(cs, owner, x) == Gray
    && (forall j | 0 <= j < k && IsObject(cs, owner, words[j]) :: Col(cs, owner, words[j]) != unmarked)
  }

  lemma ScanningNext(cs: H.Colourings, cs': H.Colourings, owner: Owners, x: int, words: seq<int>, k: nat,
                     unmarked: Colour)
    requires Scanning(cs, owner, x, words, k, unmarked) && k < |words| && Traced(cs, cs', owner, words[k], unmarked)
    requires Generation(unmarked)
    ensures Scanning(cs', owner, x, words, k + 1, unmarked)
  {}

  /** The end of scan_object_with_group: blacken x and go on along its prev link. */
  method EndScan(gs: seq<Group>, i: nat, x: int, marked: Colour, unmarked: Colour) returns (next: int)
    requires GroupsOk(gs, marked, unmarked) && i < |gs| && Next(gs[i].shape, x)
    modifies gs[i]
    ensures GroupsOk(gs, marked, unmarked)
    ensures H.ColoursOf(gs) == old(H.ColoursOf(gs))[i := old(H.ColoursOf(gs))[i][x := marked]]
    ensures Shapes(gs) == old(Shapes(gs))[i := old(gs[i].shape).(grays := old(gs[i].shape).grays - 1)]
    ensures if next == NULL then gs[i].shape.grays == 0 else Next(gs[i].shape, next)
  {
    hide Good, Group.Valid, Colouring, SameClasses;
    gs[i].Scanned(x, marked, unmarked);
    next := gs[i].hdr[x].prev;
    CursorEnds(gs[i], next, marked, unmarked);
  }

  /** scan_object_with_group on the object at the cursor of group i. */
  method ScanObjectWithGroup(gs: seq<Group>, i: nat, x: int, owner: Owners, refs: Refs, marked: Colour,
                             unmarked: Colour, ghost cs0: H.Colourings)
    returns (next: int)
    requires GroupsOk(gs, marked, unmarked) && Marked(cs0, H.ColoursOf(gs), owner, refs, marked, unmarked)
    requires Resolves(cs0, owner)
    requires i < |gs| && Next(gs[i].shape, x)
    modifies gs
    ensures GroupsOk(gs, marked, unmarked) && Marked(cs0, H.ColoursOf(gs), owner, refs, marked, unmarked)
    ensures if next == NULL then gs[i].shape.grays == 0 else Next(gs[i].shape, next)
    ensures Work(Shapes(gs)) < old(Work(Shapes(gs)))
  {
    hide Good, Marked, Group.Valid, Work, Resolves, Colouring;
    GrayAtCursor(gs[i], x, marked, unmarked);
    CursorResolves(cs0, H.ColoursOf(gs), owner, refs, marked, unmarked, i, x);
    ScanObject(gs, x, owner, refs, marked, unmarked, cs0);
    MarkedBlacken(cs0, H.ColoursOf(gs), owner, refs, marked, unmarked, x);
    OneGroupWorked(Shapes(gs), i, gs[i].shape.(grays := gs[i].shape.grays - 1));
    hide GroupsOk, H.ColoursOf, Shapes;
    next := EndScan(gs, i, x, marked, unmarked);
  }

  lemma GrayAtCursor(g: Group, x: int, marked: Colour, unmarked: Colour)
    requires g.Valid(marked, unmarked) && Next(g.shape, x)
    ensures x in Colouring(g.hdr) && Colouring(g.hdr)[x] == Gray
  {
    assert LinkAt(g.hdr, g.shape.main, g.shape.grays - 1);
    assert ColourAt(Colouring(g.hdr), g.shape, marked, g.shape.grays - 1);
  }

  lemma CursorResolves(cs0: H.Colourings, cs: H.Colourings, owner: Owners, refs: Refs, marked: Colour, unmarked: Colour,
                       i: nat, x: int)
    requires Marked(cs0, cs, owner, refs, marked, unmarked) && Resolves(cs0, owner) && i < |cs| && x in cs[i]
    ensures owner(x) == i
  {
    assert x in cs0[i].Keys;
  }

  lemma CursorEnds(g: Group, current: int, marked: Colour, unmarked: Colour)
    requires g.Valid(marked, unmarked) && current == At(g.shape.main, g.shape.grays - 1)
    ensures if current == NULL then g.shape.grays == 0 else Next(g.shape, current)
  {
    if g.shape.grays > 0 { assert LinkAt(g.hdr, g.shape.main, g.shape.grays - 1); }
  }

  lemma NoGrayLeft(g: Group, marked: Colour, unmarked: Colour)
    requires g.Valid(marked, unmarked) && g.shape.grays == 0
    ensures forall x | x in g.hdr :: Colouring(g.hdr)[x] != Gray
  {
    forall x | x in g.hdr ensures g.hdr[x].colour != Gray {
      ColourIsPlace(g.hdr, Cut(g.gray, g.black, g.free, g.last, g.white), g.shape, marked, unmarked, x);
    }
  }

  /** The inner loop: scan group i until its cursor runs off the gray objects. */
  method ScanGroup(gs: seq<Group>, i: nat, owner: Owners, refs: Refs, marked: Colour, unmarked: Colour,
                   ghost cs0: H.Colourings)
    returns (scanCount: nat)
    requires GroupsOk(gs, marked, unmarked) && Marked(cs0, H.ColoursOf(gs), owner, refs, marked, unmarked)
    requires Resolves(cs0, owner)
    requires i < |gs|
    modifies gs
    ensures GroupsOk(gs, marked, unmarked) && Marked(cs0, H.ColoursOf(gs), owner, refs, marked, unmarked)
    ensures scanCount == 0 ==> Shapes(gs) == old(Shapes(gs)) && gs[i].shape.grays == 0
    ensures scanCount > 0 ==> Work(Shapes(gs)) < old(Work(Shapes(gs)))
  {
    hide Good, Marked, Group.Valid, Work, H.ColoursOf, Shapes, Resolves, Next;
    scanCount := 0;
    var current := gs[i].NextToScan(marked, unmarked);
    CursorEnds(gs[i], current, marked, unmarked);
    hide GroupsOk;
    while current != NULL
      invariant GroupsOk(gs, marked, unmarked) && Marked(cs0, H.ColoursOf(gs), owner, refs, marked, unmarked)
      invariant if current == NULL then gs[i].shape.grays == 0 else Next(gs[i].shape, current)
      invariant scanCount == 0 ==> Shapes(gs) == old(Shapes(gs))
      invariant scanCount > 0 ==> Work(Shapes(gs)) < old(Work(Shapes(gs)))
      decreases Work(Shapes(gs))
    {
      current := ScanObjectWithGroup(gs, i, current, owner, refs, marked, unmarked, cs0);
      scanCount := scanCount + 1;
    }
  }

  /** One pass over all groups. */
  method ScanAllGroups(gs: seq<Group>, owner: Owners, refs: Refs, marked: Colour, unmarked: Colour,
                       ghost cs0: H.Colourings)
    returns (scanCount: nat)
    requires GroupsOk(gs, marked, unmarked) && Marked(cs0, H.ColoursOf(gs), owner, refs, marked, unmarked)
    requires Resolves(cs0, owner)
    modifies gs
    ensures GroupsOk(gs, marked, unmarked) && Marked(cs0, H.ColoursOf(gs), owner, refs, marked, unmarked)
    ensures scanCount == 0 ==> Shapes(gs) == old(Shapes(gs)) && forall j | 0 <= j < |gs| :: gs[j].shape.grays == 0
    ensures scanCount > 0 ==> Work(Shapes(gs)) < old(Work(Shapes(gs)))
  {
    hide Good, Marked, Group.Valid, GroupsOk, Work, H.ColoursOf, Shapes, Resolves;
    var i := 0;
    scanCount := 0;
    while i < |gs|
      invariant 0 <= i <= |gs|
      invariant GroupsOk(gs, marked, unmarked) && Marked(cs0, H.ColoursOf(gs), owner, refs, marked, unmarked)
      invariant scanCount == 0 ==>
                  Shapes(gs) == old(Shapes(gs)) && forall j | 0 <= j < i :: old(Shapes(gs))[j].grays == 0
      invariant scanCount > 0 ==> Work(Shapes(gs)) < old(Work(Shapes(gs)))
    {
      var scanned := ScanGroup(gs, i, owner, refs, marked, unmarked, cs0);
      scanCount := scanCount + scanned;
      i := i + 1;
    }
  }

  /** scan_gray_set: pass over all groups again and again until a pass has found nothing to scan. */
  method ScanGraySet(gs: seq<Group>, owner: Owners, refs: Refs, marked: Colour, unmarked: Colour)
    requires GroupsOk(gs, marked, unmarked) && Resolves(H.ColoursOf(gs), owner)
    modifies gs
    ensures GroupsOk(gs, marked, unmarked)
    ensures forall i | 0 <= i < |gs| :: gs[i].shape.grays == 0
    ensures Marked(old(H.ColoursOf(gs)), H.ColoursOf(gs), owner, refs, marked, unmarked)
  {
    hide Good, Marked, Group.Valid, GroupsOk, Work, H.ColoursOf, Shapes, Resolves;
    ghost var cs0 := H.ColoursOf(gs);
    MarkedStart(cs0, owner, refs, marked, unmarked);
    var rescanAllGroups := true;
    while rescanAllGroups
      invariant GroupsOk(gs, marked, unmarked) && Marked(cs0, H.ColoursOf(gs), owner, refs, marked, unmarked)
      invariant !rescanAllGroups ==> forall j | 0 <= j < |gs| :: gs[j].shape.grays == 0
      decreases Work(Shapes(gs)), rescanAllGroups
    {
      var scanCount := ScanAllGroups(gs, owner, refs, marked, unmarked, cs0);
      rescanAllGroups := scanCount > 0;
    }
  }

  /** What scan_gray_set has achieved: black is exactly what was gray or reachable from gray through white. */
  lemma ScanGraySetMarksTheReachable(gs: seq<Group>, cs0: H.Colourings, owner: Owners, refs: Refs, marked: Colour,
                                     unmarked: Colour, x: int)
    requires GroupsOk(gs, marked, unmarked) && Marked(cs0, H.ColoursOf(gs), owner, refs, marked, unmarked)
    requires Resolves(cs0, owner)
    requires forall i | 0 <= i < |gs| :: gs[i].shape.grays == 0
    requires IsObject(cs0, owner, x) && Col(cs0, owner, x) != marked && Col(cs0, owner, x) != Green
    ensures IsObject(H.ColoursOf(gs), owner, x)
    ensures Col(H.ColoursOf(gs), owner, x) == if Reachable(cs0, owner, refs, unmarked, x) then marked else unmarked
  {
    var cs := H.ColoursOf(gs);
    forall y | IsObject(cs, owner, y) ensures Col(cs, owner, y) != Gray { NoGrayLeft(gs[owner(y)], marked, unmarked); }
    MarkedIsReachable(cs0, cs, owner, refs, marked, unmarked, x);
  }
}
